/** The multipart codec of zmq_addon.hpp: sizes of one or five bytes, each followed by the data of a part. */
module MultipartCodec {
  import opened Options

  type Byte = x: int | 0 <= x < 0x100
  type Part = seq<Byte>

  const MAX_U32 := 0xFFFF_FFFF
  const MAX_U8 := 0xFF

  datatype Outcome<T> = Fine(value: T) | RangeError
  datatype DecodeError = SizeOverflow | PartOverflow
  datatype Decoding = Decoding(parts: seq<Part>, error: Option<DecodeError>)

  // ----- 32 bit values in network order

  function NetworkOrder(value: nat): (r: seq<Byte>)
    requires value <= MAX_U32
    ensures |r| == 4
  {
    [value / 0x100_0000 % 0x100, value / 0x1_0000 % 0x100, value / 0x100 % 0x100, value % 0x100]
  }

  function FromNetworkOrder(b: seq<Byte>): (r: nat)
    requires |b| == 4
    ensures r <= MAX_U32
  {
    b[0] as int * 0x100_0000 + b[1] as int * 0x1_0000 + b[2] as int * 0x100 + b[3]
  }

  lemma WrittenIsRead(value: nat)
    requires value <= MAX_U32
    ensures FromNetworkOrder(NetworkOrder(value)) == value
  {
    var q := value / 0x100;
    var r := q / 0x100;
    assert value / 0x1_0000 == r && value / 0x100_0000 == r / 0x100;
  }

  lemma ReadIsWritten(b: seq<Byte>)
    requires |b| == 4
    ensures NetworkOrder(FromNetworkOrder(b)) == b
  {
    var high := b[0] as int * 0x1_0000 + b[1] as int * 0x100 + b[2];
    LastByte(high, b[3]);
    LastByte(b[0] as int * 0x100 + b[1], b[2]);
    LastByte(b[0], b[1]);
  }

  lemma LastByte(high: nat, low: Byte)
    ensures (high * 0x100 + low) / 0x100 == high && (high * 0x100 + low) % 0x100 == low
  {
  }

  /** Each byte weighs 256 times the next. */
  lemma BytesWeigh(value: nat)
    requires value <= MAX_U32
    ensures
      var b := NetworkOrder(value);
      value == b[0] as int * 0x100_0000 + b[1] as int * 0x1_0000 + b[2] as int * 0x100 + b[3]
  {
    WrittenIsRead(value);
  }

  /** The first byte in which they differ is the larger one of a larger value. */
  lemma LargerBytes(v: nat, w: nat) returns (i: nat)
    requires v < w <= MAX_U32
    ensures i < 4 && NetworkOrder(v)[..i] == NetworkOrder(w)[..i] && NetworkOrder(v)[i] < NetworkOrder(w)[i]
  {
    hide NetworkOrder;
    var a, b := NetworkOrder(v), NetworkOrder(w);
    BytesWeigh(v);
    BytesWeigh(w);
    i := if a[0] != b[0] then 0 else if a[1] != b[1] then 1 else if a[2] != b[2] then 2 else 3;
  }

  /** A part of up to 254 bytes has its size in front of it in one byte. A larger one has the byte 255 there, and then
      the four bytes of the size, each of which weighs 256 times the next. */
  lemma PartBytes(part: Part)
    requires |part| <= MAX_U32
    ensures
      var e := Encoded([part]);
      if |part| <= 254 then |e| == 1 + |part| && e[0] == |part| && e[1..] == part
      else
        && |e| == 5 + |part| && e[0] == 255 && e[5..] == part
        && |part| == e[1] as int * 0x100_0000 + e[2] as int * 0x1_0000 + e[3] as int * 0x100 + e[4]
  {
    BytesWeigh(|part|);
    assert [part][1..] == [] && Encoded([part]) == Header(|part|) + part + Encoded([]);
  }

  // ----- the format

  function Header(size: nat): (r: seq<Byte>)
    requires size <= MAX_U32
    ensures |r| == if size < MAX_U8 then 1 else 5
  {
    if size < MAX_U8 then [size] else [MAX_U8] + NetworkOrder(size)
  }

  ghost predicate Encodable(parts: seq<Part>) {
    forall i :: 0 <= i < |parts| ==> |parts[i]| <= MAX_U32
  }

  function Encoded(parts: seq<Part>): seq<Byte>
    requires Encodable(parts)
  {
    if parts == [] then [] else Header(|parts[0]|) + parts[0] + Encoded(parts[1..])
  }

  /** The length of the size at the start of s and the size it gives, unless s ends within it. */
  function ReadHeader(s: seq<Byte>): (r: Option<(nat, nat)>)
    requires s != []
    ensures r.Some? ==> r.value.0 <= |s| && r.value.1 <= MAX_U32
  {
    if s[0] != MAX_U8 then Some((1, s[0]))
    else if |s| < 5 then None
    else Some((5, FromNetworkOrder(s[1..5])))
  }

  function Prepended(parts: seq<Part>, d: Decoding): Decoding { Decoding(parts + d.parts, d.error) }

  /** The parts before the first malformed one, and what is wrong with that. */
  function Decoded(s: seq<Byte>): Decoding
    decreases |s|
  {
    if s == [] then Decoding([], None)
    else
      match ReadHeader(s)
      case None => Decoding([], Some(SizeOverflow))
      case Some((h, n)) =>
        if |s| - h < n then Decoding([], Some(PartOverflow))
        else
          Prepended([s[h..h + n]], Decoded(s[h + n..]))
  }

  // ----- the two passes of encoding

  method WriteNetworkOrder(buf: array<Byte>, pos: nat, value: nat)
    requires pos + 4 <= buf.Length && value <= MAX_U32
    modifies buf
    ensures buf[..] == old(buf[..pos]) + NetworkOrder(value) + old(buf[pos + 4..])
  {
    buf[pos] := value / 0x100_0000 % 0x100;
    buf[pos + 1] := value / 0x1_0000 % 0x100;
    buf[pos + 2] := value / 0x100 % 0x100;
    buf[pos + 3] := value % 0x100;
  }

  lemma ByteCopied(was: seq<Byte>, pos: nat, data: Part, i: nat)
    requires pos + |data| <= |was| && i < |data|
    ensures
      (was[..pos] + data[..i] + was[pos + i..])[pos + i := data[i]] == was[..pos] + data[..i + 1] + was[pos + i + 1..]
  {
  }

  method CopyBytes(buf: array<Byte>, pos: nat, data: Part)
    requires pos + |data| <= buf.Length
    modifies buf
    ensures buf[..] == old(buf[..pos]) + data + old(buf[pos + |data|..])
  {
    ghost var was := buf[..];
    for i := 0 to |data|
      invariant buf[..] == was[..pos] + data[..i] + was[pos + i..]
    {
      ByteCopied(was, pos, data, i);
      buf[pos + i] := data[i];
    }
  }

  /** The size of the whole, unless a part is too large for the format. */
  method EncodedSize(parts: seq<Part>) returns (r: Outcome<nat>)
    ensures r.Fine? <==> Encodable(parts)
    ensures r.Fine? ==> r.value == |Encoded(parts)|
  {
    var size := 0;
    for i := 0 to |parts|
      invariant Encodable(parts[..i]) && size == |Encoded(parts[..i])|
    {
      if |parts[i]| > MAX_U32 {
        return RangeError;
      }
      EncodedSnoc(parts, i);
      size := size + |parts[i]| + (if |parts[i]| < MAX_U8 then 1 else 5);
    }
    assert parts[..|parts|] == parts;
    r := Fine(size);
  }

  method WritePart(buf: array<Byte>, start: nat, part: Part) returns (pos: nat)
    requires |part| <= MAX_U32 && start + |Header(|part|)| + |part| <= buf.Length
    modifies buf
    ensures pos == start + |Header(|part|)| + |part|
    ensures buf[..pos] == old(buf[..start]) + Header(|part|) + part
  {
    pos := start;
    if |part| < MAX_U8 {
      buf[pos] := |part|;
      pos := pos + 1;
    } else {
      buf[pos] := MAX_U8;
      pos := pos + 1;
      WriteNetworkOrder(buf, pos, |part|);
      pos := pos + 4;
    }
    assert buf[..pos] == old(buf[..start]) + Header(|part|);
    CopyBytes(buf, pos, part);
    pos := pos + |part|;
  }

  /** Fails exactly when a part is too large for the format. */
  method Encode(parts: seq<Part>) returns (r: Outcome<array<Byte>>)
    ensures r.Fine? <==> Encodable(parts)
    ensures r.Fine? ==> fresh(r.value) && r.value[..] == Encoded(parts)
  {
    var size := EncodedSize(parts);
    if size.RangeError? {
      return RangeError;
    }
    var buf := new Byte[size.value];
    var pos := 0;
    for i := 0 to |parts|
      invariant pos == |Encoded(parts[..i])| <= buf.Length && buf[..pos] == Encoded(parts[..i])
    {
      EncodedSnoc(parts, i);
      EncodedPrefix(parts, i + 1);
      pos := WritePart(buf, pos, parts[i]);
    }
    assert parts[..|parts|] == parts;
    r := Fine(buf);
  }

  lemma {:induction false} EncodedConcat(a: seq<Part>, b: seq<Part>)
    requires Encodable(a) && Encodable(b)
    ensures Encodable(a + b) && Encoded(a + b) == Encoded(a) + Encoded(b)
  {
    if a == [] {
      assert a + b == b;
    } else {
      assert (a + b)[1..] == a[1..] + b;
      EncodedConcat(a[1..], b);
    }
  }

  lemma EncodedSnoc(parts: seq<Part>, i: nat)
    requires i < |parts| && Encodable(parts[..i]) && |parts[i]| <= MAX_U32
    ensures Encodable(parts[..i + 1])
    ensures Encoded(parts[..i + 1]) == Encoded(parts[..i]) + Header(|parts[i]|) + parts[i]
  {
    assert parts[..i + 1] == parts[..i] + [parts[i]];
    EncodedConcat(parts[..i], [parts[i]]);
    assert Encoded([parts[i]]) == Header(|parts[i]|) + parts[i] + Encoded([]);
  }

  lemma EncodedPrefix(parts: seq<Part>, i: nat)
    requires i <= |parts| && Encodable(parts)
    ensures Encoded(parts[..i]) <= Encoded(parts)
  {
    hide Encoded, Header;
    var a, b := parts[..i], parts[i..];
    assert a + b == parts;
    EncodedConcat(a, b);
    assert Encoded(parts) == Encoded(a) + Encoded(b);
  }

  // ----- decoding

  /** One step of decoding, at position p of the whole message. */
  lemma NextPart(all: seq<Byte>, p: nat)
    requires p < |all|
    ensures all[p] == MAX_U8 && |all| - p < 5 ==> Decoded(all[p..]) == Decoding([], Some(SizeOverflow))
    ensures all[p] != MAX_U8 || |all| - p >= 5 ==>
      var (h, n) := if all[p] == MAX_U8 then (5, FromNetworkOrder(all[p + 1..p + 5])) else (1, all[p]);
      Decoded(all[p..]) ==
        if |all| - p - h < n then Decoding([], Some(PartOverflow))
        else Prepended([all[p + h..p + h + n]], Decoded(all[p + h + n..]))
  {
    var s := all[p..];
    if all[p] != MAX_U8 || |all| - p >= 5 {
      if all[p] == MAX_U8 {
        assert all[p + 1..p + 5] == s[1..5];
      }
      var (h, n) := ReadHeader(s).value;
      if |s| - h >= n {
        assert all[p + h..p + h + n] == s[h..h + n] && all[p + h + n..] == s[h + n..];
      }
    }
  }

  /** Hands out the parts one by one and stops at the first malformed one. */
  method Decode(encoded: array<Byte>) returns (parts: seq<Part>, error: Option<DecodeError>)
    ensures Decoding(parts, error) == Decoded(encoded[..])
  {
    hide Decoded, FromNetworkOrder;
    parts := [];
    var source, limit := 0, encoded.Length;
    ghost var all := encoded[..];
    assert all[0..] == all;
    while source < limit
      invariant 0 <= source <= limit
      invariant Decoded(all) == Prepended(parts, Decoded(all[source..]))
    {
      NextPart(all, source);
      var size: nat := encoded[source];
      source := source + 1;
      if size == MAX_U8 {
        if limit - source < 4 {
          return parts, Some(SizeOverflow);
        }
        size := FromNetworkOrder(encoded[source..source + 4]);
        source := source + 4;
      }
      if limit - source < size {
        return parts, Some(PartOverflow);
      }
      parts := parts + [encoded[source..source + size]];
      source := source + size;
    }
    assert all[source..] == [];
    NothingDecoded();
    error := None;
  }

  lemma NothingDecoded()
    ensures Decoded([]) == Decoding([], None)
  {
  }
}
