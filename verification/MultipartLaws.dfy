/** What encoding and decoding multipart messages promise each other. */
module MultipartLaws {
  import opened Options
  import opened MultipartCodec

  // ----- decoding what was encoded

  lemma PartDecoded(part: Part, s: seq<Byte>)
    requires |part| <= MAX_U32
    ensures Decoded(Header(|part|) + part + s) == Prepended([part], Decoded(s))
  {
    var h := |Header(|part|)|;
    var all := Header(|part|) + part + s;
    if h == 5 {
      assert all[1..5] == NetworkOrder(|part|);
      WrittenIsRead(|part|);
    }
    assert all[h..h + |part|] == part;
    assert all[h + |part|..] == s;
  }

  lemma {:induction false} EncodedThen(parts: seq<Part>, s: seq<Byte>)
    requires Encodable(parts)
    ensures Decoded(Encoded(parts) + s) == Prepended(parts, Decoded(s))
  {
    hide Decoded, Header;
    if parts == [] {
      assert Encoded(parts) + s == s;
    } else {
      var whole, rest := Header(|parts[0]|) + parts[0], Encoded(parts[1..]);
      assert (whole + rest) + s == whole + (rest + s);
      PartDecoded(parts[0], rest + s);
      EncodedThen(parts[1..], s);
    }
  }

  lemma RoundTrip(parts: seq<Part>)
    requires Encodable(parts)
    ensures Decoded(Encoded(parts)) == Decoding(parts, None)
  {
    EncodedThen(parts, []);
    assert Encoded(parts) + [] == Encoded(parts);
  }

  // ----- decoding a truncated encoding

  /** How many parts of an encoding lie within its first k bytes. */
  function Complete(parts: seq<Part>, k: nat): (j: nat)
    requires Encodable(parts)
    ensures j <= |parts|
  {
    if parts == [] then 0
    else
      var n := |Header(|parts[0]|)| + |parts[0]|;
      if k < n then 0 else 1 + Complete(parts[1..], k - n)
  }

  /** A part that is cut off gives no part and an error. */
  lemma CutPart(part: Part, k: nat)
    requires |part| <= MAX_U32 && 0 < k < |Header(|part|)| + |part|
    ensures
      var d := Decoded((Header(|part|) + part)[..k]);
      && d.parts == [] && d.error != None
      && (d.error == Some(SizeOverflow) <==> |part| >= 255 && k < 5)
  {
    var all := Header(|part|) + part;
    var s := all[..k];
    assert s[0] == all[0];
    if |Header(|part|)| == 5 && k >= 5 {
      assert all[1..5] == NetworkOrder(|part|) && s[1..5] == all[1..5];
      WrittenIsRead(|part|);
    }
  }

  /** Decoding a truncated encoding gives exactly the complete parts, with no error exactly at a part boundary. */
  lemma {:induction false} Truncated(parts: seq<Part>, k: nat)
    requires Encodable(parts) && k <= |Encoded(parts)|
    ensures
      var d, j := Decoded(Encoded(parts)[..k]), Complete(parts, k);
      && d.parts == parts[..j]
      && (d.error == None <==> k == |Encoded(parts[..j])|)
      && |Encoded(parts[..j])| <= k
      && (j < |parts| ==> k < |Encoded(parts[..j + 1])|)
  {
    hide Decoded, Encoded, Header;
    if parts == [] {
      EmptyMessage();
    } else {
      var part, rest := parts[0], parts[1..];
      var whole := Header(|part|) + part;
      var n := |whole|;
      TakeMore(parts, 0);
      TakeMore(parts, |rest|);
      assert parts[..|parts|] == parts && rest[..|rest|] == rest;
      EmptyMessage();
      if k < n {
        assert Encoded(parts)[..k] == whole[..k];
        if k > 0 {
          CutPart(part, k);
        }
      } else {
        var j := Complete(rest, k - n);
        Truncated(rest, k - n);
        assert Encoded(parts)[..k] == whole + Encoded(rest)[..k - n];
        PartDecoded(part, Encoded(rest)[..k - n]);
        TakeMore(parts, j);
        if j < |rest| {
          TakeMore(parts, j + 1);
        }
      }
    }
  }

  /** Which error a cut part gives: that of its size if the cut is within the five bytes of one, else that of its
      data. */
  lemma {:induction false} CutError(parts: seq<Part>, k: nat)
    requires Encodable(parts) && k <= |Encoded(parts)|
    ensures
      var d, j := Decoded(Encoded(parts)[..k]), Complete(parts, k);
      d.error != None ==>
        && j < |parts|
        && var into := k - |Encoded(parts[..j])|;
          && into > 0
          && (d.error == Some(SizeOverflow) <==> |parts[j]| >= 255 && into < 5)
    decreases |parts|
  {
    hide Decoded, Encoded, Header;
    if parts == [] {
      EmptyMessage();
    } else {
      var part, rest := parts[0], parts[1..];
      var whole := Header(|part|) + part;
      var n := |whole|;
      TakeMore(parts, 0);
      TakeMore(parts, |rest|);
      assert parts[..|parts|] == parts && rest[..|rest|] == rest && parts[..0] == [];
      EmptyMessage();
      if k < n {
        assert Encoded(parts)[..k] == whole[..k];
        if k > 0 {
          CutPart(part, k);
        }
      } else {
        var j := Complete(rest, k - n);
        CutError(rest, k - n);
        assert Encoded(parts)[..k] == whole + Encoded(rest)[..k - n];
        PartDecoded(part, Encoded(rest)[..k - n]);
        if j < |rest| {
          TakeMore(parts, j);
        }
      }
    }
  }

  lemma TakeMore(parts: seq<Part>, j: nat)
    requires Encodable(parts) && j < |parts|
    ensures parts[..j + 1] == [parts[0]] + parts[1..][..j]
    ensures Encoded(parts[..j + 1]) == Header(|parts[0]|) + parts[0] + Encoded(parts[1..][..j])
  {
    assert parts[..j + 1][1..] == parts[1..][..j];
  }

  /** A prefix of an encoding decodes without error if and only if it ends at a part boundary. */
  lemma PrefixDecodes(parts: seq<Part>, k: nat)
    requires Encodable(parts) && k <= |Encoded(parts)|
    ensures Decoded(Encoded(parts)[..k]).error == None <==> exists j :: 0 <= j <= |parts| && k == |Encoded(parts[..j])|
    ensures forall j :: 0 <= j <= |parts| && k == |Encoded(parts[..j])| ==>
      Decoded(Encoded(parts)[..k]) == Decoding(parts[..j], None)
  {
    Truncated(parts, k);
    forall j | 0 <= j <= |parts| && k == |Encoded(parts[..j])|
      ensures Decoded(Encoded(parts)[..k]) == Decoding(parts[..j], None)
    {
      EncodedPrefix(parts, j);
      assert Encoded(parts)[..k] == Encoded(parts[..j]);
      RoundTrip(parts[..j]);
    }
  }

  // ----- encoding what was decoded

  /** How many parts have a five byte size although one byte would do. */
  function Loose(s: seq<Byte>): nat
    decreases |s|
  {
    if s == [] then 0
    else
      match ReadHeader(s)
      case None => 0
      case Some((h, n)) =>
        if |s| - h < n then 0 else (if h == 5 && n < MAX_U8 then 1 else 0) + Loose(s[h + n..])
  }

  /** A message that decodes without error is a well-formed part and a message that does so too. */
  lemma FirstPart(s: seq<Byte>)
    requires s != [] && Decoded(s).error == None
    ensures ReadHeader(s).Some?
    ensures
      var (h, n) := ReadHeader(s).value;
      && 0 < h && h + n <= |s|
      && Decoded(s) == Decoding([s[h..h + n]] + Decoded(s[h + n..]).parts, None)
      && Decoded(s[h + n..]).error == None
      && Loose(s) == (if h == 5 && n < MAX_U8 then 1 else 0) + Loose(s[h + n..])
      && s == s[..h] + s[h..h + n] + s[h + n..]
  {
    hide FromNetworkOrder, Encoded;
    var (h, n) := ReadHeader(s).value;
    assert h + n <= |s|;
    ThreePieces(s, h, h + n);
  }

  lemma ThreePieces(s: seq<Byte>, i: nat, j: nat)
    requires i <= j <= |s|
    ensures s == s[..i] + s[i..j] + s[j..]
  {
  }

  lemma {:induction false} ReencodedSize(s: seq<Byte>)
    requires Decoded(s).error == None
    ensures
      var parts := Decoded(s).parts;
      && Encodable(parts)
      && |s| == |Encoded(parts)| + 4 * Loose(s)
      && (Loose(s) == 0 ==> Encoded(parts) == s)
    decreases |s|
  {
    hide Encoded, Header, ReadHeader, Decoded, Loose;
    if s == [] {
      EmptyMessage();
    } else {
      FirstPart(s);
      var (h, n) := ReadHeader(s).value;
      ReencodedSize(s[h + n..]);
      OnePartMore(s[h..h + n], Decoded(s[h + n..]).parts);
      HeaderAnew(s);
    }
  }

  lemma EmptyMessage()
    ensures Decoded([]) == Decoding([], None) && Encoded([]) == [] && Loose([]) == 0
  {
  }

  /** Encoding anew saves four bytes for every size that was longer than needed, and changes nothing else. */
  lemma Reencoded(s: seq<Byte>)
    requires Decoded(s).error == None
    ensures
      var parts := Decoded(s).parts;
      && Encodable(parts)
      && |s| == |Encoded(parts)| + 4 * Loose(s)
      && (Encoded(parts) == s <==> Loose(s) == 0)
      && Decoded(Encoded(parts)) == Decoded(s)
  {
    ReencodedSize(s);
    RoundTrip(Decoded(s).parts);
  }

  lemma OnePartMore(part: Part, parts: seq<Part>)
    requires |part| <= MAX_U32 && Encodable(parts)
    ensures Encodable([part] + parts) && Encoded([part] + parts) == Header(|part|) + part + Encoded(parts)
  {
    assert ([part] + parts)[1..] == parts;
  }

  /** A size is written as it was read, unless five bytes were used where one would do. */
  lemma HeaderAnew(s: seq<Byte>)
    requires s != [] && ReadHeader(s).Some?
    ensures
      var (h, n) := ReadHeader(s).value;
      && (h == 5 || h == 1)
      && if h == 5 && n < MAX_U8 then |Header(n)| == 1 else Header(n) == s[..h]
  {
    if s[0] == MAX_U8 {
      ReadIsWritten(s[1..5]);
      assert s[..5] == [MAX_U8] + s[1..5];
    } else {
      assert s[..1] == [s[0]];
    }
  }
}
