/** How the input handler cuts a string into pieces and decodes them into one buffer. */
module InputHandling {
  import opened Options
  import opened Utf32

  const MAX_PARSEBUFFER_LENGTH: nat := 131072
  const FIRST_LENGTH: nat := 4096

  /** What a call of the escape sequence parser gets: the code points in the buffer, and the length it is told. */
  datatype Handed = Handed(points: seq<CodePoint>, length: nat)

  function Min(a: nat, b: nat): nat { if a < b then a else b }

  function Pieces(data: seq<Unit>): (r: seq<seq<Unit>>)
    ensures Flat(r) == data && forall i :: 0 <= i < |r| ==> |r[i]| <= Min(|data|, MAX_PARSEBUFFER_LENGTH)
    ensures |r| > 0 && forall i :: 0 <= i < |r| - 1 ==> |r[i]| == 131072
    decreases |data|
  {
    if |data| <= MAX_PARSEBUFFER_LENGTH then
      assert [data][1..] == [] && data + Flat([]) == data;
      [data]
    else
      var first, rest := data[..MAX_PARSEBUFFER_LENGTH], Pieces(data[MAX_PARSEBUFFER_LENGTH..]);
      assert ([first] + rest)[1..] == rest;
      [first] + rest
  }

  function HandedOver(p: Parse, capacity: nat): Handed {
    Handed(p.points[..Min(|p.points|, capacity)], |p.points|)
  }

  /** What the parser gets for pieces decoded one after another, and what is held back at the end. */
  function AllHanded(pending: Option<Unit>, pieces: seq<seq<Unit>>, capacity: nat): (seq<Handed>, Option<Unit>)
    decreases |pieces|
  {
    if pieces == [] then ([], pending)
    else
      var p := Parsed(Held(pending) + pieces[0]);
      var rest := AllHanded(p.pending, pieces[1..], capacity);
      ([HandedOver(p, capacity)] + rest.0, rest.1)
  }

  function Points(hs: seq<Handed>): seq<CodePoint> { if hs == [] then [] else hs[0].points + Points(hs[1..]) }

  /** Some piece fills the buffer while a unit is held back, and no pair in it makes up for that unit. */
  ghost predicate Overfull(pending: Option<Unit>, pieces: seq<seq<Unit>>, capacity: nat)
    decreases |pieces|
  {
    pieces != [] &&
    var whole := Held(pending) + pieces[0];
    || (pending.Some? && |pieces[0]| == capacity && Unpaired(whole))
    || Overfull(Parsed(whole).pending, pieces[1..], capacity)
  }

  /** Of each piece at most one code point is missing, and the parser gets all code points of the string, and as many as
      it is told, if and only if no piece overfills the buffer. */
  lemma {:induction false} HandedIff(pending: Option<Unit>, pieces: seq<seq<Unit>>, capacity: nat)
    requires pending.Some? ==> IsHigh(pending.value)
    requires forall i :: 0 <= i < |pieces| ==> |pieces[i]| <= capacity
    ensures
      var (hs, end) := AllHanded(pending, pieces, capacity);
      var whole := Parsed(Held(pending) + Flat(pieces));
      && end == whole.pending
      && |Points(hs)| <= |whole.points| <= |Points(hs)| + |pieces|
      && (Points(hs) == whole.points <==> !Overfull(pending, pieces, capacity))
      && ((forall i :: 0 <= i < |hs| ==> hs[i].length == |hs[i].points|) <==> !Overfull(pending, pieces, capacity))
    decreases |pieces|
  {
    hide Parsed, Held, Unpaired;
    ChunkingInvisible(pending, pieces);
    if pieces == [] {
      assert Flat(pieces) == [];
    } else {
      var p := Parsed(Held(pending) + pieces[0]);
      HandedIff(p.pending, pieces[1..], capacity);
      ChunkingInvisible(p.pending, pieces[1..]);
      LostIff(pending, pieces[0], capacity);
      var rest := AllHanded(p.pending, pieces[1..], capacity).0;
      PieceHanded(p, rest, capacity);
      SameFront(p.points, Points(rest), Parsed(Held(p.pending) + Flat(pieces[1..])).points);
      assert Fed(pending, pieces) == Joined(p.points, Fed(p.pending, pieces[1..]));
    }
  }

  lemma SameFront(a: seq<CodePoint>, x: seq<CodePoint>, y: seq<CodePoint>)
    ensures a + x == a + y <==> x == y
  {
    assert (a + x)[|a|..] == x && (a + y)[|a|..] == y;
  }

  lemma PieceHanded(p: Parse, rest: seq<Handed>, capacity: nat)
    requires |p.points| <= capacity + 1
    ensures
      var h := HandedOver(p, capacity);
      && Points([h] + rest) == h.points + Points(rest)
      && |p.points| - 1 <= |h.points| <= |p.points|
      && (|p.points| <= capacity ==> h.points == p.points)
      && (|h.points| == h.length <==> |p.points| <= capacity)
      && ((forall i :: 0 <= i <= |rest| ==> ([h] + rest)[i].length == |([h] + rest)[i].points|) <==>
          |h.points| == h.length && forall i :: 0 <= i < |rest| ==> rest[i].length == |rest[i].points|)
  {
    var h := HandedOver(p, capacity);
    var all := [h] + rest;
    assert all[1..] == rest;
    assert forall i :: 0 <= i < |rest| ==> rest[i] == all[i + 1];
  }

  lemma OverlayFront(was: seq<CodePoint>, points: seq<CodePoint>)
    ensures
      var k := Min(|points|, |was|);
      Overlay(was, points)[..k] == points[..k]
  {
  }

  class InputHandler {
    var parseBuffer: array<CodePoint>
    const stringDecoder: StringToUtf32
    var handed: seq<Handed>  // the calls of the parser so far

    ghost predicate Valid()
      reads this, stringDecoder
    {
      stringDecoder.Valid() && FIRST_LENGTH <= parseBuffer.Length <= MAX_PARSEBUFFER_LENGTH
    }

    constructor ()
      ensures Valid() && fresh(parseBuffer) && fresh(stringDecoder)
      ensures handed == [] && stringDecoder.Pending() == None && parseBuffer.Length == FIRST_LENGTH
    {
      parseBuffer := new CodePoint[FIRST_LENGTH];
      stringDecoder := new StringToUtf32();
      handed := [];
    }

    /** Grows the buffer to the length of the string, up to its maximum, and decodes the string piece by piece. */
    method Parse(data: seq<Unit>)
      requires Valid()
      modifies this, parseBuffer, stringDecoder
      ensures Valid() && (parseBuffer == old(parseBuffer) || fresh(parseBuffer))
      ensures parseBuffer.Length ==
        if old(parseBuffer.Length) < Min(|data|, MAX_PARSEBUFFER_LENGTH) then Min(|data|, MAX_PARSEBUFFER_LENGTH)
        else old(parseBuffer.Length)
      ensures
        var (hs, end) := AllHanded(old(stringDecoder.Pending()), Pieces(data), parseBuffer.Length);
        handed == old(handed) + hs && stringDecoder.Pending() == end
      ensures
        var pending := old(stringDecoder.Pending());
        (Points(handed[|old(handed)|..]) == Parsed(Held(pending) + data).points) <==>
        !Overfull(pending, Pieces(data), parseBuffer.Length)
    {
      hide Parsed, Held, AllHanded, Pieces, Prefixed, Flat, Overfull, Points;
      if parseBuffer.Length < |data| && parseBuffer.Length < MAX_PARSEBUFFER_LENGTH {
        parseBuffer := new CodePoint[Min(|data|, MAX_PARSEBUFFER_LENGTH)];
      }
      HandedIff(stringDecoder.Pending(), Pieces(data), parseBuffer.Length);
      if |data| > MAX_PARSEBUFFER_LENGTH {
        ghost var pending, capacity, before := stringDecoder.Pending(), parseBuffer.Length, handed;
        ghost var hs := [];
        var i := 0;
        assert data[0..] == data;
        PrefixedByNothing(AllHanded(pending, Pieces(data), capacity));
        while i < |data|
          invariant 0 <= i <= |data| && Valid() && handed == before + hs
          invariant AllHanded(pending, Pieces(data), capacity) ==
            Prefixed(hs, AllHanded(stringDecoder.Pending(), PiecesFrom(data, i), capacity))
          modifies `handed, parseBuffer, stringDecoder
        {
          var end := if i + MAX_PARSEBUFFER_LENGTH < |data| then i + MAX_PARSEBUFFER_LENGTH else |data|;
          NextPiece(data, i, end);
          ghost var p := Parsed(Held(stringDecoder.Pending()) + data[i..end]);
          NextHanded(hs, stringDecoder.Pending(), data[i..end], PiecesFrom(data, end), capacity);
          ParsePiece(data[i..end]);
          hs := hs + [HandedOver(p, capacity)];
          i := end;
        }
        NothingHanded(hs, stringDecoder.Pending(), capacity);
      } else {
        OnePiece(stringDecoder.Pending(), data, parseBuffer.Length);
        ParsePiece(data);
      }
    }

    method ParsePiece(piece: seq<Unit>)
      requires Valid()
      modifies `handed, parseBuffer, stringDecoder
      ensures Valid()
      ensures
        var p := Parsed(Held(old(stringDecoder.Pending())) + piece);
        stringDecoder.Pending() == p.pending && handed == old(handed) + [HandedOver(p, parseBuffer.Length)]
    {
      ghost var was := parseBuffer[..];
      ghost var p := Parsed(Held(stringDecoder.Pending()) + piece);
      var length := stringDecoder.Decode(piece, parseBuffer);
      OverlayFront(was, p.points);
      handed := handed + [Handed(parseBuffer[..Min(length, parseBuffer.Length)], length)];
    }
  }

  function PiecesFrom(data: seq<Unit>, i: nat): seq<seq<Unit>>
    requires i <= |data|
  {
    if i < |data| then Pieces(data[i..]) else []
  }

  function Prefixed(hs: seq<Handed>, rest: (seq<Handed>, Option<Unit>)): (seq<Handed>, Option<Unit>) {
    (hs + rest.0, rest.1)
  }

  lemma NextHanded(hs: seq<Handed>, pending: Option<Unit>, piece: seq<Unit>, rest: seq<seq<Unit>>, capacity: nat)
    ensures
      var p := Parsed(Held(pending) + piece);
      Prefixed(hs, AllHanded(pending, [piece] + rest, capacity)) ==
        Prefixed(hs + [HandedOver(p, capacity)], AllHanded(p.pending, rest, capacity))
  {
    assert ([piece] + rest)[1..] == rest;
    var p := Parsed(Held(pending) + piece);
    var r := AllHanded(p.pending, rest, capacity).0;
    assert hs + ([HandedOver(p, capacity)] + r) == (hs + [HandedOver(p, capacity)]) + r;
  }

  lemma PrefixedByNothing(rest: (seq<Handed>, Option<Unit>))
    ensures Prefixed([], rest) == rest
  {
    assert [] + rest.0 == rest.0;
  }

  lemma NothingHanded(hs: seq<Handed>, pending: Option<Unit>, capacity: nat)
    ensures Prefixed(hs, AllHanded(pending, [], capacity)) == (hs, pending)
  {
    assert hs + [] == hs;
  }

  lemma OnePiece(pending: Option<Unit>, data: seq<Unit>, capacity: nat)
    requires |data| <= MAX_PARSEBUFFER_LENGTH
    ensures
      var p := Parsed(Held(pending) + data);
      AllHanded(pending, Pieces(data), capacity) == ([HandedOver(p, capacity)], p.pending)
  {
    hide Parsed, Held;
    NextHanded([], pending, data, [], capacity);
    PrefixedByNothing(AllHanded(pending, [data], capacity));
    assert [data] + [] == [data];
    var h := HandedOver(Parsed(Held(pending) + data), capacity);
    assert [] + [h] + [] == [h];
  }

  lemma NextPiece(data: seq<Unit>, i: nat, end: nat)
    requires i < |data| && end == Min(i + MAX_PARSEBUFFER_LENGTH, |data|)
    ensures PiecesFrom(data, i) == [data[i..end]] + PiecesFrom(data, end)
  {
    if end < |data| {
      assert data[i..][..MAX_PARSEBUFFER_LENGTH] == data[i..end];
      assert data[i..][MAX_PARSEBUFFER_LENGTH..] == data[end..];
    } else {
      assert data[i..] == data[i..end];
    }
  }

  /** The parser gets every code point of a string that follows nothing held back and needs one piece only. */
  lemma ShortStringsKept(data: seq<Unit>, capacity: nat)
    requires |data| <= MAX_PARSEBUFFER_LENGTH && |data| <= capacity
    ensures !Overfull(None, Pieces(data), capacity)
  {
    assert [data][1..] == [];
  }
}
