/** UTF-16 strings to UTF-32 code points and back, chunk by chunk. */
module Utf32 {
  import opened Options

  type Unit = x: int | 0 <= x < 0x1_0000
  type CodePoint = x: int | 0 <= x <= 0x10_FFFF

  predicate IsHigh(x: int) { 0xD800 <= x <= 0xDBFF }

  predicate IsLow(x: int) { 0xDC00 <= x <= 0xDFFF }

  /** Section 2.2 of RFC 2781. */
  function Combine(high: Unit, low: Unit): (c: CodePoint)
    requires IsHigh(high) && IsLow(low)
    ensures c > 0xFFFF
  {
    0x400 * (high - 0xD800) + low - 0xDC00 + 0x1_0000
  }

  /** Section 2.1 of RFC 2781; a code point that is a surrogate stands for itself. */
  function Units(c: CodePoint): seq<Unit> {
    if c > 0xFFFF then [0xD800 + (c - 0x1_0000) / 0x400, (c - 0x1_0000) % 0x400 + 0xDC00] else [c]
  }

  lemma PairInverse(high: Unit, low: Unit)
    requires IsHigh(high) && IsLow(low)
    ensures Units(Combine(high, low)) == [high, low]
  {
  }

  lemma SplitInverse(c: CodePoint)
    requires c > 0xFFFF
    ensures IsHigh(Units(c)[0]) && IsLow(Units(c)[1]) && Combine(Units(c)[0], Units(c)[1]) == c
  {
  }

  /** The pairs in their order are the code points above 0xFFFF in theirs: the first is 0x10000, and the next pair the
      next code point. */
  lemma PairsInOrder(high: Unit, low: Unit)
    requires IsHigh(high) && IsLow(low)
    ensures Combine(0xD800, 0xDC00) == 0x1_0000
    ensures low < 0xDFFF ==> Combine(high, low + 1) == Combine(high, low) + 1
    ensures high < 0xDBFF && low == 0xDFFF ==> Combine(high + 1, 0xDC00) == Combine(high, low) + 1
  {
  }

  function AllUnits(cs: seq<CodePoint>): seq<Unit> {
    if cs == [] then [] else AllUnits(cs[..|cs| - 1]) + Units(cs[|cs| - 1])
  }

  // ----- what decoding a whole string means

  datatype Parse = Parse(points: seq<CodePoint>, pending: Option<Unit>)

  function Held(pending: Option<Unit>): seq<Unit> { if pending.Some? then [pending.value] else [] }

  function Joined(a: seq<CodePoint>, p: Parse): Parse { Parse(a + p.points, p.pending) }

  /** A high surrogate takes the next unit with it, whether that completes a pair or not. */
  function LeadUnits(s: seq<Unit>): (n: nat)
    requires s != []
    ensures 0 < n
  {
    if IsHigh(s[0]) then 2 else 1
  }

  function Lead(s: seq<Unit>): seq<CodePoint>
    requires s != [] && LeadUnits(s) <= |s|
  {
    if !IsHigh(s[0]) then [s[0]]
    else if IsLow(s[1]) then [Combine(s[0], s[1])]
    else [s[0], s[1]]
  }

  function Parsed(s: seq<Unit>): (p: Parse)
    ensures p.pending.Some? ==> IsHigh(p.pending.value)
    decreases |s|
  {
    if s == [] then Parse([], None)
    else if |s| < LeadUnits(s) then Parse([], Some(s[0]))
    else Joined(Lead(s), Parsed(s[LeadUnits(s)..]))
  }

  /** Cutting a string in two changes nothing, if the unit held back goes in front of the second part. */
  lemma {:induction false} ParsedConcat(a: seq<Unit>, b: seq<Unit>)
    ensures Parsed(a + b) == Joined(Parsed(a).points, Parsed(Held(Parsed(a).pending) + b))
    decreases |a|
  {
    hide Combine;
    if a == [] {
      assert a + b == b && Held(None) + b == b;
    } else if |a| < LeadUnits(a) {
      assert a + b == Held(Some(a[0])) + b;
    } else {
      var n := LeadUnits(a);
      ParsedConcat(a[n..], b);
      SameLead(a, b);
      JoinedTwice(Lead(a), Parsed(a[n..]).points, Parsed(Held(Parsed(a[n..]).pending) + b));
    }
  }

  lemma SameLead(a: seq<Unit>, b: seq<Unit>)
    requires a != [] && LeadUnits(a) <= |a|
    ensures LeadUnits(a + b) == LeadUnits(a) && Lead(a + b) == Lead(a)
    ensures (a + b)[LeadUnits(a)..] == a[LeadUnits(a)..] + b
  {
  }

  lemma JoinedTwice(a: seq<CodePoint>, b: seq<CodePoint>, p: Parse)
    ensures Joined(a, Joined(b, p)) == Joined(a + b, p)
  {
  }

  function Flat(chunks: seq<seq<Unit>>): seq<Unit> { if chunks == [] then [] else chunks[0] + Flat(chunks[1..]) }

  /** Decoding the chunks one after another. */
  function Fed(pending: Option<Unit>, chunks: seq<seq<Unit>>): Parse
    decreases |chunks|
  {
    if chunks == [] then Parse([], pending)
    else
      var p := Parsed(Held(pending) + chunks[0]);
      Joined(p.points, Fed(p.pending, chunks[1..]))
  }

  /** Any chunking of a string gives its code points, and holds back the same unit at the end. */
  lemma {:induction false} ChunkingInvisible(pending: Option<Unit>, chunks: seq<seq<Unit>>)
    requires pending.Some? ==> IsHigh(pending.value)
    ensures Fed(pending, chunks) == Parsed(Held(pending) + Flat(chunks))
    decreases |chunks|
  {
    hide Parsed, Held;
    if chunks == [] {
      assert Held(pending) + [] == Held(pending);
      PendingOnly(pending);
    } else {
      var first := Held(pending) + chunks[0];
      ChunkingInvisible(Parsed(first).pending, chunks[1..]);
      ParsedConcat(first, Flat(chunks[1..]));
      assert first + Flat(chunks[1..]) == Held(pending) + Flat(chunks);
    }
  }

  lemma {:induction false} UnitsConcat(a: seq<CodePoint>, b: seq<CodePoint>)
    ensures AllUnits(a + b) == AllUnits(a) + AllUnits(b)
    decreases |b|
  {
    if b == [] {
      assert a + b == a;
    } else {
      assert (a + b)[..|a + b| - 1] == a + b[..|b| - 1];
      UnitsConcat(a, b[..|b| - 1]);
    }
  }

  lemma FewUnits(a: CodePoint, b: CodePoint)
    ensures AllUnits([]) == [] && AllUnits([a]) == Units(a) && AllUnits([a, b]) == Units(a) + Units(b)
  {
    assert [a, b] == [a] + [b] && [a] == [] + [a];
    UnitsConcat([a], [b]);
    assert [a][..0] == [] && [b][..0] == [];
  }

  /** The code points, encoded again, and the unit held back are the string, lone surrogates and all. */
  lemma {:induction false} StringKept(s: seq<Unit>)
    ensures AllUnits(Parsed(s).points) + Held(Parsed(s).pending) == s
    decreases |s|
  {
    hide Lead, Combine, Units, AllUnits;
    FewUnits(0, 0);
    if s != [] && |s| >= LeadUnits(s) {
      var n := LeadUnits(s);
      StringKept(s[n..]);
      UnitsConcat(Lead(s), Parsed(s[n..]).points);
      LeadKept(s);
      assert s == s[..n] + s[n..];
    }
  }

  lemma LeadKept(s: seq<Unit>)
    requires s != [] && LeadUnits(s) <= |s|
    ensures AllUnits(Lead(s)) == s[..LeadUnits(s)]
  {
    if !IsHigh(s[0]) {
      FewUnits(s[0], s[0]);
    } else if IsLow(s[1]) {
      PairInverse(s[0], s[1]);
      FewUnits(Combine(s[0], s[1]), s[0]);
    } else {
      FewUnits(s[0], s[1]);
    }
  }

  /** No high surrogate is last, or stands before something that would be read differently behind it. */
  predicate Stable(cs: seq<CodePoint>) {
    if cs == [] then true
    else if IsHigh(cs[0]) then |cs| > 1 && !IsLow(cs[1]) && cs[1] <= 0xFFFF && Stable(cs[2..])
    else Stable(cs[1..])
  }

  lemma FirstUnits(cs: seq<CodePoint>, k: nat)
    requires k <= |cs|
    ensures AllUnits(cs) == AllUnits(cs[..k]) + AllUnits(cs[k..])
  {
    assert cs == cs[..k] + cs[k..];
    UnitsConcat(cs[..k], cs[k..]);
  }

  lemma ParsedAfter(lead: seq<Unit>, rest: seq<Unit>)
    requires lead != [] && |lead| == LeadUnits(lead)
    ensures Parsed(lead + rest) == Joined(Lead(lead), Parsed(rest))
  {
    SameLead(lead, rest);
    assert lead[|lead|..] + rest == rest;
  }

  /** Code points survive the way through a string exactly when no surrogate among them pairs up on the way. */
  lemma {:induction false} PointsKept(cs: seq<CodePoint>)
    ensures Parsed(AllUnits(cs)) == Parse(cs, None) <==> Stable(cs)
    decreases |cs|
  {
    if cs == [] {
      PendingOnly(None);
      FewUnits(0, 0);
    } else if IsHigh(cs[0]) && |cs| > 1 {
      HighFirst(cs);
    } else {
      hide Parsed, AllUnits, Combine;
      var c, rest := cs[0], cs[1..];
      FirstUnits(cs, 1);
      assert cs[..1] == [c] && cs == [c] + rest;
      FewUnits(c, c);
      if IsHigh(c) {
        PendingOnly(Some(c));
        FewUnits(0, 0);
        assert AllUnits(cs) == Held(Some(c));
      } else {
        PointsKept(rest);
        LeadOfUnits(c);
        ParsedAfter(Units(c), AllUnits(rest));
      }
    }
  }

  lemma LeadOfUnits(c: CodePoint)
    requires !IsHigh(c)
    ensures |Units(c)| == LeadUnits(Units(c)) && Lead(Units(c)) == [c]
  {
    if c > 0xFFFF {
      SplitInverse(c);
    }
  }

  /** A high surrogate takes the first half of the pair behind it. */
  lemma PairBroken(c: CodePoint, d: CodePoint, rest: seq<Unit>)
    requires IsHigh(c) && d > 0xFFFF
    ensures
      var p := Parsed([c] + Units(d) + rest);
      |p.points| > 1 && p.points[1] <= 0xFFFF
  {
    var u := Units(d);
    SplitInverse(d);
    assert [c] + u + rest == [c, u[0]] + ([u[1]] + rest);
    ParsedAfter([c, u[0]], [u[1]] + rest);
  }

  lemma {:induction false} HighFirst(cs: seq<CodePoint>)
    requires |cs| > 1 && IsHigh(cs[0])
    ensures Parsed(AllUnits(cs)) == Parse(cs, None) <==> Stable(cs)
    decreases |cs|, 0
  {
    hide Parsed, AllUnits, Combine;
    var c, d, rest := cs[0], cs[1], cs[2..];
    FirstUnits(cs, 2);
    assert cs[..2] == [c, d] && cs == [c, d] + rest;
    FewUnits(c, d);
    if d > 0xFFFF {
      PairBroken(c, d, AllUnits(rest));
    } else {
      assert Units(c) + Units(d) == [c, d];
      ParsedAfter([c, d], AllUnits(rest));
      PointsKept(rest);
      var p := Parsed(AllUnits(cs));
      if IsLow(d) {
        assert p.points[0] == Combine(c, d) != cs[0];
      } else {
        assert p.points == [c, d] + Parsed(AllUnits(rest)).points;
        assert p.points == cs <==> Parsed(AllUnits(rest)).points == rest;
      }
    }
  }

  // ----- the decoder and the encoder

  /** The next step of decoding, at unit i. */
  lemma ParsedNext(input: seq<Unit>, i: nat)
    requires i < |input|
    ensures !IsHigh(input[i]) ==> Parsed(input[i..]) == Joined([input[i]], Parsed(input[i + 1..]))
    ensures IsHigh(input[i]) && i + 1 == |input| ==> Parsed(input[i..]) == Parse([], Some(input[i]))
    ensures IsHigh(input[i]) && i + 1 < |input| ==>
      var points := if IsLow(input[i + 1]) then [Combine(input[i], input[i + 1])] else [input[i], input[i + 1]];
      Parsed(input[i..]) == Joined(points, Parsed(input[i + 2..]))
  {
    var s := input[i..];
    if |s| >= LeadUnits(s) {
      assert s[LeadUnits(s)..] == input[i + LeadUnits(s)..];
    }
  }

  /** Appends the code points of a string to a result, one code point after another. */
  method Utf32ToString(data: array<CodePoint>, start: nat, end: nat) returns (result: seq<Unit>)
    requires start <= end <= data.Length
    ensures result == AllUnits(data[start..end])
  {
    result := [];
    for i := start to end
      invariant result == AllUnits(data[start..i])
    {
      assert data[start..i + 1][..i - start] == data[start..i];
      var c: int := data[i];
      if c > 0xFFFF {
        c := c - 0x1_0000;
        result := result + [0xD800 + c / 0x400] + [c % 0x400 + 0xDC00];
      } else {
        result := result + [c];
      }
    }
  }

  // ----- a typed array ignores what is written behind its end

  /** What an array holds after the points were written to it from its start on. */
  function Overlay(was: seq<CodePoint>, points: seq<CodePoint>): (r: seq<CodePoint>)
    ensures |r| == |was| && forall i :: 0 <= i < |r| ==> r[i] == if i < |points| then points[i] else was[i]
  {
    if |points| <= |was| then points + was[|points|..] else points[..|was|]
  }

  lemma OverlayNothing(was: seq<CodePoint>)
    ensures Overlay(was, []) == was
  {
  }

  lemma OverlayNext(was: seq<CodePoint>, points: seq<CodePoint>, c: CodePoint)
    ensures
      Overlay(was, points + [c]) ==
        if |points| < |was| then Overlay(was, points)[|points| := c] else Overlay(was, points)
  {
  }

  /** target[n] = c, which has no effect when the array is full. */
  method Put(target: array<CodePoint>, n: nat, c: CodePoint, ghost was: seq<CodePoint>, ghost points: seq<CodePoint>)
    returns (next: nat)
    requires n == |points| && target[..] == Overlay(was, points)
    modifies target
    ensures next == n + 1 && target[..] == Overlay(was, points + [c])
  {
    OverlayNext(was, points, c);
    if n < target.Length {
      target[n] := c;
    }
    next := n + 1;
  }

  class StringToUtf32 {
    var interim: Unit  // a high surrogate held back, or 0

    ghost predicate Valid() reads this { interim == 0 || IsHigh(interim) }

    ghost function Pending(): (r: Option<Unit>)
      reads this
    {
      if interim == 0 then None else Some(interim)
    }

    constructor ()
      ensures Valid() && Pending() == None
    {
      interim := 0;
    }

    method Clear()
      modifies this
      ensures Valid() && Pending() == None
    {
      interim := 0;
    }

    /** The code points go to the target from its start on; those that do not fit are counted but lost. */
    method Decode(input: seq<Unit>, target: array<CodePoint>) returns (size: nat)
      requires Valid()
      modifies this, target
      ensures Valid()
      ensures
        var p := Parsed(Held(old(Pending())) + input);
        Pending() == p.pending && size == |p.points| && target[..] == Overlay(old(target[..]), p.points)
    {
      hide Parsed, Combine, Overlay, IsLow;
      ghost var whole, was := Held(Pending()) + input, target[..];
      OverlayNothing(was);
      PendingOnly(Pending());
      if |input| == 0 {
        assert whole == Held(Pending());
        return 0;
      }
      if interim == 0 {
        assert input[0..] == whole;
        ghost var points;
        size, points := DecodeRest(input, 0, target, 0, was, []);
        assert [] + points == points;
        return;
      }
      ParsedNext(whole, 0);
      assert whole[0..] == whole && whole[2..] == input[1..];
      var second := input[0];
      ghost var first := [];
      if IsLow(second) {
        size := Put(target, 0, Combine(interim, second), was, []);
        first := [Combine(interim, second)];
        assert [] + first == first;
      } else {
        size := Put(target, 0, interim, was, []);
        assert [] + [interim] == [interim];
        size := Put(target, 1, second, was, [interim]);
        first := [interim, second];
        assert [interim] + [second] == first;
      }
      interim := 0;
      ghost var rest;
      size, rest := DecodeRest(input, 1, target, size, was, first);
    }

    /** Decodes the units from `start` on, with nothing held back, behind the code points written so far. */
    method DecodeRest(input: seq<Unit>, start: nat, target: array<CodePoint>, size: nat,
                      ghost was: seq<CodePoint>, ghost before: seq<CodePoint>)
      returns (n: nat, ghost rest: seq<CodePoint>)
      requires interim == 0 && start <= |input| && size == |before| && target[..] == Overlay(was, before)
      modifies this, target
      ensures Valid() && Parse(rest, Pending()) == Parsed(input[start..])
      ensures n == size + |rest| && target[..] == Overlay(was, before + rest)
    {
      hide Parsed, Combine, Overlay, IsLow;
      n, rest := size, [];
      ghost var whole := Parsed(input[start..]);
      var i := start;
      assert before + rest == before;
      while i < |input|
        invariant start <= i <= |input| && interim == 0
        invariant whole == Joined(rest, Parsed(input[i..]))
        invariant n == |before + rest| && target[..] == Overlay(was, before + rest)
      {
        ParsedNext(input, i);
        var unit := input[i];
        if IsHigh(unit) {
          i := i + 1;
          if i >= |input| {
            interim := unit;
            return;
          }
          var second := input[i];
          if IsLow(second) {
            n := PutNext(target, n, Combine(unit, second), was, before, rest);
            rest := rest + [Combine(unit, second)];
          } else {
            n := PutNext(target, n, unit, was, before, rest);
            n := PutNext(target, n, second, was, before, rest + [unit]);
            assert rest + [unit] + [second] == rest + [unit, second];
            rest := rest + [unit, second];
          }
        } else {
          n := PutNext(target, n, unit, was, before, rest);
          rest := rest + [unit];
        }
        i := i + 1;
      }
      assert input[i..] == [];
      PendingOnly(None);
    }
  }

  /** The next of several code points. */
  method PutNext(target: array<CodePoint>, n: nat, c: CodePoint,
                 ghost was: seq<CodePoint>, ghost before: seq<CodePoint>, ghost rest: seq<CodePoint>)
    returns (next: nat)
    requires n == |before + rest| && target[..] == Overlay(was, before + rest)
    modifies target
    ensures next == n + 1 && target[..] == Overlay(was, before + (rest + [c]))
  {
    next := Put(target, n, c, was, before + rest);
    assert before + (rest + [c]) == before + rest + [c];
  }

  lemma PendingOnly(p: Option<Unit>)
    requires p.Some? ==> IsHigh(p.value)
    ensures Parsed(Held(p)) == Parse([], p) && Parsed([]) == Parse([], None)
  {
  }

  // ----- when code points are lost

  /** No surrogate pair, and no high surrogate at the end. */
  predicate Unpaired(s: seq<Unit>)
    decreases |s|
  {
    if s == [] then true
    else if IsHigh(s[0]) then |s| > 1 && !IsLow(s[1]) && Unpaired(s[2..])
    else Unpaired(s[1..])
  }

  /** A string has as many code points as units exactly when it has no pair and holds nothing back. */
  lemma {:induction false} PointCount(s: seq<Unit>)
    ensures |Parsed(s).points| <= |s|
    ensures |Parsed(s).points| == |s| <==> Unpaired(s)
    decreases |s|
  {
    hide Combine;
    if s != [] && |s| >= LeadUnits(s) {
      PointCount(s[LeadUnits(s)..]);
    }
  }

  /** Decoding a chunk into an array of at least its length loses a code point if and only if a unit is held back from
      before, the chunk fills the array, and no pair in it makes up for that unit; and it is one code point. */
  lemma LostIff(pending: Option<Unit>, input: seq<Unit>, capacity: nat)
    requires |input| <= capacity
    ensures
      var whole := Held(pending) + input;
      && |Parsed(whole).points| <= capacity + 1
      && (|Parsed(whole).points| > capacity <==> pending.Some? && |input| == capacity && Unpaired(whole))
  {
    PointCount(Held(pending) + input);
  }

  /** A high surrogate, then a chunk of n times the letter a in an array of n places: the last letter is lost. */
  lemma {:induction false} LastPointLost(n: nat, was: seq<CodePoint>)
    requires n > 0 && |was| == n
    ensures
      var letters: seq<Unit> := seq(n, i => 97);
      var points := Parsed(Held(Some(0xD800)) + letters).points;
      points == [0xD800] + letters && Overlay(was, points) == [0xD800] + letters[..n - 1]
  {
    var letters: seq<Unit> := seq(n, i => 97);
    var whole := Held(Some(0xD800)) + letters;
    Letters(n - 1);
    assert whole[2..] == seq(n - 1, i => 97);
    assert [whole[0], whole[1]] + seq(n - 1, i => 97) == whole;
  }

  lemma {:induction false} Letters(n: nat)
    ensures Parsed(seq(n, i => 97)) == Parse(seq(n, i => 97), None)
  {
    if n > 0 {
      var s: seq<Unit> := seq(n, i => 97);
      assert s[1..] == seq(n - 1, i => 97) && s == [s[0]] + s[1..];
      Letters(n - 1);
    }
  }
}
