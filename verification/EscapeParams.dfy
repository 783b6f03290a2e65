/** What the bytes of a control sequence mean: numbers, lists of them, and identifiers. */
module EscapeParams {
  import opened EscapeTable
  import opened EscapeParsing
  import opened EscapeGrammar

  // ----- numbers

  predicate Digits(ds: seq<nat>) { Between(ds, 48, 58) }

  /** The number that decimal digits spell. */
  function Number(ds: seq<nat>): nat
    requires Digits(ds)
  {
    if ds == [] then 0 else 10 * Number(ds[..|ds| - 1]) + (ds[|ds| - 1] - 48)
  }

  /** Digits that follow a separator: the new number of the list, -1 for no digits if it is a sub-parameter. */
  function ValueOf(ds: seq<nat>, isSub: bool): int
    requires Digits(ds)
  {
    if ds == [] && isSub then -1 else if Number(ds) < 0x7FFF_FFFF then Number(ds) else 0x7FFF_FFFF
  }

  predicate DigitsTaken(p: Params) {
    !p.rejectDigits && if p.digitIsSub then !p.rejectSubDigits && p.subParams != [] else p.params != []
  }

  function WithLast(s: seq<int>, v: int): seq<int>
    requires s != []
  {
    s[|s| - 1 := v]
  }

  /** Digits complete the last number, which a separator has just begun, and change nothing else. */
  lemma {:induction false} DigitsSpell(p: Params, ds: seq<nat>)
    requires Digits(ds) && DigitsTaken(p)
    requires if p.digitIsSub then p.subParams[|p.subParams| - 1] == -1 else p.params[|p.params| - 1] == 0
    ensures ParamsFrom(p, ds) ==
      if p.digitIsSub then p.(subParams := WithLast(p.subParams, ValueOf(ds, true)))
      else p.(params := WithLast(p.params, ValueOf(ds, false)))
  {
    if ds == [] {
      assert p.params != [] && !p.digitIsSub ==> WithLast(p.params, 0) == p.params;
      assert p.subParams != [] && p.digitIsSub ==> WithLast(p.subParams, -1) == p.subParams;
    } else {
      DigitsSpell(p, ds[..|ds| - 1]);
      var q := ParamsFrom(p, ds[..|ds| - 1]);
      assert q.digitIsSub == p.digitIsSub;
    }
  }

  // ----- lists

  /** A parameter and the sub-parameters behind it, each as its digits. */
  datatype Item = Item(digits: seq<nat>, subs: seq<seq<nat>>)

  predicate Spelled(item: Item) { Digits(item.digits) && forall i :: 0 <= i < |item.subs| ==> Digits(item.subs[i]) }

  function SubBytes(subs: seq<seq<nat>>): seq<nat> {
    if subs == [] then [] else SubBytes(subs[..|subs| - 1]) + [58] + subs[|subs| - 1]
  }

  function ItemBytes(item: Item): seq<nat> { item.digits + SubBytes(item.subs) }

  /** The parameters separated by semicolons. */
  function ListBytes(items: seq<Item>): seq<nat>
    requires items != []
  {
    if |items| == 1 then ItemBytes(items[0])
    else ListBytes(items[..|items| - 1]) + [59] + ItemBytes(items[|items| - 1])
  }

  function SubValues(subs: seq<seq<nat>>): seq<int>
    requires forall i :: 0 <= i < |subs| ==> Digits(subs[i])
  {
    seq(|subs|, i requires 0 <= i < |subs| => ValueOf(subs[i], true))
  }

  /** One parameter more: its value, those of its sub-parameters behind those of the others, and where these begin and
      end. */
  function Plus(p: Params, item: Item): Params
    requires Spelled(item)
  {
    var n := |p.subParams|;
    Params(p.params + [ValueOf(item.digits, false)], p.subParams + SubValues(item.subs),
           p.subIdx + [(n, n + |item.subs|)], false, false, item.subs != [])
  }

  ghost predicate AllSpelled(items: seq<Item>) { forall i :: 0 <= i < |items| ==> Spelled(items[i]) }

  ghost function Meaning(items: seq<Item>): (p: Params)
    requires AllSpelled(items)
    ensures |p.params| == |p.subIdx| == |items| && !p.rejectDigits && !p.rejectSubDigits
  {
    if items == [] then Params([], [], [], false, false, false)
    else Plus(Meaning(items[..|items| - 1]), items[|items| - 1])
  }

  function Extended(idx: seq<(nat, nat)>, n: nat): seq<(nat, nat)>
    requires idx != []
  {
    var k := |idx| - 1;
    idx[k := (idx[k].0, idx[k].1 + n)]
  }

  predicate SubsTaken(p: Params, n: nat) {
    p.params != [] && p.subIdx != [] && !p.rejectDigits && !p.rejectSubDigits && |p.subParams| + n <= MAX_PARAMS
  }

  lemma SubSpells(p: Params, ds: seq<nat>)
    requires Digits(ds) && SubsTaken(p, 1)
    ensures ParamsFrom(p, [58] + ds) ==
      p.(digitIsSub := true, subParams := p.subParams + [ValueOf(ds, true)], subIdx := Extended(p.subIdx, 1))
  {
    hide ValueOf, ParamsFrom;
    ParamsConcat(p, [58], ds);
    OneParam(p, 58);
    var q := ParamStep(p, 58);
    DigitsSpell(q, ds);
    assert WithLast(p.subParams + [-1], ValueOf(ds, true)) == p.subParams + [ValueOf(ds, true)];
  }

  /** Sub-parameters behind a parameter are appended, one by one. */
  lemma {:induction false} SubsSpell(p: Params, subs: seq<seq<nat>>)
    requires (forall i :: 0 <= i < |subs| ==> Digits(subs[i])) && SubsTaken(p, |subs|)
    ensures ParamsFrom(p, SubBytes(subs)) ==
      if subs == [] then p
      else p.(digitIsSub := true, subParams := p.subParams + SubValues(subs), subIdx := Extended(p.subIdx, |subs|))
  {
    hide ValueOf, ParamStep;
    if subs != [] {
      var front, last := subs[..|subs| - 1], subs[|subs| - 1];
      SubsSpell(p, front);
      hide ParamsFrom;
      var q := ParamsFrom(p, SubBytes(front));
      assert SubBytes(subs) == SubBytes(front) + ([58] + last);
      ParamsConcat(p, SubBytes(front), [58] + last);
      SubSpells(q, last);
      assert p.subParams + SubValues(subs) == (p.subParams + SubValues(front)) + [ValueOf(last, true)];
    }
  }

  /** A parameter whose number has just begun with 0. */
  lemma ItemSpells(p: Params, item: Item)
    requires Spelled(item) && |p.subParams| + |item.subs| <= MAX_PARAMS && |p.params| == |p.subIdx|
    ensures
      var n := |p.subParams|;
      ParamsFrom(Params(p.params + [0], p.subParams, p.subIdx + [(n, n)], false, false, false), ItemBytes(item))
      == Plus(p, item)
  {
    hide ValueOf, ParamsFrom, SubBytes;
    var n := |p.subParams|;
    var q := Params(p.params + [0], p.subParams, p.subIdx + [(n, n)], false, false, false);
    ParamsConcat(q, item.digits, SubBytes(item.subs));
    DigitsSpell(q, item.digits);
    assert WithLast(q.params, ValueOf(item.digits, false)) == p.params + [ValueOf(item.digits, false)];
    SubsSpell(q.(params := p.params + [ValueOf(item.digits, false)]), item.subs);
    assert p.subParams + SubValues([]) == p.subParams;
  }

  lemma NextItem(p: Params, item: Item)
    requires Spelled(item) && |p.subParams| + |item.subs| <= MAX_PARAMS && |p.params| == |p.subIdx| < MAX_PARAMS
    requires !p.rejectDigits && !p.rejectSubDigits
    ensures ParamsFrom(p, [59] + ItemBytes(item)) == Plus(p, item)
  {
    hide ParamsFrom, Plus, ItemBytes;
    ParamsConcat(p, [59], ItemBytes(item));
    OneParam(p, 59);
    ItemSpells(p, item);
  }

  /** Up to 32 parameters with up to 32 sub-parameters in all mean what they spell. */
  lemma {:induction false} ListMeans(items: seq<Item>)
    requires items != [] && AllSpelled(items)
    requires |items| <= 32 && |Meaning(items).subParams| <= 32
    ensures ParamsFrom(ZERO_PARAMS, ListBytes(items)) == Meaning(items)
  {
    hide ParamsFrom, ItemBytes;
    var front, item := items[..|items| - 1], items[|items| - 1];
    if front == [] {
      assert items == [item];
      var none := Meaning([]);
      assert none.params + [0] == [0] && none.subIdx + [(0, 0)] == [(0, 0)];
      ItemSpells(none, item);
    } else {
      ListMeans(front);
      assert ListBytes(items) == ListBytes(front) + ([59] + ItemBytes(item));
      ParamsConcat(ZERO_PARAMS, ListBytes(front), [59] + ItemBytes(item));
      NextItem(Meaning(front), item);
    }
  }

  /** A parameter beyond the 32nd is dropped with all its digits. */
  lemma {:induction false} ParamsFull(p: Params, ds: seq<nat>)
    requires |p.params| >= MAX_PARAMS && Digits(ds)
    ensures ParamsFrom(p, [59] + ds) == p.(digitIsSub := false, rejectDigits := true)
  {
    if ds == [] {
      OneParam(p, 59);
      assert [59] + ds == [59];
    } else {
      ParamsFull(p, ds[..|ds| - 1]);
      assert ([59] + ds)[..|ds|] == [59] + ds[..|ds| - 1];
    }
  }

  /** A sub-parameter beyond the 32nd likewise. */
  lemma {:induction false} SubsFull(p: Params, ds: seq<nat>)
    requires |p.subParams| >= MAX_PARAMS && p.params != [] && p.subIdx != [] && Digits(ds)
    ensures ParamsFrom(p, [58] + ds) == p.(digitIsSub := true, rejectSubDigits := true)
  {
    if ds == [] {
      OneParam(p, 58);
      assert [58] + ds == [58];
    } else {
      SubsFull(p, ds[..|ds| - 1]);
      assert ([58] + ds)[..|ds|] == [58] + ds[..|ds| - 1];
    }
  }

  // ----- identifiers

  /** Bytes as the digits of a number to the base 256. */
  function Base256(bytes: seq<nat>): nat {
    if bytes == [] then 0 else 0x100 * Base256(bytes[..|bytes| - 1]) + bytes[|bytes| - 1]
  }

  /** Up to four bytes are collected as they are: the number fits into 31 bits. */
  lemma {:induction false} CollectedIs(bytes: seq<nat>)
    requires |bytes| <= 4 && Between(bytes, 0, 128)
    ensures CollectedFrom(0, bytes) == Base256(bytes)
    ensures Base256(bytes) < if |bytes| == 0 then 1 else if |bytes| == 1 then 0x80 else if |bytes| == 2 then 0x8000
                             else if |bytes| == 3 then 0x80_0000 else 0x8000_0000
  {
    if bytes != [] {
      CollectedIs(bytes[..|bytes| - 1]);
    }
  }

  /** Of more bytes the last four are left, as a signed number. */
  lemma {:induction false} CollectedWraps(bytes: seq<nat>)
    requires Between(bytes, 0, 128)
    ensures
      CollectedFrom(0, bytes) == Signed(Base256(bytes) % 0x1_0000_0000)
  {
    if bytes != [] {
      CollectedWraps(bytes[..|bytes| - 1]);
      ShiftWraps(Base256(bytes[..|bytes| - 1]), bytes[|bytes| - 1]);
    }
  }

  function Signed(w: int): int { if w < 0x8000_0000 then w else w - 0x1_0000_0000 }

  lemma Remainder(a: int, m: nat, q: int, r: nat)
    requires a == m * q + r && r < m
    ensures a % m == r
  {
    assert m * (a / m - q) == r - a % m;
    Multiple(m, a / m - q);
  }

  lemma Multiple(m: nat, d: int)
    ensures d >= 1 ==> m * d >= m
    ensures d <= -1 ==> m * d + m <= 0
  {
  }

  lemma ShiftWraps(v: nat, c: nat)
    requires c < 128
    ensures Shift8Or(Signed(v % 0x1_0000_0000), c) == Signed((0x100 * v + c) % 0x1_0000_0000)
  {
    var q, w := v / 0x1_0000_0000, v % 0x1_0000_0000;
    var s, u := w / 0x100_0000, w % 0x100_0000;
    assert v == 0x1_0000_0000 * q + w && w == 0x100_0000 * s + u;
    Remainder(0x100 * v + c, 0x1_0000_0000, 0x100 * q + s, 0x100 * u + c);
    var a := Signed(w);
    var k := if a == w then s else s - 0x100;
    assert 0x100 * a == 0x1_0000_0000 * k + 0x100 * u;
    Remainder(0x100 * a, 0x1_0000_0000, k, 0x100 * u);
    assert a * 0x100 == 0x100 * a;
  }

  /** So what is reported tells all of them: prefix, intermediate bytes and final byte. */
  lemma {:induction false} CollectedApart(x: seq<nat>, y: seq<nat>)
    requires |x| <= 4 && |y| <= 4 && Between(x, 1, 128) && Between(y, 1, 128)
    requires CollectedFrom(0, x) == CollectedFrom(0, y)
    ensures x == y
  {
    CollectedIs(x);
    CollectedIs(y);
    SameDigits(x, y);
  }

  lemma {:induction false} SameDigits(x: seq<nat>, y: seq<nat>)
    requires Between(x, 1, 128) && Between(y, 1, 128) && Base256(x) == Base256(y)
    ensures x == y
    decreases |x|
  {
    if x != [] && y != [] {
      SameDigits(x[..|x| - 1], y[..|y| - 1]);
      assert x == x[..|x| - 1] + [x[|x| - 1]] && y == y[..|y| - 1] + [y[|y| - 1]];
    }
  }

  // ----- a sequence as a whole

  lemma ThirtyOne()
    ensures ParamsFrom(ZERO_PARAMS, [51, 49]) == Params([31], [], [(0, 0)], false, false, false)
  {
    var item := Item([51, 49], []);
    assert [51, 49][..1] == [51] && [51][..0] == [] && Number([51, 49]) == 31;
    ListMeans([item]);
    assert ListBytes([item]) == [51, 49];
    assert [item][..0] == [] && Meaning([item]) == Plus(Meaning([]), item);
  }

  /** ESC [ 3 1 m: a control sequence with final byte m and the parameter 31. */
  lemma ColorSequence(s: State)
    requires s.state == GROUND
    ensures
      var r := TableRun(Vt500, s, [27, 91, 51, 49, 109]);
      r.events == [Csi(109, Params([31], [], [(0, 0)], false, false, false))] && r.s.state == GROUND
  {
    hide TableRun, ParamsFrom, CollectedFrom;
    ControlSequence(s, [], [51, 49], [], 109);
    assert [27, 91] + ([] + [51, 49] + [] + [109]) == [27, 91, 51, 49, 109];
    ThirtyOne();
    CollectedIs([109]);
    assert [] + [] + [109] == [109] && [109][..0] == [];
  }
}
