/** What single steps of a SerialArena keep, stated on the values of ArenaMemory. */
module ArenaMemoryProofs {
  import opened Options
  import opened ArenaMemory

  lemma {:induction false} SumLenSplit(handed: seq<Region>)
    requires handed != []
    ensures SumLen(handed) == handed[0].len + SumLen(handed[1..])
  {
    if |handed| == 1 {
      assert handed[..0] == handed[1..] == [];
    } else {
      SumLenSplit(handed[..|handed| - 1]);
      assert handed[1..][..|handed| - 2] == handed[..|handed| - 1][1..];
    }
  }

  /** The nodes behind chunk k end with those of the next chunk, which is full. */
  lemma OlderNodes(c: map<Addr, CleanupChunk>, l: seq<Addr>, k: nat)
    requires ChunkChain(c, l) && k < |l|
    ensures k + 1 == |l| ==> Reverse(FullNodes(c, l[k + 1..])) == []
    ensures k + 1 < |l| ==>
      var chunk := c[l[k + 1]];
      && |chunk.nodes| == chunk.size
      && FullNodes(c, l[k + 1..]) == FullNodes(c, l[k + 2..]) + chunk.nodes[..chunk.size]
  {
    if k + 1 < |l| {
      assert l[k + 1..][1..] == l[k + 2..];
      assert c[l[k + 1]].nodes[..c[l[k + 1]].size] == c[l[k + 1]].nodes;
    }
  }

  lemma ReverseSnoc(s: seq<CleanupNode>, node: CleanupNode)
    ensures Reverse(s + [node]) == [node] + Reverse(s)
  {
    assert (s + [node])[..|s|] == s;
  }

  lemma {:induction false} ReverseConcat(a: seq<CleanupNode>, b: seq<CleanupNode>)
    ensures Reverse(a + b) == Reverse(b) + Reverse(a)
    decreases |b|
  {
    if b == [] {
      assert a + b == a;
    } else {
      assert (a + b)[..|a + b| - 1] == a + b[..|b| - 1];
      ReverseConcat(a, b[..|b| - 1]);
    }
  }

  /** The first n nodes of chunk k and those of all older chunks have still to run. */
  ghost predicate ToRun(c: map<Addr, CleanupChunk>, l: seq<Addr>, k: nat, list: Addr, n: nat,
                        ran: seq<CleanupNode>, all: seq<CleanupNode>)
  {
    && ChunkChain(c, l) && k < |l| && list == l[k] && n <= |c[list].nodes|
    && ran + Reverse(FullNodes(c, l[k + 1..]) + c[list].nodes[..n]) == all
  }

  lemma ChunkRun(c: map<Addr, CleanupChunk>, l: seq<Addr>, k: nat, list: Addr, n: nat,
                 ran: seq<CleanupNode>, all: seq<CleanupNode>)
    requires ToRun(c, l, k, list, n, ran, all)
    ensures k < |l| && list in c && n <= |c[list].nodes|
    ensures
      var more, next := ran + Reverse(c[list].nodes[..n]), c[list].next;
      if next.None? then more == all
      else k + 1 < |l| && next.value in c && ToRun(c, l, k + 1, next.value, c[next.value].size, more, all)
  {
    hide Reverse, FullNodes;
    var older, nodes := FullNodes(c, l[k + 1..]), c[list].nodes[..n];
    ReverseConcat(older, nodes);
    OlderNodes(c, l, k);
    assert ran + (Reverse(nodes) + Reverse(older)) == (ran + Reverse(nodes)) + Reverse(older);
  }

  lemma NewestFacts(c: map<Addr, CleanupChunk>, l: seq<Addr>, cleanupPtr: nat, cleanupLimit: nat,
                    registered: seq<CleanupNode>, handed: seq<Region>)
    requires CleanupOk(c, l, cleanupPtr, cleanupLimit, registered, handed)
    ensures cleanupPtr <= cleanupLimit
    ensures l != [] ==> l[0] in c && MIN_CLEANUP_ELEMENTS <= c[l[0]].size == cleanupLimit
  {
    assert l != [] ==> ChunkPlaced(c, l, handed, 0);
  }

  lemma ChunkFits(size: nat)
    requires size <= MAX_CLEANUP_ELEMENTS
    ensures AlignUpTo8(ChunkSizeOf(size)) == ChunkSizeOf(size)
    ensures Fits(ChunkSizeOf(size)) && Aligned(ChunkSizeOf(size))
  {
  }

  lemma {:induction false} FullNodesFrame(c: map<Addr, CleanupChunk>, c': map<Addr, CleanupChunk>, l: seq<Addr>)
    requires forall i :: 0 <= i < |l| ==> l[i] in c && l[i] in c' && c[l[i]] == c'[l[i]]
    ensures FullNodes(c, l) == FullNodes(c', l)
  {
    if l != [] {
      FullNodesFrame(c, c', l[1..]);
    }
  }

  /** Another node in chunk a makes no difference to where the chunks lie. */
  lemma PlacedStays(c: map<Addr, CleanupChunk>, l: seq<Addr>, handed: seq<Region>, a: Addr, nodes: seq<CleanupNode>)
    requires a in c && ChunkChain(c, l) && |nodes| == c[a].size
    requires forall i :: 0 <= i < |l| ==> ChunkPlaced(c, l, handed, i)
    ensures
      var c' := c[a := c[a].(nodes := nodes)];
      ChunkChain(c', l) && forall i :: 0 <= i < |l| ==> ChunkPlaced(c', l, handed, i)
  {
    hide NextChunkSize, ChunkSizeOf;
    var c' := c[a := c[a].(nodes := nodes)];
    forall i | 0 <= i < |l| ensures ChunkPlaced(c', l, handed, i) {
      assert ChunkPlaced(c, l, handed, i);
    }
  }

  lemma NodeWritten(c: map<Addr, CleanupChunk>, l: seq<Addr>, cleanupPtr: nat, cleanupLimit: nat,
                    registered: seq<CleanupNode>, handed: seq<Region>, node: CleanupNode)
    requires CleanupOk(c, l, cleanupPtr, cleanupLimit, registered, handed) && cleanupPtr < cleanupLimit
    ensures l != [] && l[0] in c && cleanupPtr < |c[l[0]].nodes|
    ensures CleanupOk(c[l[0] := c[l[0]].(nodes := c[l[0]].nodes[cleanupPtr := node])], l, cleanupPtr + 1, cleanupLimit,
                      registered + [node], handed)
  {
    hide ChunkPlaced;
    var nodes := c[l[0]].nodes[cleanupPtr := node];
    PlacedStays(c, l, handed, l[0], nodes);
    FullNodesFrame(c, c[l[0] := c[l[0]].(nodes := nodes)], l[1..]);
    assert nodes[..cleanupPtr + 1] == c[l[0]].nodes[..cleanupPtr] + [node];
  }

  /** The headers of the blocks and the SerialArena at the start of each chain. */
  function Overhead(ls: seq<seq<Addr>>): nat {
    if ls == [] then 0 else SERIAL_ARENA_SIZE + BLOCK_HEADER_SIZE * |ls[0]| + Overhead(ls[1..])
  }

  lemma {:induction false} PosInSize(m: Blocks, l: seq<Addr>)
    requires forall i :: 0 <= i < |l| ==> l[i] in m && m[l[i]].pos <= m[l[i]].size
    ensures SumPos(m, l) + BLOCK_HEADER_SIZE * |l| <= SumSize(m, l)
  {
    if l != [] {
      PosInSize(m, l[1..]);
    }
  }

  lemma UsedInBlocks(m: Blocks, l: seq<Addr>, ptr: Addr, limit: Addr, handed: seq<Region>)
    requires AllocOk(m, l, ptr, limit, handed) && handed != [] && handed[0].len == SERIAL_ARENA_SIZE
    ensures forall i :: 0 <= i < |l| ==> l[i] in m
    ensures SumLen(handed[1..]) + SERIAL_ARENA_SIZE + BLOCK_HEADER_SIZE * |l| <= SumSize(m, l)
  {
    hide RegionsOk;
    PosInSize(m, l[1..]);
    SumLenSplit(handed);
  }

  /** A new chunk in a region of its own is none of those before. */
  lemma ChunkIsNew(c: map<Addr, CleanupChunk>, l: seq<Addr>, handed: seq<Region>, r: Region,
                   m: Blocks, blocks: seq<Addr>, ptr: Addr)
    requires ChunkChain(c, l) && RegionsOk(m, blocks, ptr, handed + [r]) && 0 < r.len
    requires forall i :: 0 <= i < |l| ==> ChunkPlaced(c, l, handed, i)
    ensures r.start !in l
  {
    hide Placed;
    var all := handed + [r];
    forall i | 0 <= i < |l| ensures l[i] != r.start {
      assert ChunkPlaced(c, l, handed, i);
      var k :| 0 <= k < |handed| && handed[k].start == l[i] && handed[k].len == ChunkSizeOf(c[l[i]].size);
      assert all[k] == handed[k] && all[|handed|] == r;
      assert Separate(all[k].start, all[k].len, all[|handed|].start, all[|handed|].len);
    }
  }

  lemma ChainPushed(c: map<Addr, CleanupChunk>, l: seq<Addr>, a: Addr, chunk: CleanupChunk)
    requires ChunkChain(c, l) && a !in l && chunk.next == First(l) && |chunk.nodes| == chunk.size
    ensures ChunkChain(c[a := chunk], [a] + l)
  {
    var c', l' := c[a := chunk], [a] + l;
    forall i | 0 <= i < |l'|
      ensures l'[i] in c' && c'[l'[i]].next == NextOf(l', i) && |c'[l'[i]].nodes| == c'[l'[i]].size
    {
      if i > 0 {
        assert l'[i] == l[i - 1] && NextOf(l', i) == NextOf(l, i - 1);
      }
    }
  }

  lemma PlacedPushed(c: map<Addr, CleanupChunk>, l: seq<Addr>, handed: seq<Region>,
                       a: Addr, chunk: CleanupChunk, i: nat)
    requires ChunkChain(c, l) && a !in l && ChunkChain(c[a := chunk], [a] + l) && i < |l|
    requires ChunkPlaced(c, l, handed, i)
    ensures ChunkPlaced(c[a := chunk], [a] + l, handed, i + 1)
  {
    hide ChunkSizeOf, NextChunkSize;
    var l' := [a] + l;
    assert l'[i + 1] == l[i] && (i + 1 < |l| ==> l'[i + 2] == l[i + 1]);
  }

  lemma ChunkPushed(c: map<Addr, CleanupChunk>, l: seq<Addr>, cleanupPtr: nat, cleanupLimit: nat,
                    registered: seq<CleanupNode>, handed: seq<Region>, r: Region, chunk: CleanupChunk,
                    m: Blocks, blocks: seq<Addr>, ptr: Addr)
    requires CleanupOk(c, l, cleanupPtr, cleanupLimit, registered, handed) && cleanupPtr == cleanupLimit
    requires RegionsOk(m, blocks, ptr, handed + [r]) && r.len == ChunkSizeOf(chunk.size)
    requires chunk.next == First(l) && |chunk.nodes| == chunk.size
    requires chunk.size == NextChunkSize(if l == [] then None else Some(cleanupLimit))
    ensures r.start !in l
    ensures CleanupOk(c[r.start := chunk], [r.start] + l, 0, chunk.size, registered, handed + [r])
  {
    hide RegionsOk;
    var a, all := r.start, handed + [r];
    var c', l' := c[a := chunk], [a] + l;
    NewestFacts(c, l, cleanupPtr, cleanupLimit, registered, handed);
    ChunkIsNew(c, l, handed, r, m, blocks, ptr);
    ChainPushed(c, l, a, chunk);
    HandedKeeps(c, l, cleanupPtr, cleanupLimit, registered, handed, r);
    forall i | 0 <= i < |l'| ensures ChunkPlaced(c', l', all, i) {
      if i > 0 {
        PlacedPushed(c, l, all, a, chunk, i - 1);
      } else {
        assert all[|handed|] == r;
      }
    }
    assert l'[1..] == l;
    NodesPushed(c, l, cleanupPtr, cleanupLimit, registered, handed, a, chunk);
  }

  lemma NodesPushed(c: map<Addr, CleanupChunk>, l: seq<Addr>, cleanupPtr: nat, cleanupLimit: nat,
                    registered: seq<CleanupNode>, handed: seq<Region>, a: Addr, chunk: CleanupChunk)
    requires CleanupOk(c, l, cleanupPtr, cleanupLimit, registered, handed) && cleanupPtr == cleanupLimit && a !in l
    requires forall i :: 0 <= i < |l| ==> l[i] in c
    ensures registered == FullNodes(c[a := chunk], l)
  {
    hide ChunkPlaced;
    FullNodesFrame(c, c[a := chunk], l);
    if l != [] {
      assert c[l[0]].nodes[..cleanupPtr] == c[l[0]].nodes;
    }
  }

  lemma AllocRegions(m: Blocks, l: seq<Addr>, ptr: Addr, limit: Addr, handed: seq<Region>)
    requires AllocOk(m, l, ptr, limit, handed)
    ensures RegionsOk(m, l, ptr, handed)
  {
  }

  lemma NewHeadMade(m: Blocks, m': Blocks, h: Addr, ptr: Addr, h': Addr, size: nat)
    requires h in m && h' !in m && h <= ptr
    requires m' == m[h := m[h].(pos := ptr - h)][h' := Block(Some(h), BLOCK_HEADER_SIZE, size)]
    ensures NewHead(m, m', h, ptr, h', size)
  {
  }

  lemma BumpRegions(m: Blocks, l: seq<Addr>, ptr: Addr, limit: Addr, handed: seq<Region>, n: nat)
    requires BlocksApart(m) && BlocksOk(m, l, ptr, limit) && RegionsOk(m, l, ptr, handed) && ptr + n <= limit
    ensures RegionsOk(m, l, ptr + n, handed + [Region(l[0], ptr, n)])
  {
    hide BlocksApart;
    var all := handed + [Region(l[0], ptr, n)];
    forall i | 0 <= i < |handed|
      ensures Separate(handed[i].start, handed[i].len, ptr, n) && Placed(m, l, ptr + n, handed[i])
    {
      FreePartApart(m, l, ptr, limit, handed[i], n);
    }
    assert Placed(m, l, ptr + n, all[|handed|]);
  }

  lemma BumpKeeps(m: Blocks, l: seq<Addr>, ptr: Addr, limit: Addr, handed: seq<Region>, n: nat)
    requires BlocksApart(m) && AllocOk(m, l, ptr, limit, handed)
    requires Aligned(n) && ptr + n <= limit
    ensures AllocOk(m, l, ptr + n, limit, handed + [Region(l[0], ptr, n)])
  {
    hide BlocksApart, RegionsOk, Chain, Aligned;
    SumAligned(ptr, n);
    BumpRegions(m, l, ptr, limit, handed, n);
    assert (handed + [Region(l[0], ptr, n)])[..|handed|] == handed;
  }

  /** A block whose only region is the arena itself. */
  lemma NewArena(m: Blocks, c: map<Addr, CleanupChunk>, b: Addr)
    requires BlocksApart(m) && b in m && m[b].next == None
    requires m[b].pos == BLOCK_HEADER_SIZE + SERIAL_ARENA_SIZE <= m[b].size
    ensures
      var start, handed := b + BLOCK_HEADER_SIZE, [Region(b, b + BLOCK_HEADER_SIZE, SERIAL_ARENA_SIZE)];
      && AllocOk(m, [b], start + SERIAL_ARENA_SIZE, b + m[b].size, handed)
      && CleanupOk(c, [], 0, 0, [], handed)
  {
    SumAligned(b, BLOCK_HEADER_SIZE);
    SumAligned(b + BLOCK_HEADER_SIZE, SERIAL_ARENA_SIZE);
    hide Aligned;
    var handed := [Region(b, b + BLOCK_HEADER_SIZE, SERIAL_ARENA_SIZE)];
    assert SumLen(handed[..0]) == 0 && SumPos(m, [b][1..]) == 0;
  }

  /** What was handed out before never meets the free part of the head block. */
  lemma HeadFacts(m: Blocks, l: seq<Addr>, ptr: Addr, limit: Addr, handed: seq<Region>)
    requires AllocOk(m, l, ptr, limit, handed)
    ensures l != [] && l[0] in m
    ensures l[0] + BLOCK_HEADER_SIZE <= ptr <= limit == l[0] + m[l[0]].size
    ensures Aligned(ptr)
  {
  }

  lemma FreePartApart(m: Blocks, l: seq<Addr>, ptr: Addr, limit: Addr, r: Region, n: nat)
    requires BlocksApart(m) && BlocksOk(m, l, ptr, limit) && Placed(m, l, ptr, r) && ptr + n <= limit
    ensures Separate(r.start, r.len, ptr, n)
    ensures Placed(m, l, ptr + n, r)
  {
    if r.block != l[0] {
      assert Separate(r.block, m[r.block].size, l[0], m[l[0]].size);
    }
  }

  lemma {:induction false} SumPosFrame(m: Blocks, m': Blocks, l: seq<Addr>)
    requires forall i :: 0 <= i < |l| ==> l[i] in m && l[i] in m' && m[l[i]].pos == m'[l[i]].pos
    ensures SumPos(m, l) == SumPos(m', l)
  {
    if l != [] {
      SumPosFrame(m, m', l[1..]);
    }
  }

  lemma GrowBlocks(m: Blocks, m': Blocks, l: seq<Addr>, ptr: Addr, limit: Addr, h: Addr, size: nat)
    requires BlocksOk(m, l, ptr, limit)
    requires NewHead(m, m', l[0], ptr, h, size) && BLOCK_HEADER_SIZE <= size && Aligned(h)
    ensures BlocksOk(m', [h] + l, h + BLOCK_HEADER_SIZE, h + size)
  {
    SumAligned(h, BLOCK_HEADER_SIZE);
    hide Aligned;
    var l' := [h] + l;
    forall i | 0 <= i < |l'| ensures l'[i] in m' && m'[l'[i]].next == NextOf(l', i) {
      if i > 0 {
        assert l'[i] == l[i - 1] && NextOf(l', i) == NextOf(l, i - 1);
      }
    }
  }

  lemma GrowRegions(m: Blocks, m': Blocks, l: seq<Addr>, ptr: Addr, limit: Addr,
                      handed: seq<Region>, h: Addr, size: nat)
    requires BlocksOk(m, l, ptr, limit) && RegionsOk(m, l, ptr, handed)
    requires NewHead(m, m', l[0], ptr, h, size)
    ensures RegionsOk(m', [h] + l, h + BLOCK_HEADER_SIZE, handed)
  {
    hide Aligned;
    forall i | 0 <= i < |handed| ensures Placed(m', [h] + l, h + BLOCK_HEADER_SIZE, handed[i]) {
      assert Placed(m, l, ptr, handed[i]);
    }
  }

  lemma GrowKeeps(
    m: Blocks, m': Blocks, l: seq<Addr>, ptr: Addr, limit: Addr, handed: seq<Region>, h: Addr, size: nat)
    requires AllocOk(m, l, ptr, limit, handed)
    requires NewHead(m, m', l[0], ptr, h, size) && BLOCK_HEADER_SIZE <= size && Aligned(h)
    ensures AllocOk(m', [h] + l, h + BLOCK_HEADER_SIZE, h + size, handed)
  {
    GrowBlocks(m, m', l, ptr, limit, h, size);
    GrowRegions(m, m', l, ptr, limit, handed, h, size);
    hide RegionsOk, Aligned;
    assert ([h] + l)[1..] == l;
    SumPosFrame(m, m', l[1..]);
  }

  lemma HandedKeeps(c: map<Addr, CleanupChunk>, l: seq<Addr>, cleanupPtr: nat, cleanupLimit: nat,
                    registered: seq<CleanupNode>, handed: seq<Region>, r: Region)
    requires CleanupOk(c, l, cleanupPtr, cleanupLimit, registered, handed)
    ensures CleanupOk(c, l, cleanupPtr, cleanupLimit, registered, handed + [r])
  {
    forall i | 0 <= i < |l| ensures ChunkPlaced(c, l, handed + [r], i) {
      assert ChunkPlaced(c, l, handed, i);
      var k :| 0 <= k < |handed| && handed[k].start == l[i] && handed[k].len == ChunkSizeOf(c[l[i]].size);
      assert (handed + [r])[k] == handed[k];
    }
  }

  lemma TotalNone(m: Blocks)
    ensures ListsApart([]) && Within(m, []) && Total(m, []) == 0
  {
  }

  lemma TotalSingle(m: Blocks, b: Addr)
    requires b in m
    ensures Within(m, [[b]]) && Total(m, [[b]]) == m[b].size
    ensures ListsApart([[b]]) && ListsApart([[]])
  {
    assert [[b]][1..] == [] && [b][1..] == [];
    assert SumSize(m, [b]) == m[b].size;
  }

  lemma FitsSerial()
    ensures Fits(SERIAL_ARENA_SIZE)
  {
  }

  lemma AllocFrame(m: Blocks, m': Blocks, l: seq<Addr>, ptr: Addr, limit: Addr, handed: seq<Region>)
    requires AllocOk(m, l, ptr, limit, handed)
    requires forall b :: b in l ==> b in m && b in m' && m'[b] == m[b]
    ensures AllocOk(m', l, ptr, limit, handed)
  {
    SumPosFrame(m, m', l[1..]);
    forall i | 0 <= i < |handed| ensures Placed(m', l, ptr, handed[i]) {
      assert Placed(m, l, ptr, handed[i]);
    }
  }

  lemma CleanupFrame(c: map<Addr, CleanupChunk>, c': map<Addr, CleanupChunk>, l: seq<Addr>, cleanupPtr: nat,
                     cleanupLimit: nat, registered: seq<CleanupNode>, handed: seq<Region>)
    requires CleanupOk(c, l, cleanupPtr, cleanupLimit, registered, handed)
    requires forall b :: b in l ==> b in c && b in c' && c'[b] == c[b]
    ensures CleanupOk(c', l, cleanupPtr, cleanupLimit, registered, handed)
  {
    if l != [] {
      FullNodesFrame(c, c', l[1..]);
    }
    forall i | 0 <= i < |l| ensures ChunkPlaced(c', l, handed, i) {
      assert ChunkPlaced(c, l, handed, i);
    }
  }

  lemma {:induction false} SumSizeFrame(m: Blocks, m': Blocks, l: seq<Addr>)
    requires forall i :: 0 <= i < |l| ==> l[i] in m && l[i] in m' && m[l[i]].size == m'[l[i]].size
    ensures SumSize(m, l) == SumSize(m', l)
  {
    if l != [] {
      SumSizeFrame(m, m', l[1..]);
    }
  }

  lemma {:induction false} TotalFrame(m: Blocks, m': Blocks, ls: seq<seq<Addr>>)
    requires Within(m, ls)
    requires forall b :: b in m ==> b in m' && m'[b].size == m[b].size
    ensures Within(m', ls) && Total(m', ls) == Total(m, ls)
  {
    if ls != [] {
      SumSizeFrame(m, m', ls[0]);
      assert Within(m, ls[1..]);
      TotalFrame(m, m', ls[1..]);
    }
  }

  lemma {:induction false} TotalUpdate(m: Blocks, ls: seq<seq<Addr>>, k: nat, h: Addr)
    requires k < |ls| && h in m && Within(m, ls)
    ensures Within(m, ls[k := [h] + ls[k]])
    ensures Total(m, ls[k := [h] + ls[k]]) == Total(m, ls) + m[h].size
  {
    var ls' := ls[k := [h] + ls[k]];
    assert Within(m, ls[1..]);
    if k == 0 {
      assert ls'[0][1..] == ls[0] && ls'[1..] == ls[1..];
    } else {
      TotalUpdate(m, ls[1..], k - 1, h);
      assert ls'[1..] == ls[1..][k - 1 := [h] + ls[1..][k - 1]];
    }
  }

  lemma ListsGrow(m: Blocks, m': Blocks, ls: seq<seq<Addr>>, k: nat, ptr: Addr, h: Addr, size: nat)
    requires ListsApart(ls) && Within(m, ls) && k < |ls| && ls[k] != []
    requires NewHead(m, m', ls[k][0], ptr, h, size)
    ensures ListsApart(ls[k := [h] + ls[k]]) && Within(m', ls[k := [h] + ls[k]])
    ensures Total(m', ls[k := [h] + ls[k]]) == Total(m, ls) + size
    ensures forall i, b :: 0 <= i < |ls| && i != k && b in ls[i] ==> b in m && b in m' && m'[b] == m[b]
    ensures forall b :: b in m ==> b in m' && m'[b].size == m[b].size
  {
    TotalFrame(m, m', ls);
    TotalUpdate(m', ls, k, h);
    forall i, b | 0 <= i < |ls| && i != k && b in ls[i] ensures b in m && b != ls[k][0] {
      assert ls[k][0] in ls[k];
    }
  }

  lemma ApartPush(m: Blocks, ls: seq<seq<Addr>>, h: Addr)
    requires ListsApart(ls) && Within(m, ls) && h !in m
    ensures ListsApart([[h]] + ls)
  {
    var ls' := [[h]] + ls;
    forall i, j, b | 0 <= i < |ls'| && 0 <= j < |ls'| && i != j && b in ls'[i] ensures b !in ls'[j] {
      assert i > 0 ==> ls'[i] == ls[i - 1];
      assert j > 0 ==> ls'[j] == ls[j - 1];
    }
  }

  lemma ListsPush(m: Blocks, m': Blocks, ls: seq<seq<Addr>>, h: Addr)
    requires ListsApart(ls) && Within(m, ls) && h !in m && h in m'
    requires forall b :: b in m ==> b in m' && m'[b] == m[b]
    ensures ListsApart([[h]] + ls) && Within(m', [[h]] + ls)
    ensures Total(m', [[h]] + ls) == Total(m, ls) + m'[h].size
    ensures forall i, b :: 0 <= i < |ls| && b in ls[i] ==> b in m && b in m' && m'[b] == m[b]
  {
    hide ListsApart;
    ApartPush(m, ls, h);
    assert ([[h]] + ls)[1..] == ls;
    TotalFrame(m, m', ls);
    assert SumSize(m', [h]) == m'[h].size;
  }

  lemma ListsApartNil(ls: seq<seq<Addr>>)
    requires ListsApart(ls)
    ensures ListsApart([[]] + ls)
  {
  }

  lemma ApartAt(ls: seq<seq<Addr>>, k: nat, a: Addr)
    requires ListsApart(ls) && k < |ls| && a in ls[k]
    ensures forall i :: 0 <= i < |ls| && i != k ==> a !in ls[i]
  {
  }

  lemma ApartCons(ls: seq<seq<Addr>>, ls': seq<seq<Addr>>, k: nat, a: Addr)
    requires ListsApart(ls) && k < |ls| == |ls'| && ls'[k] != [] && ls'[k][0] == a && ls'[k][1..] == ls[k]
    requires forall i :: 0 <= i < |ls| && i != k ==> ls'[i] == ls[i] && a !in ls[i]
    ensures ListsApart(ls')
  {
    assert ls'[k] == [a] + ls[k];
  }

  lemma ListsDisjoint(ls: seq<seq<Addr>>, i: nat, k: nat)
    requires ListsApart(ls) && i < |ls| && k < |ls| && i != k
    ensures forall b :: b in ls[i] ==> b !in ls[k]
  {
  }

  /** The newest region of one SerialArena lies in none of the blocks of another. */
  lemma ChunkElsewhere(
    m: Blocks, l: seq<Addr>, ptr: Addr, limit: Addr, handed: seq<Region>,
    l2: seq<Addr>, ptr2: Addr, limit2: Addr, handed2: seq<Region>,
    c: map<Addr, CleanupChunk>, chunks2: seq<Addr>, cleanupPtr2: nat, cleanupLimit2: nat, registered2: seq<CleanupNode>)
    requires BlocksApart(m) && AllocOk(m, l, ptr, limit, handed) && AllocOk(m, l2, ptr2, limit2, handed2)
    requires handed != [] && 0 < handed[|handed| - 1].len
    requires forall b :: b in l2 ==> b !in l
    requires CleanupOk(c, chunks2, cleanupPtr2, cleanupLimit2, registered2, handed2)
    ensures handed[|handed| - 1].start !in chunks2
  {
    var r := handed[|handed| - 1];
    assert Placed(m, l, ptr, r);
    forall i | 0 <= i < |chunks2| ensures chunks2[i] != r.start {
      assert ChunkPlaced(c, chunks2, handed2, i);
      var k :| 0 <= k < |handed2| && handed2[k].start == chunks2[i] &&
              handed2[k].len == ChunkSizeOf(c[chunks2[i]].size);
      assert Placed(m, l2, ptr2, handed2[k]);
      assert Separate(r.block, m[r.block].size, handed2[k].block, m[handed2[k].block].size);
    }
  }

  lemma LeftTrans(m: Blocks, m1: Blocks, m2: Blocks, g: set<Addr>, h: set<Addr>, initial: Option<Addr>)
    requires Left(m, m1, g, initial) && Left(m1, m2, h, initial)
    ensures Left(m, m2, g + h, initial)
  {
  }

  /** Freeing the k-th block of a chain. */
  lemma LeftOne(m: Blocks, m1: Blocks, l: seq<Addr>, k: nat, initial: Option<Addr>)
    requires k < |l| && Left(m, m1, Members(l[..k]), initial)
    ensures Left(m, if Some(l[k]) == initial then m1 else m1 - {l[k]}, Members(l[..k + 1]), initial)
  {
    assert l[..k + 1] == l[..k] + [l[k]];
  }

  /** Before the k-th list is freed its blocks are still there. */
  lemma FreeStep(m: Blocks, m': Blocks, ls: seq<seq<Addr>>, k: nat, gone: set<Addr>, initial: Option<Addr>)
    requires ListsApart(ls) && k < |ls| && Left(m, m', gone, initial) && Chain(m, ls[k])
    requires forall b :: b in gone <==> InFirst(ls, k, b)
    ensures Chain(m', ls[k]) && SumSize(m', ls[k]) == SumSize(m, ls[k])
    ensures forall b :: b in gone + Members(ls[k]) <==> InFirst(ls, k + 1, b)
  {
    forall b | b in ls[k] ensures b in m' && m'[b] == m[b] {
      assert !InFirst(ls, k, b);
    }
    SumSizeFrame(m, m', ls[k]);
    forall b ensures InFirst(ls, k + 1, b) <==> InFirst(ls, k, b) || b in ls[k] {
      if InFirst(ls, k + 1, b) {
        var i :| 0 <= i < k + 1 && b in ls[i];
        assert i == k || InFirst(ls, k, b);
      }
    }
  }

  lemma TotalStep(m: Blocks, ls: seq<seq<Addr>>, k: nat)
    requires k < |ls| && Within(m, ls[k..])
    ensures Within(m, ls[k + 1..]) && Total(m, ls[k..]) == SumSize(m, ls[k]) + Total(m, ls[k + 1..])
  {
    assert ls[k..][0] == ls[k] && ls[k..][1..] == ls[k + 1..];
  }

  lemma FreeStart(m: Blocks, ls: seq<seq<Addr>>, initial: Option<Addr>)
    ensures Left(m, m, {}, initial) && ls[0..] == ls
    ensures forall b :: b in {} <==> InFirst(ls, 0, b)
  {
  }

  lemma FreeEnd(m: Blocks, m': Blocks, ls: seq<seq<Addr>>, gone: set<Addr>, initial: Option<Addr>)
    requires Left(m, m', gone, initial)
    requires forall b :: b in gone <==> InFirst(ls, |ls|, b)
    ensures Left(m, m', OnLists(m, ls), initial)
    ensures ls[|ls|..] == [] && Within(m, ls[|ls|..]) && Total(m, ls[|ls|..]) == 0
  {
  }

  lemma ChainStart(m: Blocks, l: seq<Addr>, initial: Option<Addr>)
    ensures l[0..] == l && Left(m, m, Members(l[..0]), initial)
  {
  }

  /** The k-th block of the chain has not been freed yet. */
  lemma ChainStep(m: Blocks, m': Blocks, l: seq<Addr>, k: nat, initial: Option<Addr>)
    requires Chain(m, l) && k < |l| && Left(m, m', Members(l[..k]), initial)
    ensures First(l[k..]) == Some(l[k]) && l[k] in m' && m'[l[k]] == m[l[k]]
    ensures m[l[k]].next == First(l[k + 1..])
    ensures SumSize(m, l[k..]) == m[l[k]].size + SumSize(m, l[k + 1..])
  {
    assert l[k] !in l[..k];
    assert l[k..][1..] == l[k + 1..];
  }

  lemma ChainDone(m: Blocks, l: seq<Addr>, k: nat)
    requires Chain(m, l) && k <= |l| && First(l[k..]) == None
    ensures l[..k] == l && SumSize(m, l[k..]) == 0
  {
  }

  lemma ChainEnd(m: Blocks, l: seq<Addr>)
    requires Chain(m, l) && l != []
    ensures l[|l| - 1] in m
  {
  }

  // ----- how blocks and chunks grow

  /** start * 2^k */
  function Grown(start: nat, k: nat): nat { if k == 0 then start else 2 * Grown(start, k - 1) }

  /** The sizes of a chain of blocks, the oldest first, each chosen for one request. */
  ghost predicate ChosenInTurn(sizes: seq<nat>, requests: seq<nat>, start: nat, max: nat) {
    && |sizes| == |requests|
    && (sizes != [] ==> ChosenSize(sizes[0], None, start, max, requests[0]))
    && forall k :: 0 < k < |sizes| ==> ChosenSize(sizes[k], Some(sizes[k - 1]), start, max, requests[k])
  }

  /** As long as the requests fit, each block is twice as large as the one before, up to the maximum. */
  lemma {:induction false} BlocksDouble(sizes: seq<nat>, requests: seq<nat>, start: nat, max: nat, k: nat)
    requires ChosenInTurn(sizes, requests, start, max) && start <= max && 2 * max < SIZE_LIMIT && k < |sizes|
    requires forall i :: 0 <= i <= k ==> BLOCK_HEADER_SIZE + requests[i] <= Min(Grown(start, i), max)
    ensures sizes[k] == Min(Grown(start, k), max)
  {
    if k > 0 {
      BlocksDouble(sizes, requests, start, max, k - 1);
    }
  }

  /** The chunks of a cleanup list have 8, 16, 32 and then always 64 nodes, in the order they were made. */
  lemma {:induction false} ChunksDouble(c: map<Addr, CleanupChunk>, l: seq<Addr>, cleanupPtr: nat, cleanupLimit: nat,
                                        registered: seq<CleanupNode>, handed: seq<Region>, k: nat)
    requires CleanupOk(c, l, cleanupPtr, cleanupLimit, registered, handed) && k < |l|
    ensures l[|l| - 1 - k] in c
    ensures c[l[|l| - 1 - k]].size == if k == 0 then 8 else if k == 1 then 16 else if k == 2 then 32 else 64
  {
    hide FullNodes;
    assert ChunkPlaced(c, l, handed, |l| - 1 - k);
    if k > 0 {
      ChunksDouble(c, l, cleanupPtr, cleanupLimit, registered, handed, k - 1);
    }
  }

  // ----- what the invariant means for memory safety

  /** Everything handed out is aligned, lies inside its live block behind the
      header, meets no other region and no header of any live block. */
  lemma HandedOutSafely(
    m: Blocks, l: seq<Addr>, ptr: Addr, limit: Addr, handed: seq<Region>, i: nat, j: nat, b: Addr)
    requires BlocksApart(m) && AllocOk(m, l, ptr, limit, handed) && i < |handed| && j < |handed| && b in m
    ensures
      var r := handed[i];
      && r.start % 8 == 0
      && r.block in m && r.block + BLOCK_HEADER_SIZE <= r.start && r.start + r.len <= r.block + m[r.block].size
      && Separate(b, BLOCK_HEADER_SIZE, r.start, r.len)
      && (i != j ==> Separate(r.start, r.len, handed[j].start, handed[j].len))
  {
    var r := handed[i];
    assert Placed(m, l, ptr, r);
    if b != r.block {
      assert Separate(b, m[b].size, r.block, m[r.block].size);
    }
    assert j < i ==> Separate(handed[j].start, handed[j].len, r.start, r.len);
  }

  /** The region starts at a and has at least n bytes. */
  ghost predicate Covers(r: Region, a: Addr, n: nat) {
    r.start == a && n <= r.len
  }

  /** Every node of every cleanup chunk lies inside a region handed out for the chunk. */
  lemma NodesInside(c: map<Addr, CleanupChunk>, l: seq<Addr>, cleanupPtr: nat, cleanupLimit: nat,
                    registered: seq<CleanupNode>, handed: seq<Region>, i: nat, x: nat)
    requires CleanupOk(c, l, cleanupPtr, cleanupLimit, registered, handed)
    requires i < |l| && x < c[l[i]].size
    ensures exists k :: 0 <= k < |handed| && Covers(handed[k], l[i], 16 + 16 * (x + 1))
  {
    assert ChunkPlaced(c, l, handed, i);
    var k :| 0 <= k < |handed| && handed[k].start == l[i] && handed[k].len == ChunkSizeOf(c[l[i]].size);
    assert Covers(handed[k], l[i], 16 + 16 * (x + 1));
  }
}
