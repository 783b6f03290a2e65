/** The memory that SerialArenas manage: an explicit address space of blocks,
    with the block headers and the cleanup chunks that live inside them. */
module ArenaMemory {
  import opened Options

  type Addr = nat

  // Sizes on a 64-bit machine, already multiples of 8.
  const BLOCK_HEADER_SIZE: nat := 24
  const SERIAL_ARENA_SIZE: nat := 72
  const SIZE_LIMIT: nat := 0x1_0000_0000_0000_0000
  const MIN_CLEANUP_ELEMENTS: nat := 8
  const MAX_CLEANUP_ELEMENTS: nat := 64

  datatype Block = Block(next: Option<Addr>, pos: nat, size: nat)
  datatype CleanupNode = CleanupNode(elem: Addr, cleanup: nat)
  datatype CleanupChunk = CleanupChunk(size: nat, next: Option<Addr>, nodes: seq<CleanupNode>)

  // A piece of memory handed out from a block.
  datatype Region = Region(block: Addr, start: Addr, len: nat)

  type Blocks = map<Addr, Block>

  predicate Aligned(n: nat) { n % 8 == 0 }

  lemma SumAligned(a: nat, b: nat)
    requires Aligned(a) && Aligned(b)
    ensures Aligned(a + b)
  {
  }

  function AlignUpTo8(n: nat): (r: nat)
    ensures Aligned(r) && n <= r < n + 8
  {
    (n + 7) / 8 * 8
  }

  /** CleanupChunk::SizeOf: a header of two words and `n` nodes of two words. */
  function ChunkSizeOf(n: nat): (r: nat)
    ensures 0 < r
  {
    16 + 16 * n
  }

  function Min(a: nat, b: nat): nat { if a <= b then a else b }

  function Max(a: nat, b: nat): nat { if a <= b then b else a }

  /** The request does not overflow when the block header is added. */
  predicate Fits(n: nat) { n <= SIZE_LIMIT - 1 - BLOCK_HEADER_SIZE }

  /** Twice a size_t, which wraps around at the word size. */
  function Doubled(size: nat): nat { 2 * size % SIZE_LIMIT }

  /** r is the first block's start size, or twice the size of the last block (which wraps around at the word size) but
      at most `max`; it is larger only when the request needs more, and then it is what the request needs. */
  predicate ChosenSize(r: nat, last: Option<nat>, start: nat, max: nat, minBytes: nat) {
    var need := BLOCK_HEADER_SIZE + minBytes;
    && (last.None? && need <= start ==> r == start)
    && (last.None? && start < need ==> r == need)
    && (last.Some? && 2 * last.value < SIZE_LIMIT && need <= 2 * last.value <= max ==> r == 2 * last.value)
    && (last.Some? && 2 * last.value < SIZE_LIMIT && need <= max < 2 * last.value ==> r == max)
    && (last.Some? && 2 * last.value < SIZE_LIMIT && (2 * last.value < need || max < need) ==> r == need)
    && (last.Some? && SIZE_LIMIT <= 2 * last.value < 2 * SIZE_LIMIT ==>
      var wrapped := 2 * last.value - SIZE_LIMIT;
      && (need <= wrapped <= max ==> r == wrapped)
      && (need <= max < wrapped ==> r == max)
      && (wrapped < need || max < need ==> r == need))
  }

  /** The size NewBlock chooses. */
  function NewBlockSize(last: Option<nat>, start: nat, max: nat, minBytes: nat): (r: nat)
    ensures BLOCK_HEADER_SIZE + minBytes <= r && ChosenSize(r, last, start, max, minBytes)
  {
    var size := if last.Some? then Min(Doubled(last.value), max) else start;
    Max(size, BLOCK_HEADER_SIZE + minBytes)
  }

  ghost predicate Separate(a: Addr, m: nat, b: Addr, n: nat) {
    a + m <= b || b + n <= a
  }

  /** The blocks are aligned and no two of them overlap. */
  ghost predicate BlocksApart(m: Blocks) {
    && (forall b :: b in m ==> Aligned(b) && BLOCK_HEADER_SIZE <= m[b].size)
    && forall b, c :: b in m && c in m && b != c ==> Separate(b, m[b].size, c, m[c].size)
  }

  /** The user's block_alloc and block_dealloc together with the memory they manage.  The contract of BlockAlloc allows
      addresses of freed blocks to come back; this one always takes new ones. */
  class Heap {
    var blocks: Blocks
    var chunks: map<Addr, CleanupChunk>
    var top: Addr

    ghost predicate Valid()
      reads this
    {
      && BlocksApart(blocks)
      && Aligned(top)
      && forall b :: b in blocks ==> b + blocks[b].size <= top
    }

    constructor ()
      ensures Valid() && blocks == map[]
    {
      blocks, chunks, top := map[], map[], 0;
    }

    method BlockAlloc(size: nat) returns (base: Addr)
      requires Valid() && BLOCK_HEADER_SIZE <= size
      modifies this
      ensures Valid() && Aligned(base) && base !in old(blocks)
      ensures base in blocks && blocks[base].size == size && blocks == old(blocks)[base := blocks[base]]
      ensures chunks == old(chunks)
    {
      SumAligned(top, AlignUpTo8(size));
      hide Aligned, AlignUpTo8;
      base := top;
      var junk := Block(None, 0, size);
      blocks := blocks[base := junk];
      top := top + AlignUpTo8(size);
    }

    /** Writes the header of a block, which cannot change its extent. */
    method SetHeader(b: Addr, header: Block)
      requires Valid() && b in blocks && header.size == blocks[b].size
      modifies this`blocks
      ensures Valid() && blocks == old(blocks)[b := header]
    {
      blocks := blocks[b := header];
    }

    method BlockDealloc(base: Addr, size: nat)
      requires Valid() && base in blocks && blocks[base].size == size
      modifies this
      ensures Valid() && blocks == old(blocks) - {base} && chunks == old(chunks)
    {
      blocks := blocks - {base};
    }
  }

  // ----- the chain of blocks of one SerialArena, newest first

  function NextOf(l: seq<Addr>, i: nat): Option<Addr> {
    if i + 1 < |l| then Some(l[i + 1]) else None
  }

  ghost predicate Chain(m: Blocks, l: seq<Addr>) {
    && (forall i :: 0 <= i < |l| ==> l[i] in m && m[l[i]].next == NextOf(l, i))
    && forall i, j :: 0 <= i < j < |l| ==> l[i] != l[j]
  }

  /** The end of the part of block b that has been handed out.  The header of
      the head block does not say: `ptr` does. */
  function Used(m: Blocks, head: Addr, ptr: Addr, b: Addr): Addr
    requires b in m
  {
    if b == head then ptr else b + m[b].pos
  }

  ghost predicate BlocksOk(m: Blocks, l: seq<Addr>, ptr: Addr, limit: Addr) {
    && l != [] && Chain(m, l)
    && Aligned(ptr)
    && l[0] + BLOCK_HEADER_SIZE <= ptr <= limit == l[0] + m[l[0]].size
    && forall i :: 1 <= i < |l| ==> BLOCK_HEADER_SIZE <= m[l[i]].pos <= m[l[i]].size
  }

  /** Inside its block, behind the header and before the free part. */
  ghost predicate Placed(m: Blocks, l: seq<Addr>, ptr: Addr, r: Region) {
    && r.block in l && r.block in m && l != []
    && Aligned(r.start)
    && r.block + BLOCK_HEADER_SIZE <= r.start
    && r.start + r.len <= Used(m, l[0], ptr, r.block) <= r.block + m[r.block].size
  }

  ghost predicate RegionsOk(m: Blocks, l: seq<Addr>, ptr: Addr, handed: seq<Region>) {
    && (forall i :: 0 <= i < |handed| ==> Placed(m, l, ptr, handed[i]))
    && forall i, j :: 0 <= i < j < |handed| ==>
        Separate(handed[i].start, handed[i].len, handed[j].start, handed[j].len)
  }

  /** The bytes that the block headers and ptr account for are those handed out. */
  ghost predicate Accounted(m: Blocks, l: seq<Addr>, ptr: Addr, handed: seq<Region>)
    requires l != [] && forall i :: 0 <= i < |l| ==> l[i] in m
  {
    ptr - l[0] - BLOCK_HEADER_SIZE + SumPos(m, l[1..]) == SumLen(handed)
  }

  ghost predicate AllocOk(m: Blocks, l: seq<Addr>, ptr: Addr, limit: Addr, handed: seq<Region>) {
    && BlocksOk(m, l, ptr, limit)
    && RegionsOk(m, l, ptr, handed)
    && Accounted(m, l, ptr, handed)
  }

  function SumLen(handed: seq<Region>): nat {
    if handed == [] then 0 else SumLen(handed[..|handed| - 1]) + handed[|handed| - 1].len
  }

  /** Bytes in use in full blocks, by their headers. */
  function SumPos(m: Blocks, l: seq<Addr>): int
    requires forall i :: 0 <= i < |l| ==> l[i] in m
  {
    if l == [] then 0 else m[l[0]].pos - BLOCK_HEADER_SIZE + SumPos(m, l[1..])
  }

  function SumSize(m: Blocks, l: seq<Addr>): nat
    requires forall i :: 0 <= i < |l| ==> l[i] in m
  {
    if l == [] then 0 else m[l[0]].size + SumSize(m, l[1..])
  }

  // ----- the chunks of cleanup nodes, newest first

  ghost predicate ChunkChain(c: map<Addr, CleanupChunk>, l: seq<Addr>) {
    && (forall i :: 0 <= i < |l| ==> l[i] in c && c[l[i]].next == NextOf(l, i) && |c[l[i]].nodes| == c[l[i]].size)
    && forall i, j :: 0 <= i < j < |l| ==> l[i] != l[j]
  }

  /** The nodes of full chunks, oldest first. */
  function FullNodes(c: map<Addr, CleanupChunk>, l: seq<Addr>): seq<CleanupNode>
    requires forall i :: 0 <= i < |l| ==> l[i] in c
  {
    if l == [] then [] else FullNodes(c, l[1..]) + c[l[0]].nodes
  }

  /** The number of nodes of the next chunk: doubling from 8 up to 64. */
  function NextChunkSize(last: Option<nat>): nat {
    Min(if last.Some? then 2 * last.value else MIN_CLEANUP_ELEMENTS, MAX_CLEANUP_ELEMENTS)
  }

  /** Each chunk, with all its nodes, lies in one of the regions handed out. */
  ghost predicate ChunkPlaced(c: map<Addr, CleanupChunk>, l: seq<Addr>, handed: seq<Region>, i: nat)
    requires ChunkChain(c, l) && i < |l|
  {
    && MIN_CLEANUP_ELEMENTS <= c[l[i]].size <= MAX_CLEANUP_ELEMENTS
    && c[l[i]].size == NextChunkSize(if i + 1 < |l| then Some(c[l[i + 1]].size) else None)
    && exists k :: 0 <= k < |handed| && handed[k].start == l[i] && handed[k].len == ChunkSizeOf(c[l[i]].size)
  }

  /** Every registered node, oldest first: only the newest chunk may have room. */
  ghost predicate CleanupOk(
    c: map<Addr, CleanupChunk>, l: seq<Addr>, cleanupPtr: nat, cleanupLimit: nat,
    registered: seq<CleanupNode>, handed: seq<Region>)
  {
    && ChunkChain(c, l)
    && cleanupPtr <= cleanupLimit == (if l == [] then 0 else c[l[0]].size)
    && registered == (if l == [] then [] else FullNodes(c, l[1..]) + c[l[0]].nodes[..cleanupPtr])
    && forall i :: 0 <= i < |l| ==> ChunkPlaced(c, l, handed, i)
  }

  function Reverse(s: seq<CleanupNode>): (r: seq<CleanupNode>)
    ensures |r| == |s| && forall i :: 0 <= i < |r| ==> r[i] == s[|s| - 1 - i]
  {
    if s == [] then [] else [s[|s| - 1]] + Reverse(s[..|s| - 1])
  }

  function First(l: seq<Addr>): Option<Addr> {
    if l == [] then None else Some(l[0])
  }

  /** One new block in front; the old head's header now tells how full it is. */
  ghost predicate NewHead(m: Blocks, m': Blocks, h: Addr, ptr: Addr, h': Addr, size: nat) {
    && h in m && h' !in m && h <= ptr
    && m' == m[h := m[h].(pos := ptr - h)][h' := Block(Some(h), BLOCK_HEADER_SIZE, size)]
  }

  /** Only the chunk at `a` may have changed. */
  ghost predicate OthersKept(c: map<Addr, CleanupChunk>, c': map<Addr, CleanupChunk>, a: Addr) {
    && c'.Keys == c.Keys + {a}
    && forall b :: b in c && b != a ==> c'[b] == c[b]
  }

  // ----- several SerialArenas over one heap

  ghost predicate ListsApart(ls: seq<seq<Addr>>) {
    forall i, j, b :: 0 <= i < |ls| && 0 <= j < |ls| && i != j && b in ls[i] ==> b !in ls[j]
  }

  ghost predicate Within(m: Blocks, ls: seq<seq<Addr>>) {
    forall i, b :: 0 <= i < |ls| && b in ls[i] ==> b in m
  }

  /** The sizes of all blocks of all lists. */
  function Total(m: Blocks, ls: seq<seq<Addr>>): nat
    requires Within(m, ls)
  {
    if ls == [] then 0 else SumSize(m, ls[0]) + Total(m, ls[1..])
  }

  /** b is on one of the first k lists. */
  ghost predicate InFirst(ls: seq<seq<Addr>>, k: nat, b: Addr) {
    exists i :: 0 <= i < k <= |ls| && b in ls[i]
  }

  /** m' is m without the blocks in `gone`, except the initial one. */
  ghost predicate Left(m: Blocks, m': Blocks, gone: set<Addr>, initial: Option<Addr>) {
    && (forall b :: b in m' <==> b in m && (Some(b) == initial || b !in gone))
    && forall b :: b in m' ==> m'[b] == m[b]
  }

  ghost function OnLists(m: Blocks, ls: seq<seq<Addr>>): set<Addr> {
    set b | b in m && InFirst(ls, |ls|, b)
  }

  function Members(l: seq<Addr>): set<Addr> { set b | b in l }
}
