/** One thread's arena: a bump allocator over a chain of blocks, and the
    cleanup list that it keeps in the memory it hands out. */
module SerialArenas {
  import opened Options
  import opened ArenaMemory
  import opened ArenaMemoryProofs

  /** What a thread remembers: its SerialArena in the arena it used last. Its address is the identity of the thread. */
  class ThreadCache {
    var lastLifecycleIdSeen: int
    var lastSerialArena: SerialArena?

    constructor ()
      ensures lastLifecycleIdSeen == -1 && lastSerialArena == null
    {
      lastLifecycleIdSeen, lastSerialArena := -1, null;
    }
  }

  /** The options, the counter of space, the list of SerialArenas, and the one used last. */
  class ArenaImpl {
    const heap: Heap
    const startBlockSize: nat
    const maxBlockSize: nat
    const initialBlock: Option<Addr>
    var spaceAllocated: nat
    var threads: SerialArena?
    var hint: SerialArena?
    var lifecycleId: int

    ghost var serials: seq<SerialArena>  // the list from `threads`

    ghost function BlockLists(): (l: seq<seq<Addr>>)
      reads `serials, serials
      ensures |l| == |serials| && forall i :: 0 <= i < |l| ==> l[i] == serials[i].blocks
    {
      var all := serials;
      seq(|all|, i requires 0 <= i < |all| reads all => all[i].blocks)
    }

    ghost function ChunkLists(): (l: seq<seq<Addr>>)
      reads `serials, serials
      ensures |l| == |serials| && forall i :: 0 <= i < |l| ==> l[i] == serials[i].chunks
    {
      var all := serials;
      seq(|all|, i requires 0 <= i < |all| reads all => all[i].chunks)
    }

    ghost predicate Valid()
      reads this, heap, serials
    {
      && heap.Valid()
      && Roomy(heap.blocks, initialBlock)
      && ThreadsOk()
      && SpaceOk()
      && HintOk()
    }

    ghost predicate HintOk()
      reads `hint, `serials
    {
      hint != null ==> hint in serials
    }

    /** A cache with the arena's current id holds the thread's own SerialArena of it. */
    ghost predicate Cached(tc: ThreadCache)
      reads this, tc
    {
      tc.lastLifecycleIdSeen == lifecycleId ==>
        tc.lastSerialArena != null && tc.lastSerialArena in serials && tc.lastSerialArena.owner == tc
    }

    /** `threads` leads through valid SerialArenas of this arena, one for each thread that has any. */
    ghost predicate ThreadsOk()
      reads `threads, `serials, heap, serials
    {
      && threads == NextSerial(-1)
      && (forall i :: 0 <= i < |serials| ==> SerialOk(i))
      && (forall i, j :: 0 <= i < j < |serials| ==> serials[i].owner != serials[j].owner)
    }

    ghost predicate SerialOk(i: nat)
      requires i < |serials|
      reads `serials, heap, serials
    {
      serials[i].arena == this && serials[i].next == NextSerial(i) && serials[i].Valid()
    }

    /** No block or chunk is shared, and the counter is the size of all blocks. */
    ghost predicate SpaceOk()
      reads `spaceAllocated, `serials, heap, serials
    {
      && ListsApart(BlockLists())
      && ListsApart(ChunkLists())
      && Within(heap.blocks, BlockLists())
      && spaceAllocated == Total(heap.blocks, BlockLists())
    }

    ghost function NextSerial(i: int): SerialArena?
      requires -1 <= i
      reads `serials
    {
      if i + 1 < |serials| then serials[i + 1] else null
    }

    /** An arena over a heap that holds the caller's initial block, if any, which is the creating thread's first one. */
    constructor (heap: Heap, startBlockSize: nat, maxBlockSize: nat, initialBlock: Option<Addr>,
                 tc: ThreadCache, id: int)
      requires heap.Valid() && tc.lastLifecycleIdSeen != id
      requires Roomy(heap.blocks, initialBlock)
      modifies heap, tc
      ensures Valid() && Cached(tc) && this.heap == heap && this.initialBlock == initialBlock && lifecycleId == id
      ensures heap.blocks.Keys == old(heap.blocks.Keys)
    {
      this.heap, this.startBlockSize, this.maxBlockSize := heap, startBlockSize, maxBlockSize;
      this.initialBlock := initialBlock;
      threads, hint, serials, spaceAllocated, lifecycleId := null, null, [], 0, id;
      new;
      Init(tc, id);
    }

    /** Init, with the next id of the generator: the initial block, when there is one, belongs to the calling thread. */
    method Init(tc: ThreadCache, id: int)
      requires heap.Valid() && tc.lastLifecycleIdSeen != id
      requires Roomy(heap.blocks, initialBlock)
      modifies this, heap, tc
      ensures Valid() && Cached(tc) && lifecycleId == id && heap.blocks.Keys == old(heap.blocks.Keys)
      ensures forall b :: b in heap.blocks && Some(b) != initialBlock ==> heap.blocks[b] == old(heap.blocks)[b]
      ensures forall s :: s in serials ==> fresh(s)
      ensures BlockLists() == if initialBlock.Some? then [[initialBlock.value]] else []
      ensures spaceAllocated == if initialBlock.Some? then old(heap.blocks)[initialBlock.value].size else 0
      ensures if initialBlock.Some? then |serials| == 1 && serials[0].owner == tc && Remembered(serials[0], tc)
              else serials == [] && hint == null
    {
      hide AllocOk, CleanupOk, BlocksApart, ListsApart, Within, Total, Aligned, SerialArena.Valid, Heap.Valid;
      lifecycleId, threads, hint, serials, spaceAllocated := id, null, null, [], 0;
      if initialBlock.Some? {
        var serial := FirstSerial(tc, initialBlock.value);
        CacheSerialArena(serial, tc);
      } else {
        TotalNone(heap.blocks);
        assert BlockLists() == [] && ChunkLists() == [];
      }
    }

    /** The SerialArena in the initial block. */
    method FirstSerial(tc: ThreadCache, b: Addr) returns (s: SerialArena)
      requires heap.Valid() && initialBlock == Some(b) && Roomy(heap.blocks, initialBlock)
      requires threads == null && hint == null && serials == [] && spaceAllocated == 0
      modifies `threads, `serials, `spaceAllocated, heap
      ensures Valid() && fresh(s) && serials == [s] && s.owner == tc && s.blocks == [b]
      ensures heap.blocks.Keys == old(heap.blocks.Keys) && spaceAllocated == old(heap.blocks)[b].size
      ensures forall c :: c in heap.blocks && c != b ==> heap.blocks[c] == old(heap.blocks)[c]
    {
      hide AllocOk, CleanupOk, BlocksApart, ListsApart, Within, Total, Aligned, ThreadsOk, HintOk;
      heap.SetHeader(b, Block(None, BLOCK_HEADER_SIZE, heap.blocks[b].size));
      s := new SerialArena(b, tc, this);
      spaceAllocated := heap.blocks[b].size;
      TotalSingle(heap.blocks, b);
      assert [s.blocks] + BlockLists() == [[b]] && [s.chunks] + ChunkLists() == [[]];
      NoThreads();
      Publish(s);
    }

    lemma NoThreads()
      requires threads == null && hint == null && serials == []
      ensures ThreadsOk() && HintOk()
    {
    }

    /** NewBlock: the block always has room for `minBytes` behind its header. */
    method NewBlock(last: Option<Addr>, minBytes: nat) returns (b: Addr)
      requires heap.Valid() && (last.Some? ==> last.value in heap.blocks)
      requires Fits(minBytes)
      modifies heap, this`spaceAllocated
      ensures heap.Valid() && heap.chunks == old(heap.chunks) && b !in old(heap.blocks)
      ensures Aligned(b) && b in heap.blocks
      ensures heap.blocks == old(heap.blocks)[b := Block(last, BLOCK_HEADER_SIZE, heap.blocks[b].size)]
      ensures heap.blocks[b].size == NewBlockSize(
        if last.Some? then Some(old(heap.blocks)[last.value].size) else None, startBlockSize, maxBlockSize, minBytes)
      ensures ChosenSize(
        heap.blocks[b].size, if last.Some? then Some(old(heap.blocks)[last.value].size) else None,
        startBlockSize, maxBlockSize, minBytes)
      ensures spaceAllocated == old(spaceAllocated) + heap.blocks[b].size
    {
      hide Aligned, Doubled, Fits, BlocksApart;
      var size;
      if last.Some? {
        size := Min(Doubled(heap.blocks[last.value].size), maxBlockSize);
      } else {
        size := startBlockSize;
      }
      size := Max(size, BLOCK_HEADER_SIZE + minBytes);
      b := heap.BlockAlloc(size);
      heap.SetHeader(b, Block(last, BLOCK_HEADER_SIZE, size));
      spaceAllocated := spaceAllocated + size;
    }

    /** A new thread's SerialArena, as GetSerialArenaFallback creates and publishes it. */
    method AddSerial(owner: ThreadCache) returns (s: SerialArena)
      requires Valid() && forall u :: u in serials ==> u.owner != owner
      modifies this, heap
      ensures Valid() && fresh(s) && s.owner == owner && serials == [s] + old(serials)
      ensures lifecycleId == old(lifecycleId)
      ensures s.handed == [Region(s.head, s.head + BLOCK_HEADER_SIZE, SERIAL_ARENA_SIZE)] && s.registered == []
      ensures s.head !in old(heap.blocks) && s.head in heap.blocks
      ensures spaceAllocated == old(spaceAllocated) + heap.blocks[s.head].size
      ensures heap.blocks[s.head].size == Max(startBlockSize, BLOCK_HEADER_SIZE + SERIAL_ARENA_SIZE)
    {
      hide AllocOk, CleanupOk, NewBlockSize, Fits, ListsApart, Within, Total, Heap.Valid, ThreadsOk, Aligned;
      FitsSerial();
      var b := NewBlock(None, SERIAL_ARENA_SIZE);
      s := new SerialArena(b, owner, this);
      StillOk();
      ListsPush(old(heap.blocks), heap.blocks, BlockLists(), b);
      ListsApartNil(ChunkLists());
      Publish(s);
    }

    /** set_next and the successful compare-and-swap of threads_. */
    method Publish(s: SerialArena)
      requires heap.Valid() && Roomy(heap.blocks, initialBlock) && ThreadsOk() && HintOk()
      requires s.Valid() && s.arena == this && forall u :: u in serials ==> u.owner != s.owner
      requires ListsApart([s.blocks] + BlockLists()) && ListsApart([s.chunks] + ChunkLists())
      requires Within(heap.blocks, [s.blocks] + BlockLists())
      requires spaceAllocated == Total(heap.blocks, [s.blocks] + BlockLists())
      modifies this`threads, this`serials, s`next
      ensures Valid() && serials == [s] + old(serials)
    {
      hide SerialArena.Valid, Heap.Valid, Roomy, ListsApart, Within, Total, SpaceOk, ThreadsOk;
      s.next := threads;
      threads := s;
      serials := [s] + serials;
      SpaceOfPublished(s);
      ThreadsOfPublished(s);
    }

    twostate lemma ThreadsOfPublished(s: SerialArena)
      requires old(ThreadsOk()) && serials == [s] + old(serials) && threads == s && heap.Valid() && unchanged(heap)
      requires s.Valid() && s.arena == this && s.next == old(threads)
      requires forall u :: u in old(serials) ==> unchanged(u) && u.owner != s.owner
      ensures ThreadsOk()
    {
      hide SerialArena.Valid, Heap.Valid;
      forall i | 0 <= i < |serials| ensures SerialOk(i) {
        assert i > 0 ==> serials[i] == old(serials)[i - 1] && old(SerialOk(i - 1));
      }
    }

    twostate lemma SpaceOfPublished(s: SerialArena)
      requires serials == [s] + old(serials)
      requires forall u: SerialArena :: u in serials ==> unchanged(u`blocks) && unchanged(u`chunks)
      requires ListsApart([s.blocks] + old(BlockLists())) && ListsApart([s.chunks] + old(ChunkLists()))
      requires Within(heap.blocks, [s.blocks] + old(BlockLists()))
      requires spaceAllocated == Total(heap.blocks, [s.blocks] + old(BlockLists()))
      ensures SpaceOk()
    {
      hide ListsApart, Within, Total;
      forall i | 0 <= i < |serials|
        ensures BlockLists()[i] == ([s.blocks] + old(BlockLists()))[i]
        ensures ChunkLists()[i] == ([s.chunks] + old(ChunkLists()))[i]
      {
        assert serials[i] in serials;
        assert i > 0 ==> serials[i] == old(serials)[i - 1];
      }
      assert BlockLists() == [s.blocks] + old(BlockLists());
      assert ChunkLists() == [s.chunks] + old(ChunkLists());
    }

    /** The SerialArenas stay valid when other blocks come into being. */
    twostate lemma StillOk()
      requires old(ThreadsOk()) && serials == old(serials) && threads == old(threads) && heap.Valid()
      requires forall i :: 0 <= i < |serials| ==> unchanged(serials[i])
      requires forall b :: b in old(heap.blocks) ==> b in heap.blocks && heap.blocks[b] == old(heap.blocks)[b]
      requires heap.chunks == old(heap.chunks)
      ensures ThreadsOk() && BlockLists() == old(BlockLists()) && ChunkLists() == old(ChunkLists())
    {
      hide AllocOk, CleanupOk, BlocksApart;
      forall i | 0 <= i < |serials| ensures SerialOk(i) {
        assert old(SerialOk(i));
        OldListed(serials[i]);
        serials[i].StaysValid();
      }
    }

    twostate lemma OldListed(s: SerialArena)
      requires old(s.Valid())
      ensures forall b :: b in old(s.blocks) ==> b in old(s.arena.heap.blocks)
      ensures forall b :: b in old(s.chunks) ==> b in old(s.arena.heap.chunks)
    {
      hide BlocksApart, RegionsOk, Accounted, ChunkPlaced, FullNodes;
    }

    /** The loop over threads_: the SerialArena of the thread. */
    method FindSerial(me: ThreadCache) returns (s: SerialArena?)
      requires Valid()
      ensures s != null ==> s in serials && s.owner == me
      ensures s == null ==> forall u :: u in serials ==> u.owner != me
    {
      hide AllocOk, CleanupOk, BlocksApart, Roomy, SpaceOk;
      s := threads;
      ghost var k := 0;
      while s != null
        invariant 0 <= k <= |serials| && s == NextSerial(k - 1)
        invariant forall i :: 0 <= i < k ==> serials[i].owner != me
        decreases |serials| - k
      {
        assert SerialOk(k);
        if s.owner == me {
          return;
        }
        s := s.next;
        k := k + 1;
      }
    }

    lemma OneForEach(s: SerialArena)
      requires Valid() && s in serials
      ensures forall u :: u in serials && u.owner == s.owner ==> u == s
    {
      hide SerialArena.Valid, Heap.Valid, Roomy, SpaceOk;
    }

    /** Another thread's cache is not affected by SerialArenas that are added. */
    twostate lemma CacheKept(tc: ThreadCache)
      requires old(Cached(tc)) && unchanged(tc) && lifecycleId == old(lifecycleId)
      requires forall u :: u in old(serials) ==> u in serials
      ensures Cached(tc)
    {
    }

    /** The next call of the thread on this arena finds the SerialArena in its cache, and if it has used another arena
        in between, and no other thread this one, through the hint. */
    predicate Remembered(serial: SerialArena, tc: ThreadCache)
      reads `hint, `lifecycleId, tc
    {
      tc.lastSerialArena == serial && tc.lastLifecycleIdSeen == lifecycleId && hint == serial
    }

    method CacheSerialArena(serial: SerialArena, tc: ThreadCache)
      requires Valid() && serial in serials && serial.owner == tc
      modifies tc, `hint
      ensures Valid() && Cached(tc) && Remembered(serial, tc)
    {
      hide SerialArena.Valid, Heap.Valid, Roomy, SpaceOk, ThreadsOk;
      tc.lastSerialArena := serial;
      tc.lastLifecycleIdSeen := lifecycleId;
      hint := serial;
    }

    method GetSerialArenaFromThreadCache(tc: ThreadCache) returns (s: SerialArena?)
      requires Valid() && Cached(tc)
      ensures s != null <==> tc.lastLifecycleIdSeen == lifecycleId
      ensures s != null ==> s in serials && s.owner == tc
    {
      hide ArenaImpl.Valid;
      s := if tc.lastLifecycleIdSeen == lifecycleId then tc.lastSerialArena else null;
    }

    /** The thread's own SerialArena, if the cache or the hint knows it. */
    method GetSerialArenaFast(tc: ThreadCache) returns (s: SerialArena?)
      requires Valid() && Cached(tc)
      ensures s != null <==> tc.lastLifecycleIdSeen == lifecycleId || (hint != null && hint.owner == tc)
      ensures s != null ==> s in serials && s.owner == tc
    {
      hide SerialArena.Valid, Heap.Valid, Roomy, SpaceOk, ThreadsOk;
      s := GetSerialArenaFromThreadCache(tc);
      if s == null && hint != null && hint.owner == tc {
        s := hint;
      }
    }

    /** Searches the list, adds a new SerialArena if the thread has none yet, and remembers it. */
    method GetSerialArenaFallback(tc: ThreadCache) returns (s: SerialArena)
      requires Valid()
      modifies this, heap, tc
      ensures Valid() && Cached(tc) && s in serials && s.owner == tc && lifecycleId == old(lifecycleId)
      ensures Remembered(s, tc)
      ensures
        if exists u :: u in old(serials) && u.owner == tc then
          serials == old(serials) && heap.blocks == old(heap.blocks) && spaceAllocated == old(spaceAllocated)
        else
          fresh(s) && serials == [s] + old(serials)
          && s.handed == [Region(s.head, s.head + BLOCK_HEADER_SIZE, SERIAL_ARENA_SIZE)] && s.registered == []
    {
      hide SerialArena.Valid, Heap.Valid, Roomy, ListsApart, Within, Total, SpaceOk, ThreadsOk;
      var found := FindSerial(tc);
      if found != null {
        s := found;
      } else {
        s := AddSerial(tc);
      }
      CacheSerialArena(s, tc);
    }

    /** The thread's one SerialArena: from its cache, the hint, the list, or new if there is none. */
    method GetSerialArena(tc: ThreadCache) returns (s: SerialArena)
      requires Valid() && Cached(tc)
      modifies this, heap, tc
      ensures Valid() && Cached(tc) && s in serials && s.owner == tc && lifecycleId == old(lifecycleId)
      ensures
        if exists u :: u in old(serials) && u.owner == tc then
          serials == old(serials) && heap.blocks == old(heap.blocks) && spaceAllocated == old(spaceAllocated)
        else
          fresh(s) && serials == [s] + old(serials)
          && s.handed == [Region(s.head, s.head + BLOCK_HEADER_SIZE, SERIAL_ARENA_SIZE)] && s.registered == []
    {
      hide ArenaImpl.Valid;
      var found := GetSerialArenaFast(tc);
      if found != null {
        s := found;
      } else {
        s := GetSerialArenaFallback(tc);
      }
    }

    /** An allocation by a thread, in the one SerialArena it has, or in a new one that is then its only one. */
    method AllocateAligned(tc: ThreadCache, n: nat) returns (p: Addr, s: SerialArena)
      requires Valid() && Cached(tc) && Aligned(n) && Fits(n)
      modifies this, heap, tc, serials
      ensures Valid() && Cached(tc) && Aligned(p) && s in serials && s.owner == tc
      ensures forall u :: u in serials && u.owner == tc ==> u == s
      ensures |s.handed| > 0 && s.handed[|s.handed| - 1] == Region(s.head, p, n)
      ensures
        if exists u :: u in old(serials) && u.owner == tc then
          serials == old(serials) && s.handed == old(s.handed) + [Region(s.head, p, n)]
        else
          fresh(s) && serials == [s] + old(serials) && |s.handed| == 2
    {
      hide ArenaImpl.Valid, Aligned, Fits;
      var found := GetSerialArenaFast(tc);
      if found != null {
        s := found;
        p := AllocateIn(s, n);
      } else {
        p, s := AllocateAlignedFallback(tc, n);
      }
      OneForEach(s);
    }

    method AllocateAlignedFallback(tc: ThreadCache, n: nat) returns (p: Addr, s: SerialArena)
      requires Valid() && Cached(tc) && Aligned(n) && Fits(n)
      modifies this, heap, tc, serials
      ensures Valid() && Cached(tc) && Aligned(p) && s in serials && s.owner == tc
      ensures |s.handed| > 0 && s.handed[|s.handed| - 1] == Region(s.head, p, n)
      ensures
        if exists u :: u in old(serials) && u.owner == tc then
          s in old(serials) && serials == old(serials) && s.handed == old(s.handed) + [Region(s.head, p, n)]
        else
          fresh(s) && serials == [s] + old(serials) && |s.handed| == 2
    {
      hide ArenaImpl.Valid, Aligned, Fits;
      s := GetSerialArena(tc);
      p := AllocateIn(s, n);
    }

    /** A cleanup registration by a thread, in the one SerialArena it has, or in a new one that is then its only one. */
    method AddCleanup(tc: ThreadCache, elem: Addr, cleaner: nat) returns (s: SerialArena)
      requires Valid() && Cached(tc)
      modifies this, heap, tc, serials
      ensures Valid() && Cached(tc) && s in serials && s.owner == tc
      ensures forall u :: u in serials && u.owner == tc ==> u == s
      ensures
        if exists u :: u in old(serials) && u.owner == tc then
          serials == old(serials) && s.registered == old(s.registered) + [CleanupNode(elem, cleaner)]
        else
          fresh(s) && serials == [s] + old(serials) && s.registered == [CleanupNode(elem, cleaner)]
    {
      hide ArenaImpl.Valid;
      var found := GetSerialArenaFast(tc);
      if found != null {
        s := found;
        AddCleanupIn(s, elem, cleaner);
      } else {
        s := AddCleanupFallback(tc, elem, cleaner);
      }
      OneForEach(s);
    }

    method AddCleanupFallback(tc: ThreadCache, elem: Addr, cleaner: nat) returns (s: SerialArena)
      requires Valid() && Cached(tc)
      modifies this, heap, tc, serials
      ensures Valid() && Cached(tc) && s in serials && s.owner == tc
      ensures
        if exists u :: u in old(serials) && u.owner == tc then
          s in old(serials) && serials == old(serials)
          && s.registered == old(s.registered) + [CleanupNode(elem, cleaner)]
        else
          fresh(s) && serials == [s] + old(serials) && s.registered == [CleanupNode(elem, cleaner)]
    {
      hide ArenaImpl.Valid;
      s := GetSerialArena(tc);
      AddCleanupIn(s, elem, cleaner);
    }

    /** Regions of two SerialArenas, each with its block header, never overlap. */
    lemma RegionsOfTwoApart(i: nat, j: nat, x: nat, y: nat)
      requires Valid() && i < j < |serials| && x < |serials[i].handed| && y < |serials[j].handed|
      ensures
        var r, q := serials[i].handed[x], serials[j].handed[y];
        && r.block != q.block && r.block in heap.blocks && q.block in heap.blocks
        && Separate(r.start, r.len, q.start, q.len)
        && Separate(r.block, BLOCK_HEADER_SIZE, q.start, q.len) && Separate(q.block, BLOCK_HEADER_SIZE, r.start, r.len)
    {
      hide CleanupOk, Accounted, Total, Within;
      assert SerialOk(i) && SerialOk(j);
      var r, q := serials[i].handed[x], serials[j].handed[y];
      assert Placed(heap.blocks, serials[i].blocks, serials[i].ptr, r);
      assert Placed(heap.blocks, serials[j].blocks, serials[j].ptr, q);
      assert BlockLists()[i] == serials[i].blocks && BlockLists()[j] == serials[j].blocks;
      assert Separate(r.block, heap.blocks[r.block].size, q.block, heap.blocks[q.block].size);
    }

    /** The blocks of all SerialArenas but the k-th are as they were. */
    twostate predicate BlocksElsewhere(k: nat)
      reads `serials, heap, serials
    {
      forall i, b :: 0 <= i < |serials| && i != k && b in serials[i].blocks ==>
        b in old(heap.blocks) && b in heap.blocks && heap.blocks[b] == old(heap.blocks)[b]
    }

    /** The blocks after one SerialArena has allocated from its head block, or from a new one. */
    twostate lemma BlocksOfOne(k: nat)
      requires old(Valid()) && k < |serials| && serials == old(serials)
      requires forall i :: 0 <= i < |serials| && i != k ==> unchanged(serials[i])
      requires old(serials[k].blocks) != [] && old(serials[k].head) == old(serials[k].blocks[0])
      requires
        var s := serials[k];
        if s.blocks == old(s.blocks) then heap.blocks == old(heap.blocks) && spaceAllocated == old(spaceAllocated)
        else
          && s.blocks == [s.head] + old(s.blocks) && old(spaceAllocated) <= spaceAllocated
          && NewHead(old(heap.blocks), heap.blocks, old(s.head), old(s.ptr),
                     s.head, spaceAllocated - old(spaceAllocated))
      ensures ListsApart(BlockLists()) && Within(heap.blocks, BlockLists())
      ensures spaceAllocated == Total(heap.blocks, BlockLists())
      ensures Roomy(heap.blocks, initialBlock)
      ensures BlocksElsewhere(k)
    {
      hide SerialArena.Valid, NewBlockSize, ListsApart, Total, NewHead, Heap.Valid, ThreadsOk;
      var s, lists := serials[k], old(BlockLists());
      if s.blocks == old(s.blocks) {
        assert BlockLists() == lists;
      } else {
        assert BlockLists() == lists[k := [s.head] + lists[k]];
        ListsGrow(old(heap.blocks), heap.blocks, lists, k, old(s.ptr), s.head, spaceAllocated - old(spaceAllocated));
      }
    }

    /** The chunks after one SerialArena has written to its newest one, perhaps a new one. */
    twostate lemma ChunksOfOne(k: nat)
      requires old(Valid()) && k < |serials| && serials == old(serials)
      requires forall i :: 0 <= i < |serials| && i != k ==> unchanged(serials[i])
      requires serials[k].Valid() && serials[k].arena == this && ListsApart(BlockLists()) && heap.Valid()
      requires BlocksElsewhere(k)
      requires forall i, b :: 0 <= i < |serials| && b in old(serials[i].chunks) ==> b in old(heap.chunks)
      requires serials[k].chunks != [] && OthersKept(old(heap.chunks), heap.chunks, serials[k].chunks[0])
      requires
        var s := serials[k];
        || s.chunks == old(s.chunks)
        || (s.chunks[1..] == old(s.chunks) && s.handed != [] && s.handed[|s.handed| - 1].start == s.chunks[0]
            && 0 < s.handed[|s.handed| - 1].len)
      ensures ListsApart(ChunkLists())
      ensures forall i, b :: 0 <= i < |serials| && i != k && b in serials[i].chunks ==>
        b in old(heap.chunks) && b in heap.chunks && heap.chunks[b] == old(heap.chunks)[b]
    {
      hide SerialArena.Valid, ListsApart, Within, Total, Heap.Valid, ThreadsOk, Roomy;
      var s, lists := serials[k], old(ChunkLists());
      if s.chunks == old(s.chunks) {
        assert ChunkLists() == lists;
        ApartAt(lists, k, s.chunks[0]);
      } else {
        NewChunkForeign(k);
      }
    }

    lemma SerialAt(s: SerialArena) returns (k: nat)
      requires Valid() && s in serials
      ensures k < |serials| && serials[k] == s && forall i :: 0 <= i < |serials| && i != k ==> serials[i] != s
      ensures s.arena == this && s.Valid() && s.blocks != [] && s.head == s.blocks[0]
      ensures s.cleanupPtr < s.cleanupLimit ==> s.chunks != []
      ensures forall i, b :: 0 <= i < |serials| && b in serials[i].chunks ==> b in heap.chunks
    {
      hide SerialArena.Valid, Heap.Valid, Roomy, SpaceOk;
      AllListed();
      k :| 0 <= k < |serials| && serials[k] == s;
      assert SerialOk(k);
    }

    twostate lemma ChunksAfter(k: nat)
      requires old(Valid()) && k < |serials| && serials == old(serials)
      requires forall i :: 0 <= i < |serials| && i != k ==> unchanged(serials[i])
      requires serials[k].Valid() && serials[k].arena == this && ListsApart(BlockLists()) && heap.Valid()
      requires BlocksElsewhere(k)
      requires forall i, b :: 0 <= i < |serials| && b in old(serials[i].chunks) ==> b in old(heap.chunks)
      requires
        var s := serials[k];
        || (s.chunks == old(s.chunks) && heap.chunks == old(heap.chunks))
        || (s.chunks != [] && OthersKept(old(heap.chunks), heap.chunks, s.chunks[0])
            && (s.chunks == old(s.chunks)
              || (s.chunks[1..] == old(s.chunks) && s.handed != [] && s.handed[|s.handed| - 1].start == s.chunks[0]
                  && 0 < s.handed[|s.handed| - 1].len)))
      ensures ListsApart(ChunkLists())
      ensures forall i, b :: 0 <= i < |serials| && i != k && b in serials[i].chunks ==>
        b in old(heap.chunks) && b in heap.chunks && heap.chunks[b] == old(heap.chunks)[b]
    {
      hide SerialArena.Valid, OthersKept, ListsApart, Within, Total, Heap.Valid, Roomy, ThreadsOk;
      if heap.chunks == old(heap.chunks) && serials[k].chunks == old(serials[k].chunks) {
        assert ChunkLists() == old(ChunkLists());
      } else {
        ChunksOfOne(k);
      }
    }

    /** What a call leaves that allocates in one SerialArena, perhaps for a chunk. */
    twostate lemma AfterOne(k: nat)
      requires old(Valid()) && k < |serials| && serials == old(serials) && threads == old(threads) && hint == old(hint)
      requires forall i :: 0 <= i < |serials| && i != k ==> unchanged(serials[i])
      requires heap.Valid() && serials[k].Valid() && serials[k].arena == this
      requires serials[k].next == old(serials[k].next)
      requires old(serials[k].blocks) != [] && old(serials[k].head) == old(serials[k].blocks[0])
      requires
        var s := serials[k];
        if s.blocks == old(s.blocks) then heap.blocks == old(heap.blocks) && spaceAllocated == old(spaceAllocated)
        else
          && s.blocks == [s.head] + old(s.blocks) && old(spaceAllocated) <= spaceAllocated
          && NewHead(old(heap.blocks), heap.blocks, old(s.head), old(s.ptr),
                     s.head, spaceAllocated - old(spaceAllocated))
      requires forall i, b :: 0 <= i < |serials| && b in old(serials[i].chunks) ==> b in old(heap.chunks)
      requires
        var s := serials[k];
        || (s.chunks == old(s.chunks) && heap.chunks == old(heap.chunks))
        || (s.chunks != [] && OthersKept(old(heap.chunks), heap.chunks, s.chunks[0])
            && (s.chunks == old(s.chunks)
              || (s.chunks[1..] == old(s.chunks) && s.handed != [] && s.handed[|s.handed| - 1].start == s.chunks[0]
                  && 0 < s.handed[|s.handed| - 1].len)))
      ensures Valid()
    {
      hide SerialArena.Valid, NewHead, OthersKept, ListsApart, Within, Total, Heap.Valid, Roomy, ThreadsOk;
      BlocksOfOne(k);
      ChunksAfter(k);
      OthersStayValid(k);
    }

    /** Any thread's allocation keeps everything that the other threads have. */
    method AllocateIn(s: SerialArena, n: nat) returns (p: Addr)
      requires Valid() && s in serials && Aligned(n) && Fits(n)
      modifies this`spaceAllocated, heap, s
      ensures Valid() && Aligned(p)
      ensures s.handed == old(s.handed) + [Region(s.head, p, n)]
    {
      hide ArenaImpl.Valid, AllocOk, CleanupOk, BlocksApart, NewBlockSize, NewHead, OthersKept, Aligned, Fits;
      ghost var k := SerialAt(s);
      p := s.AllocateAligned(n);
      AfterOne(k);
    }

    /** Any thread's cleanup registration likewise. */
    method AddCleanupIn(s: SerialArena, elem: Addr, cleaner: nat)
      requires Valid() && s in serials
      modifies this`spaceAllocated, heap, s
      ensures Valid()
      ensures s.registered == old(s.registered) + [CleanupNode(elem, cleaner)]
    {
      hide ArenaImpl.Valid, AllocOk, CleanupOk, BlocksApart, NewBlockSize, NewHead, OthersKept, ChunkSizeOf;
      ghost var k := SerialAt(s);
      s.AddCleanup(elem, cleaner);
      AfterOne(k);
    }

    lemma AllSerials()
      requires Valid()
      ensures threads == NextSerial(-1)
      ensures forall i :: 0 <= i < |serials| ==> serials[i].next == NextSerial(i) && serials[i].Valid()
    {
      hide SerialArena.Valid;
      forall i | 0 <= i < |serials| ensures serials[i].next == NextSerial(i) && serials[i].Valid() {
        assert SerialOk(i);
      }
    }

    lemma NoCleanups()
      ensures serials[0..] == serials && AllCleanups(serials[|serials|..]) == []
    {
    }

    lemma NextCleanups(ran: seq<CleanupNode>, k: nat)
      requires k < |serials|
      ensures
        ran + AllCleanups(serials[k..]) == (ran + Reverse(serials[k].registered)) + AllCleanups(serials[k + 1..])
    {
      assert serials[k..][1..] == serials[k + 1..];
    }

    /** CleanupList over the whole list. */
    method CleanupList() returns (ran: seq<CleanupNode>)
      requires Valid()
      ensures ran == AllCleanups(serials)
    {
      hide ArenaImpl.Valid, SerialArena.Valid, Reverse, ArenaImpl.AllCleanups;
      AllSerials();
      NoCleanups();
      ran := [];
      var serial := threads;
      ghost var k := 0;
      while serial != null
        invariant 0 <= k <= |serials| && serial == NextSerial(k - 1)
        invariant ran + AllCleanups(serials[k..]) == AllCleanups(serials)
        decreases |serials| - k
      {
        NextCleanups(ran, k);
        var cleanups := serial.CleanupList();
        ran := ran + cleanups;
        serial := serial.next;
        k := k + 1;
      }
    }

    /** What is in use in all SerialArenas of a list. */
    ghost function UsedBy(all: seq<SerialArena>): nat
      requires forall s :: s in all ==> s.handed != []
      reads all
    {
      if all == [] then 0 else SumLen(all[0].handed[1..]) + UsedBy(all[1..])
    }

    lemma NextUsed(k: nat)
      requires k < |serials| && forall s :: s in serials ==> s.handed != []
      ensures UsedBy(serials[k..]) == SumLen(serials[k].handed[1..]) + UsedBy(serials[k + 1..])
    {
      assert serials[k..][1..] == serials[k + 1..];
    }

    /** From SerialArena k on, what is in use, every block header and every SerialArena itself fit in the blocks. */
    lemma {:induction false} UsedFits(k: nat)
      requires Valid() && k <= |serials|
      ensures Within(heap.blocks, BlockLists()[k..])
      ensures forall s :: s in serials ==> s.handed != []
      ensures UsedBy(serials[k..]) + Overhead(BlockLists()[k..]) <= Total(heap.blocks, BlockLists()[k..])
      decreases |serials| - k
    {
      hide CleanupOk, Heap.Valid, Roomy, ListsApart, SumLen, RegionsOk, BlocksOk;
      var lists := BlockLists();
      forall s | s in serials ensures s.handed != [] {
        var i :| 0 <= i < |serials| && serials[i] == s;
        assert SerialOk(i);
      }
      if k < |serials| {
        UsedFits(k + 1);
        NextUsed(k);
        assert SerialOk(k);
        var s := serials[k];
        UsedInBlocks(heap.blocks, s.blocks, s.ptr, s.limit, s.handed);
        assert lists[k..][0] == s.blocks && lists[k..][1..] == lists[k + 1..];
      }
    }

    /** The sum over all SerialArenas; with all overhead it is at most the space allocated. */
    method SpaceUsed() returns (used: int)
      requires Valid()
      ensures (forall s :: s in serials ==> s.handed != []) && used == UsedBy(serials)
      ensures 0 <= used && used + Overhead(BlockLists()) <= spaceAllocated
    {
      hide ArenaImpl.Valid, SerialArena.Valid, SumLen, ArenaImpl.UsedBy, Overhead;
      AllSerials();
      UsedAtEnds();
      used := 0;
      var serial := threads;
      ghost var k := 0;
      while serial != null
        invariant 0 <= k <= |serials| && serial == NextSerial(k - 1)
        invariant used + UsedBy(serials[k..]) == UsedBy(serials)
        decreases |serials| - k
      {
        NextUsed(k);
        var more := serial.SpaceUsed();
        used := used + more;
        serial := serial.next;
        k := k + 1;
      }
    }

    lemma UsedAtEnds()
      requires Valid()
      ensures serials[0..] == serials && forall s :: s in serials ==> s.handed != []
      ensures UsedBy(serials[|serials|..]) == 0
      ensures UsedBy(serials) + Overhead(BlockLists()) <= spaceAllocated
    {
      hide SerialArena.Valid, Heap.Valid, Roomy, ListsApart, Total, Overhead, ThreadsOk;
      UsedFits(0);
      assert BlockLists()[0..] == BlockLists();
    }

    /** FreeBlocks: each block goes back once, the caller's initial block stays. */
    method FreeBlocks() returns (total: nat)
      requires Valid()
      modifies heap
      ensures heap.Valid() && heap.chunks == old(heap.chunks) && total == old(spaceAllocated)
      ensures Left(old(heap.blocks), heap.blocks, OnLists(old(heap.blocks), old(BlockLists())), initialBlock)
    {
      hide AllocOk, CleanupOk, BlocksApart, Total, Within, ListsApart, InFirst, Left, SumSize, Chain, OnLists;
      ghost var m, lists, k, gone := heap.blocks, BlockLists(), 0, {};
      total := 0;
      var serial := threads;
      AllChains();
      FreeStart(m, lists, initialBlock);
      while serial != null
        invariant 0 <= k <= |serials| && serial == NextSerial(k - 1)
        invariant heap.Valid() && heap.chunks == old(heap.chunks)
        invariant Left(m, heap.blocks, gone, initialBlock)
        invariant forall b :: b in gone <==> InFirst(lists, k, b)
        invariant Within(m, lists[k..]) && total + Total(m, lists[k..]) == spaceAllocated
        decreases |serials| - k
      {
        FreeStep(m, heap.blocks, lists, k, gone, initialBlock);
        TotalStep(m, lists, k);
        ChainEnd(heap.blocks, lists[k]);
        ghost var before := heap.blocks;
        assert serial == serials[k] && serial.blocks == lists[k];
        var next := serial.Next();
        var size := SerialArena.Free(serial, initialBlock, heap);
        LeftTrans(m, before, heap.blocks, gone, Members(lists[k]), initialBlock);
        total := total + size;
        serial := next;
        gone := gone + Members(lists[k]);
        k := k + 1;
      }
      FreeEnd(m, heap.blocks, lists, gone, initialBlock);
    }

    /** Runs every cleanup, frees every block but the initial one, and starts afresh. */
    method Reset(tc: ThreadCache, id: int) returns (total: nat, ran: seq<CleanupNode>)
      requires Valid() && tc.lastLifecycleIdSeen != id
      modifies this, heap, tc
      ensures Valid() && Cached(tc) && lifecycleId == id
      ensures total == old(spaceAllocated) && ran == old(AllCleanups(serials))
      ensures BlockLists() == if initialBlock.Some? then [[initialBlock.value]] else []
      ensures forall b :: b in heap.blocks <==>
        b in old(heap.blocks) && (Some(b) == initialBlock || b !in OnLists(old(heap.blocks), old(BlockLists())))
    {
      hide AllocOk, CleanupOk, BlocksApart, ListsApart, Within, Total, OnLists;
      ran := CleanupList();
      total := FreeBlocks();
      Init(tc, id);
    }

    ghost function AllCleanups(all: seq<SerialArena>): seq<CleanupNode>
      reads all
    {
      if all == [] then [] else Reverse(all[0].registered) + AllCleanups(all[1..])
    }

    /** The cleanups of the first SerialArena run first, the newest before the others. */
    lemma FirstRunsFirst(all: seq<SerialArena>)
      requires all != []
      ensures
        var ran, n := AllCleanups(all), |all[0].registered|;
        && n <= |ran| && (forall j :: 0 <= j < n ==> ran[j] == all[0].registered[n - 1 - j])
        && ran[n..] == AllCleanups(all[1..])
    {
    }

    lemma AllListed()
      requires Valid()
      ensures forall i :: 0 <= i < |serials| ==>
        && serials[i].blocks != [] && serials[i].head == serials[i].blocks[0]
        && (serials[i].cleanupPtr < serials[i].cleanupLimit ==> serials[i].chunks != [])
        && (forall b :: b in serials[i].blocks ==> b in heap.blocks)
        && forall b :: b in serials[i].chunks ==> b in heap.chunks
    {
      hide AllocOk, CleanupOk, BlocksApart;
      forall i | 0 <= i < |serials|
        ensures serials[i].blocks != [] && serials[i].head == serials[i].blocks[0]
        ensures serials[i].cleanupPtr < serials[i].cleanupLimit ==> serials[i].chunks != []
        ensures forall b :: b in serials[i].blocks ==> b in heap.blocks
        ensures forall b :: b in serials[i].chunks ==> b in heap.chunks
      {
        assert SerialOk(i);
        serials[i].Listed();
      }
    }

    lemma AllChains()
      requires Valid()
      ensures forall i :: 0 <= i < |serials| ==>
        && serials[i].arena == this && serials[i].next == NextSerial(i)
        && serials[i].blocks != [] && serials[i].head == serials[i].blocks[0]
        && Chain(heap.blocks, serials[i].blocks)
    {
      forall i | 0 <= i < |serials|
        ensures serials[i].arena == this && serials[i].next == NextSerial(i)
        ensures serials[i].blocks != [] && serials[i].head == serials[i].blocks[0]
        ensures Chain(heap.blocks, serials[i].blocks)
      {
        assert SerialOk(i);
      }
    }

    /** A chunk that one thread has just allocated is no other thread's chunk. */
    twostate lemma NewChunkForeign(k: nat)
      requires old(Valid()) && k < |serials| && serials == old(serials)
      requires serials[k].Valid() && serials[k].arena == this
      requires ListsApart(BlockLists()) && heap.Valid()
      requires forall i :: 0 <= i < |serials| && i != k ==> unchanged(serials[i])
      requires BlocksElsewhere(k)
      requires serials[k].chunks != [] && serials[k].chunks[1..] == old(serials[k].chunks)
      requires serials[k].handed != [] && serials[k].handed[|serials[k].handed| - 1].start == serials[k].chunks[0]
      requires 0 < serials[k].handed[|serials[k].handed| - 1].len
      ensures ListsApart(ChunkLists())
      ensures forall i :: 0 <= i < |serials| && i != k ==> serials[k].chunks[0] !in serials[i].chunks
    {
      hide AllocOk, CleanupOk, BlocksApart, ListsApart, Within, Total, Roomy;
      forall i | 0 <= i < |serials| && i != k ensures serials[k].chunks[0] !in serials[i].chunks {
        assert old(SerialOk(i));
        ListsDisjoint(BlockLists(), i, k);
        serials[i].ForeignChunk(serials[k]);
      }
      ApartCons(old(ChunkLists()), ChunkLists(), k, serials[k].chunks[0]);
    }

    /** What a call on one SerialArena leaves alone. */
    twostate lemma OthersStayValid(k: nat)
      requires old(Valid()) && heap.Valid() && k < |serials| && serials == old(serials) && threads == old(threads)
      requires forall i :: 0 <= i < |serials| && i != k ==> unchanged(serials[i])
      requires serials[k].Valid() && serials[k].next == old(serials[k].next)
      requires BlocksElsewhere(k)
      requires forall i, b :: 0 <= i < |serials| && i != k && b in serials[i].chunks ==>
          b in old(heap.chunks) && b in heap.chunks && heap.chunks[b] == old(heap.chunks)[b]
      ensures ThreadsOk()
    {
      hide AllocOk, CleanupOk, BlocksApart, ListsApart, Within, Total;
      forall i | 0 <= i < |serials| ensures SerialOk(i) {
        assert old(SerialOk(i));
        if i != k {
          serials[i].StaysValid();
        }
      }
    }
  }

  /** The caller's initial block, if any, holds a header and a SerialArena. */
  ghost predicate Roomy(m: Blocks, initial: Option<Addr>) {
    initial.Some? ==> initial.value in m && BLOCK_HEADER_SIZE + SERIAL_ARENA_SIZE <= m[initial.value].size
  }

  class SerialArena {
    const arena: ArenaImpl
    const owner: ThreadCache
    var head: Addr
    var ptr: Addr
    var limit: Addr
    var cleanup: Option<Addr>
    var cleanupPtr: nat    // index into the nodes of the newest chunk
    var cleanupLimit: nat
    var next: SerialArena?

    ghost var blocks: seq<Addr>             // newest first
    ghost var chunks: seq<Addr>             // newest first
    ghost var handed: seq<Region>           // everything handed out, oldest first
    ghost var registered: seq<CleanupNode>  // every cleanup, oldest first

    /** SerialArena::New in a fresh block: the arena itself is the first region. */
    constructor (b: Addr, owner: ThreadCache, arena: ArenaImpl)
      requires arena.heap.Valid() && b in arena.heap.blocks
      requires arena.heap.blocks[b].pos == BLOCK_HEADER_SIZE && arena.heap.blocks[b].next == None
      requires BLOCK_HEADER_SIZE + SERIAL_ARENA_SIZE <= arena.heap.blocks[b].size
      modifies arena.heap
      ensures Valid() && this.arena == arena && this.owner == owner && next == null
      ensures blocks == [b] && chunks == [] && registered == []
      ensures handed == [Region(b, b + BLOCK_HEADER_SIZE, SERIAL_ARENA_SIZE)]
      ensures arena.heap.chunks == old(arena.heap.chunks)
      ensures arena.heap.blocks == old(arena.heap.blocks)[b :=
        old(arena.heap.blocks)[b].(pos := BLOCK_HEADER_SIZE + SERIAL_ARENA_SIZE)]
    {
      hide AllocOk, CleanupOk, Aligned, BlocksApart;
      this.arena, this.owner, this.next := arena, owner, null;
      head := b;
      ptr := b + BLOCK_HEADER_SIZE + SERIAL_ARENA_SIZE;
      limit := b + arena.heap.blocks[b].size;
      cleanup, cleanupPtr, cleanupLimit := None, 0, 0;
      blocks, chunks, registered := [b], [], [];
      handed := [Region(b, b + BLOCK_HEADER_SIZE, SERIAL_ARENA_SIZE)];
      new;
      arena.heap.SetHeader(b, arena.heap.blocks[b].(pos := BLOCK_HEADER_SIZE + SERIAL_ARENA_SIZE));
      NewArena(arena.heap.blocks, arena.heap.chunks, b);
    }

    ghost predicate Valid()
      reads `head, `ptr, `limit, `cleanup, `cleanupPtr, `cleanupLimit
      reads `blocks, `chunks, `handed, `registered, arena.heap
    {
      && arena.heap.Valid()
      && AllocOk(arena.heap.blocks, blocks, ptr, limit, handed)
      && head == blocks[0]
      && CleanupOk(arena.heap.chunks, chunks, cleanupPtr, cleanupLimit, registered, handed)
      && cleanup == First(chunks)
      && handed != [] && handed[0].len == SERIAL_ARENA_SIZE
    }

    lemma Listed()
      requires Valid()
      ensures forall b :: b in blocks ==> b in arena.heap.blocks
      ensures forall b :: b in chunks ==> b in arena.heap.chunks
      ensures blocks != [] && head == blocks[0] && head <= ptr
      ensures cleanupPtr < cleanupLimit ==> chunks != []
    {
      hide BlocksApart, RegionsOk, Accounted, ChunkPlaced, FullNodes;
    }

    /** Validity depends only on the SerialArena and its own blocks and chunks. */
    twostate lemma StaysValid()
      requires old(Valid()) && unchanged(this) && arena.heap.Valid()
      requires forall b :: b in blocks ==>
        b in old(arena.heap.blocks) && b in arena.heap.blocks && arena.heap.blocks[b] == old(arena.heap.blocks)[b]
      requires forall b :: b in chunks ==>
        b in old(arena.heap.chunks) && b in arena.heap.chunks && arena.heap.chunks[b] == old(arena.heap.chunks)[b]
      ensures Valid()
    {
      hide AllocOk, CleanupOk, BlocksApart;
      AllocFrame(old(arena.heap.blocks), arena.heap.blocks, blocks, ptr, limit, handed);
      CleanupFrame(
        old(arena.heap.chunks), arena.heap.chunks, chunks, cleanupPtr, cleanupLimit, registered, handed);
    }

    /** The chunk that `s` has just allocated is not one of this SerialArena's. */
    twostate lemma ForeignChunk(s: SerialArena)
      requires old(Valid()) && unchanged(this)
      requires s.arena == arena && s.Valid() && s.chunks != []
      requires forall b :: b in blocks ==> b !in s.blocks
      requires forall b :: b in blocks ==>
        b in old(arena.heap.blocks) && b in arena.heap.blocks && arena.heap.blocks[b] == old(arena.heap.blocks)[b]
      requires s.handed[|s.handed| - 1].start == s.chunks[0] && 0 < s.handed[|s.handed| - 1].len
      ensures s.chunks[0] !in chunks
    {
      hide AllocOk, CleanupOk, BlocksApart;
      AllocFrame(old(arena.heap.blocks), arena.heap.blocks, blocks, ptr, limit, handed);
      ChunkElsewhere(arena.heap.blocks, s.blocks, s.ptr, s.limit, s.handed, blocks, ptr, limit, handed,
                     old(arena.heap.chunks), chunks, cleanupPtr, cleanupLimit, registered);
    }

    /** The block that holds this SerialArena has not been freed. */
    ghost predicate Alive()
      reads `blocks, arena.heap
    {
      blocks != [] && blocks[|blocks| - 1] in arena.heap.blocks
    }

    function Next(): SerialArena?
      requires Alive()
      reads this, arena.heap
    {
      next
    }

    function Head(): Addr
      requires Alive()
      reads this, arena.heap
    {
      head
    }

    /** Frees the chain of blocks, the last of which holds the SerialArena itself. */
    static method Free(serial: SerialArena, initialBlock: Option<Addr>, heap: Heap) returns (total: nat)
      requires heap.Valid() && serial.arena.heap == heap && serial.Alive()
      requires Chain(heap.blocks, serial.blocks) && serial.head == serial.blocks[0]
      modifies heap
      ensures heap.Valid() && heap.chunks == old(heap.chunks)
      ensures total == SumSize(old(heap.blocks), serial.blocks)
      ensures Left(old(heap.blocks), heap.blocks, Members(serial.blocks), initialBlock)
    {
      hide BlocksApart, Left, Members, SumSize;
      ghost var m, l, k := heap.blocks, serial.blocks, 0;
      total := 0;
      var b := Some(serial.Head());
      ChainStart(m, l, initialBlock);
      while b.Some?
        invariant 0 <= k <= |l| && b == First(l[k..])
        invariant heap.Valid() && heap.chunks == old(heap.chunks)
        invariant total + SumSize(m, l[k..]) == SumSize(m, l)
        invariant Left(m, heap.blocks, Members(l[..k]), initialBlock)
        decreases |l| - k
      {
        ChainStep(m, heap.blocks, l, k, initialBlock);
        LeftOne(m, heap.blocks, l, k, initialBlock);
        var nextBlock := heap.blocks[b.value].next;
        total := total + heap.blocks[b.value].size;
        if b != initialBlock {
          heap.BlockDealloc(b.value, heap.blocks[b.value].size);
        }
        b := nextBlock;
        k := k + 1;
      }
      ChainDone(m, l, k);
    }

    function HasSpace(n: nat): bool
      reads this
    {
      n <= limit - ptr
    }

    method AllocateAligned(n: nat) returns (p: Addr)
      requires Valid() && Aligned(n) && Fits(n)
      modifies this, arena.heap, arena`spaceAllocated
      ensures Valid() && Aligned(p)
      ensures handed == old(handed) + [Region(head, p, n)]
      ensures Grown(n)
      ensures if old(ptr) + n <= old(limit) then head == old(head) && p == old(ptr) && blocks == old(blocks)
              else blocks == [head] + old(blocks) && p == head + BLOCK_HEADER_SIZE
      ensures ptr == p + n && (blocks == old(blocks) ==> limit == old(limit))
      decreases if HasSpace(n) then 0 else 2
    {
      hide Aligned, AllocOk, CleanupOk, BlocksApart, NewHead, NewBlockSize;
      if !HasSpace(n) {
        p := AllocateAlignedFallback(n);
        return;
      }
      p := ptr;
      HeadFacts(arena.heap.blocks, blocks, ptr, limit, handed);
      BumpKeeps(arena.heap.blocks, blocks, ptr, limit, handed, n);
      HandedKeeps(arena.heap.chunks, chunks, cleanupPtr, cleanupLimit, registered, handed, Region(head, p, n));
      ptr := ptr + n;
      handed := handed + [Region(head, p, n)];
    }

    /** Enters AllocateAligned once more, now with room for the request. */
    method AllocateAlignedFallback(n: nat) returns (p: Addr)
      requires Valid() && Aligned(n) && Fits(n) && !HasSpace(n)
      modifies this, arena.heap, arena`spaceAllocated
      ensures Valid() && Aligned(p)
      ensures handed == old(handed) + [Region(head, p, n)]
      ensures Grown(n)
      ensures blocks == [head] + old(blocks) && p == head + BLOCK_HEADER_SIZE && ptr == p + n
      decreases 1
    {
      hide AllocOk, CleanupOk, Aligned, NewBlockSize, BlocksApart, Fits, NewHead, First, Heap.Valid, BlocksOk,
        Accounted, SumPos, Chain, SumLen, Placed, NextOf;
      HeadFacts(arena.heap.blocks, blocks, ptr, limit, handed);
      ghost var m := arena.heap.blocks;
      var pos := arena.heap.blocks[head].size - (limit - ptr);
      assert pos == ptr - head;
      arena.heap.SetHeader(head, arena.heap.blocks[head].(pos := pos));
      head := arena.NewBlock(Some(head), n);
      ghost var size := arena.heap.blocks[head].size;
      NewHeadMade(m, arena.heap.blocks, blocks[0], ptr, head, size);
      ptr := head + arena.heap.blocks[head].pos;
      limit := head + arena.heap.blocks[head].size;
      GrowKeeps(m, arena.heap.blocks, blocks, old(ptr), old(limit), handed, head, size);
      blocks := [head] + blocks;
      p := AllocateAligned(n);
    }

    /** Allocates only when the head block has room. */
    method MaybeAllocateAligned(n: nat) returns (out: Option<Addr>)
      requires Valid() && Aligned(n)
      modifies this
      ensures Valid()
      ensures out.Some? == (old(ptr) + n <= limit) && limit == old(limit) && head == old(head) && blocks == old(blocks)
      ensures out.Some? ==> out.value == old(ptr)
      ensures out.Some? ==> Aligned(out.value) && handed == old(handed) + [Region(head, out.value, n)]
      ensures out.None? ==> ptr == old(ptr) && handed == old(handed)
      ensures chunks == old(chunks) && registered == old(registered) && next == old(next)
    {
      hide Aligned, AllocOk, CleanupOk, BlocksApart, NewHead, NewBlockSize;
      if !HasSpace(n) {
        return None;
      }
      out := Some(ptr);
      HeadFacts(arena.heap.blocks, blocks, ptr, limit, handed);
      BumpKeeps(arena.heap.blocks, blocks, ptr, limit, handed, n);
      HandedKeeps(arena.heap.chunks, chunks, cleanupPtr, cleanupLimit, registered, handed, Region(head, ptr, n));
      handed := handed + [Region(head, ptr, n)];
      ptr := ptr + n;
    }

    /** What one allocation of n bytes does, apart from handing out the region. */
    twostate predicate Grown(n: nat)
      reads this, arena.heap, arena
    {
      && next == old(next) && cleanup == old(cleanup) && chunks == old(chunks)
      && cleanupPtr == old(cleanupPtr) && cleanupLimit == old(cleanupLimit)
      && registered == old(registered) && arena.heap.chunks == old(arena.heap.chunks)
      && BlocksGrown(n)
    }

    method AddCleanup(elem: Addr, cleaner: nat)
      requires Valid()
      modifies this, arena.heap, arena`spaceAllocated
      ensures Valid()
      ensures registered == old(registered) + [CleanupNode(elem, cleaner)]
      ensures next == old(next)
      ensures
        if old(cleanupPtr) < old(cleanupLimit) then
          && blocks == old(blocks) && handed == old(handed) && chunks == old(chunks)
          && arena.heap.blocks == old(arena.heap.blocks) && arena.spaceAllocated == old(arena.spaceAllocated)
          && OthersKept(old(arena.heap.chunks), arena.heap.chunks, chunks[0])
        else
          var bytes := ChunkSizeOf(NextChunkSize(if old(chunks) == [] then None else Some(old(cleanupLimit))));
          && |chunks| == |old(chunks)| + 1 && chunks[1..] == old(chunks)
          && handed == old(handed) + [Region(head, chunks[0], bytes)]
          && OthersKept(old(arena.heap.chunks), arena.heap.chunks, chunks[0])
          && BlocksGrown(bytes)
      decreases if cleanupPtr < cleanupLimit then 0 else 2
    {
      hide AllocOk, CleanupOk, Aligned, BlocksApart, NewHead, NewBlockSize, ChunkSizeOf;
      if cleanupPtr == cleanupLimit {
        AddCleanupFallback(elem, cleaner);
        return;
      }
      NewestFacts(arena.heap.chunks, chunks, cleanupPtr, cleanupLimit, registered, handed);
      NodeWritten(arena.heap.chunks, chunks, cleanupPtr, cleanupLimit, registered, handed, CleanupNode(elem, cleaner));
      var chunk := arena.heap.chunks[cleanup.value];
      arena.heap.chunks := arena.heap.chunks[cleanup.value :=
        chunk.(nodes := chunk.nodes[cleanupPtr := CleanupNode(elem, cleaner)])];
      cleanupPtr := cleanupPtr + 1;
      registered := registered + [CleanupNode(elem, cleaner)];
    }

    /** The blocks are as after one allocation of n bytes. */
    twostate predicate BlocksGrown(n: nat)
      reads this, arena.heap, arena
    {
      if old(HasSpace(n)) then
        && blocks == old(blocks) && arena.heap.blocks == old(arena.heap.blocks)
        && arena.spaceAllocated == old(arena.spaceAllocated)
      else
        && blocks == [head] + old(blocks)
        && old(head) in old(arena.heap.blocks)
        && var size := NewBlockSize(
             Some(old(arena.heap.blocks)[old(head)].size), arena.startBlockSize, arena.maxBlockSize, n);
          && NewHead(old(arena.heap.blocks), arena.heap.blocks, old(head), old(ptr), head, size)
          && arena.spaceAllocated == old(arena.spaceAllocated) + size
    }

    method AddCleanupFallback(elem: Addr, cleaner: nat)
      requires Valid() && cleanupPtr == cleanupLimit
      modifies this, arena.heap, arena`spaceAllocated
      ensures Valid()
      ensures registered == old(registered) + [CleanupNode(elem, cleaner)]
      ensures next == old(next)
      ensures
        var bytes := ChunkSizeOf(NextChunkSize(if old(chunks) == [] then None else Some(old(cleanupLimit))));
        && |chunks| == |old(chunks)| + 1 && chunks[1..] == old(chunks)
        && handed == old(handed) + [Region(head, chunks[0], bytes)]
        && OthersKept(old(arena.heap.chunks), arena.heap.chunks, chunks[0])
        && BlocksGrown(bytes)
      decreases 1
    {
      hide AllocOk, CleanupOk, Heap.Valid, NewHead, NewBlockSize, ChunkSizeOf, NextChunkSize;
      AddChunk();
      AddCleanup(elem, cleaner);
    }

    /** The chunk goes into the region just handed out. */
    lemma PushedChunk(was: seq<Region>, list: Addr, chunk: CleanupChunk)
      requires Valid() && handed == was + [Region(head, list, ChunkSizeOf(chunk.size))]
      requires CleanupOk(arena.heap.chunks, chunks, cleanupPtr, cleanupLimit, registered, was)
      requires cleanupPtr == cleanupLimit && chunk.next == First(chunks) && |chunk.nodes| == chunk.size
      requires chunk.size == NextChunkSize(if chunks == [] then None else Some(cleanupLimit))
      ensures list !in chunks
      ensures CleanupOk(arena.heap.chunks[list := chunk], [list] + chunks, 0, chunk.size, registered, handed)
    {
      hide CleanupOk;
      AllocRegions(arena.heap.blocks, blocks, ptr, limit, handed);
      ChunkPushed(arena.heap.chunks, chunks, cleanupPtr, cleanupLimit, registered, was,
                  handed[|was|], chunk, arena.heap.blocks, blocks, ptr);
    }

    /** Allocates the next chunk of cleanup nodes. */
    method AddChunk()
      requires Valid() && cleanupPtr == cleanupLimit
      modifies this, arena.heap, arena`spaceAllocated
      ensures Valid() && registered == old(registered) && next == old(next) && cleanupPtr < cleanupLimit
      ensures
        var bytes := ChunkSizeOf(NextChunkSize(if old(chunks) == [] then None else Some(old(cleanupLimit))));
        && |chunks| == |old(chunks)| + 1 && chunks[1..] == old(chunks)
        && handed == old(handed) + [Region(head, chunks[0], bytes)]
        && OthersKept(old(arena.heap.chunks), arena.heap.chunks, chunks[0])
        && BlocksGrown(bytes)
    {
      hide AllocOk, CleanupOk, Aligned, BlocksApart, NewHead, NewBlockSize, ChunkSizeOf, Fits, ChunkPlaced,
        ChunkChain, NextOf, FullNodes, RegionsOk;
      NewestFacts(arena.heap.chunks, chunks, cleanupPtr, cleanupLimit, registered, handed);
      ghost var was := handed;
      var size := if cleanup.Some? then arena.heap.chunks[cleanup.value].size * 2 else MIN_CLEANUP_ELEMENTS;
      size := Min(size, MAX_CLEANUP_ELEMENTS);
      ChunkFits(size);
      var list := AllocateAligned(AlignUpTo8(ChunkSizeOf(size)));
      var chunk := CleanupChunk(size, cleanup, seq(size, _ => CleanupNode(0, 0)));
      EnterChunk(was, list, chunk);
    }

    method EnterChunk(ghost was: seq<Region>, list: Addr, chunk: CleanupChunk)
      requires Valid() && handed == was + [Region(head, list, ChunkSizeOf(chunk.size))]
      requires CleanupOk(arena.heap.chunks, chunks, cleanupPtr, cleanupLimit, registered, was)
      requires cleanupPtr == cleanupLimit && chunk.next == cleanup && |chunk.nodes| == chunk.size
      requires chunk.size == NextChunkSize(if chunks == [] then None else Some(cleanupLimit))
      modifies `cleanup, `cleanupPtr, `cleanupLimit, `chunks, arena.heap`chunks
      ensures Valid() && cleanupPtr == 0 && cleanupLimit == chunk.size && chunks == [list] + old(chunks)
      ensures arena.heap.chunks == old(arena.heap.chunks)[list := chunk] && list !in old(chunks)
    {
      hide AllocOk, CleanupOk, BlocksApart, ChunkSizeOf, NextChunkSize;
      PushedChunk(was, list, chunk);
      arena.heap.chunks := arena.heap.chunks[list := chunk];
      cleanup := Some(list);
      cleanupPtr, cleanupLimit := 0, chunk.size;
      chunks := [list] + chunks;
    }

    method AllocateAlignedAndAddCleanup(n: nat, cleaner: nat) returns (p: Addr)
      requires Valid() && Aligned(n) && Fits(n)
      modifies this, arena.heap, arena`spaceAllocated
      ensures Valid() && Aligned(p)
      ensures registered == old(registered) + [CleanupNode(p, cleaner)]
      ensures |old(handed)| < |handed| && handed[..|old(handed)|] == old(handed)
      ensures handed[|old(handed)|].start == p && handed[|old(handed)|].len == n
      ensures |handed| <= |old(handed)| + 2
    {
      hide Aligned, AllocOk, CleanupOk, BlocksApart, NewHead, NewBlockSize, ChunkSizeOf, Fits;
      p := AllocateAligned(n);
      AddCleanup(p, cleaner);
    }

    /** Runs the cleanups: each registered one once, the newest first. */
    method CleanupList() returns (ran: seq<CleanupNode>)
      requires Valid()
      ensures ran == Reverse(registered)
    {
      if cleanup.Some? {
        ran := CleanupListFallback();
      } else {
        ran := [];
      }
    }

    method CleanupListFallback() returns (ran: seq<CleanupNode>)
      requires Valid() && cleanup.Some?
      ensures ran == Reverse(registered)
    {
      hide AllocOk, BlocksApart, ChunkPlaced, Reverse, FullNodes, Heap.Valid;
      var n := cleanupPtr;
      var list := cleanup.value;
      ghost var c, k, all := arena.heap.chunks, 0, Reverse(registered);
      ran := [];
      assert [] + all == all;
      while true
        invariant ToRun(c, chunks, k, list, n, ran, all)
        decreases |chunks| - k
      {
        hide ToRun;
        ChunkRun(c, chunks, k, list, n, ran, all);
        ran := RunNodes(arena.heap.chunks[list].nodes, n, ran);
        var next := arena.heap.chunks[list].next;
        if next.None? {
          break;
        }
        list := next.value;
        n := arena.heap.chunks[list].size;
        k := k + 1;
      }
    }

    /** Runs the first n nodes of a chunk, the last of them first. */
    static method RunNodes(nodes: seq<CleanupNode>, n: nat, before: seq<CleanupNode>) returns (ran: seq<CleanupNode>)
      requires n <= |nodes|
      ensures ran == before + Reverse(nodes[..n])
    {
      ran := before;
      var i := n;
      while i > 0
        invariant 0 <= i <= n && ran + Reverse(nodes[..i]) == before + Reverse(nodes[..n])
      {
        assert nodes[..i] == nodes[..i - 1] + [nodes[i - 1]];
        ReverseSnoc(nodes[..i - 1], nodes[i - 1]);
        ran := ran + [nodes[i - 1]];
        i := i - 1;
      }
    }

    /** The sum of all sizes allocated since creation. */
    method SpaceUsed() returns (used: int)
      requires Valid()
      ensures used == SumLen(handed[1..])
    {
      used := ptr - (head + BLOCK_HEADER_SIZE);
      var b := arena.heap.blocks[head].next;
      ghost var k := 1;
      assert arena.heap.blocks[blocks[0]].next == NextOf(blocks, 0);
      while b.Some?
        invariant 1 <= k <= |blocks| && b == First(blocks[k..])
        invariant used + SumPos(arena.heap.blocks, blocks[k..]) == SumLen(handed)
        decreases |blocks| - k
      {
        assert b.value == blocks[k] && arena.heap.blocks[blocks[k]].next == NextOf(blocks, k);
        assert blocks[k..][1..] == blocks[k + 1..];
        used := used + (arena.heap.blocks[b.value].pos - BLOCK_HEADER_SIZE);
        b := arena.heap.blocks[b.value].next;
        k := k + 1;
      }
      used := used - SERIAL_ARENA_SIZE;
      SumLenSplit(handed);
    }
  }
}
