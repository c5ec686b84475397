/** What `malloc`, `free`, pre-filling and client writes do to the heap, and what
    holds in every run of them. */
module AllocatorRuns {
  import opened ChunkHeap

  datatype Event =
    | Malloc(n: nat, p: Addr)        // malloc(n) returned p
    | Free(p: Addr)                  // free(p)
    | PreFill(n: nat, block: Addr)   // a block of the client's, or fresh from mmap, added for size n
    | Mmap(block: Addr, len: nat)    // the operating system mapped a block
    | Write(a: Addr, v: nat)         // a client wrote a word of a chunk it owns

  /** A successful mmap: page-aligned, and apart from everything mapped so far. */
  ghost predicate Maps(mem: map<Addr, nat>, mem': map<Addr, nat>, block: Addr, len: nat) {
    && Aligned(block) && 0 < block && block + len <= SIZE_LIMIT
    && (forall a: Addr {:trigger a in mem} :: block <= a < block + len ==> a !in mem)
    && mem.Keys <= mem'.Keys && (forall a <- mem :: mem'[a] == mem[a])
    && Mapped(mem', block, block + len)
  }

  /** The block is carved for bin `b`. */
  ghost predicate Fills(h: Heap, h': Heap, b: nat, block: Addr)
    requires b < |h.bin| && b < |h.lists|
  {
    && BlockWritten(h.mem, h'.mem, Bin2Size(b), block, h.bin[b])
    && h' == AddFree(h.(mem := h'.mem), b, Carve(block, Bin2Size(b)))
  }

  /** `fill_bin`: a fresh block from mmap is carved for bin `b`. */
  ghost predicate FillsFresh(h: Heap, h1: Heap, h2: Heap, b: nat, block: Addr)
    requires b < |h.bin| && b < |h.lists|
  {
    && h1 == h.(mem := h1.mem) && Maps(h.mem, h1.mem, block, BIGBLOCK)
    && Fills(h1, h2, b, block) && |h2.lists| == |h.lists| && |h2.bin| == |h.bin|
  }

  /** `malloc_small`: the first chunk of the bin's list, after filling the bin if it is
      empty; NULL only if it is empty and mmap fails. */
  ghost predicate MallocSmall(h: Heap, h': Heap, b: nat, p: Addr)
    requires b < |h.bin| && b < |h.lists|
  {
    if h.lists[b] != [] then p == h.lists[b][0] && h' == Pop(h, b)
    else if p == 0 then h' == h
    else exists h1, h2, block ::
      FillsFresh(h, h1, h2, b, block) && h2.lists[b] != [] && p == h2.lists[b][0] && h' == Pop(h2, b)
  }

  /** `malloc_large`: a mapping of its own; NULL only if mmap fails. */
  ghost predicate MallocLarge(h: Heap, h': Heap, n: nat, p: Addr) {
    if p == 0 then h' == h
    else WORD + WASTE < p && exists h1: Heap :: MapsLarge(h, h1, h', n, p)
  }

  ghost predicate MapsLarge(h: Heap, h1: Heap, h': Heap, n: nat, p: Addr)
    requires WORD + WASTE < p
  {
    && h1 == h.(mem := h1.mem) && Maps(h.mem, h1.mem, p - WORD - WASTE, n + WASTE + WORD)
    && h' == AddLarge(h1, p, n)
  }

  /** One event, and what a caller must respect: it frees and writes only what it owns,
      gives away only blocks that no chunk uses, and keeps to sizes for which the
      header does not overflow. */
  ghost predicate Step(h: Heap, h': Heap, e: Event)
    requires |h.bin| == BINS && |h.lists| == BINS
  {
    match e
    case Malloc(n, p) =>
      if n > MAX_SMALL then n + WASTE + WORD < SIZE_LIMIT && MallocLarge(h, h', n, p)
      else MallocSmall(h, h', Size2Bin(n), p)
    case Free(p) =>
      if p == 0 then h' == h
      else
        && p in h.live && p in h.chunks
        && (if h.chunks[p] > MAX_SMALL then Unmaps(h, h', p) else h' == Push(h, Size2Bin(h.chunks[p]), p))
    case PreFill(n, block) => n <= MAX_SMALL && Carvable(h, block) && Fills(h, h', Size2Bin(n), block)
    case Mmap(block, len) => h' == h.(mem := h'.mem) && Maps(h.mem, h'.mem, block, len)
    case Write(a, v) =>
      && (exists p :: p in h.live && p in h.chunks && InData(a, p, h.chunks[p])) && a in h.mem
      && h' == h.(mem := h.mem[a := v])
  }

  /** Freshly mapped memory has no chunk in it. */
  lemma MapsOk(h: Heap, h': Heap, block: Addr, len: nat)
    requires Ok(h) && h' == h.(mem := h'.mem) && Maps(h.mem, h'.mem, block, len)
    ensures Ok(h') && DataKept(h, h') && NoChunkIn(h', block, block + len)
  {
    OutsideOk(h, h');
    forall p, a: Addr | p in h.chunks && block <= a < block + len && IsWord(a) ensures !InChunk(a, p, h.chunks[p]) {
      assert ChunkOk(h, p);
      assert InChunk(a, p, h.chunks[p]) ==> a in h.mem;
    }
  }

  lemma FillsOk(h: Heap, h': Heap, b: nat, block: Addr)
    requires Ok(h) && b < BINS && Carvable(h, block) && Fills(h, h', b, block)
    ensures Ok(h') && DataKept(h, h')
  {
    CarveOk(h, h'.mem, b, block);
  }

  /** What `malloc` promises: an aligned chunk that nobody owns, at least as large as
      asked for, mapped, and apart from every other live chunk. */
  ghost predicate Granted(h: Heap, h': Heap, n: nat, p: Addr) {
    && p !in h.live && h'.live == h.live + {p} && p in h'.chunks && n <= h'.chunks[p]
    && Aligned(p) && Mapped(h'.mem, p, p + n)
    && forall q <- h.live :: q in h'.chunks && Disjoint(p, h'.chunks[p], q, h'.chunks[q])
  }

  lemma PopGrants(h: Heap, b: nat, n: nat)
    requires Ok(h) && b < BINS && h.lists[b] != [] && n <= Bin2Size(b)
    ensures Granted(h, Pop(h, b), n, h.lists[b][0])
  {
    var p := h.lists[b][0];
    assert ListOk(h, b) && p in h.lists[b] && ChunkOk(h, p);
    forall q | q in h.live ensures Disjoint(p, h.chunks[p], q, h.chunks[q]) { assert Clear(h, p, q); }
  }

  lemma FilledOk(h: Heap, h1: Heap, h2: Heap, b: nat, n: nat, block: Addr)
    requires Ok(h) && b < BINS && n <= Bin2Size(b)
    requires FillsFresh(h, h1, h2, b, block)
    requires h2.lists[b] != []
    ensures Ok(Pop(h2, b)) && DataKept(h, Pop(h2, b)) && Granted(h, Pop(h2, b), n, h2.lists[b][0])
  {
    MapsOk(h, h1, block, BIGBLOCK);
    FillsOk(h1, h2, b, block);
    KeptTrans(h, h1, h2);
    PopOk(h2, b);
    PopGrants(h2, b, n);
    KeptTrans(h, h2, Pop(h2, b));
  }

  lemma MallocSmallOk(h: Heap, h': Heap, b: nat, n: nat, p: Addr)
    requires Ok(h) && b < BINS && n <= Bin2Size(b) && MallocSmall(h, h', b, p)
    ensures Ok(h') && DataKept(h, h') && (p != 0 ==> Granted(h, h', n, p))
  {
    if h.lists[b] != [] {
      PopOk(h, b);
      PopGrants(h, b, n);
    } else if p != 0 {
      var h1, h2, block :|
        FillsFresh(h, h1, h2, b, block) && h2.lists[b] != [] && p == h2.lists[b][0] && h' == Pop(h2, b);
      FilledOk(h, h1, h2, b, n, block);
    }
  }

  lemma KeptTrans(h: Heap, h1: Heap, h2: Heap)
    requires DataKept(h, h1) && DataKept(h1, h2) && h.live <= h1.live && h.live <= h.chunks.Keys
    ensures DataKept(h, h2)
  {
  }

  lemma MallocLargeOk(h: Heap, h': Heap, n: nat, p: Addr)
    requires Ok(h) && MAX_SMALL < n && MallocLarge(h, h', n, p)
    ensures Ok(h') && DataKept(h, h') && (p != 0 ==> Granted(h, h', n, p))
  {
    if p != 0 {
      var h1: Heap :| MapsLarge(h, h1, h', n, p);
      MapsOk(h, h1, p - WORD - WASTE, n + WASTE + WORD);
      AddLargeOk(h1, p, n);
      KeptTrans(h, h1, h');
      assert ChunkOk(h', p);
      forall q | q in h.live ensures Disjoint(p, h'.chunks[p], q, h'.chunks[q]) { assert Clear(h', p, q); }
    }
  }

  lemma WriteOk(h: Heap, p: Addr, a: Addr, v: nat)
    requires Ok(h) && p in h.live && InData(a, p, h.chunks[p]) && a in h.mem
    ensures Ok(h.(mem := h.mem[a := v]))
  {
    var h' := h.(mem := h.mem[a := v]);
    forall q: Addr ensures ChunkOk(h', q) {
      assert ChunkOk(h, q);
      if q in h.chunks { HeaderApart(h, p, q, a); }
    }
    forall q, r ensures Clear(h', q, r) { assert Clear(h, q, r); }
    forall b: nat ensures ListOk(h', b) {
      assert ListOk(h, b);
      if b < BINS {
        forall i | 0 <= i < |h.lists[b]| ensures h.lists[b][i] != a {
          var q := h.lists[b][i];
          assert q in h.lists[b];
          HeaderApart(h, p, q, a);
        }
      }
    }
    forall q ensures NotLost(h', q) { assert NotLost(h, q); }
  }

  /** Every event keeps the heap in order, and all but a client's own writes keep the
      data of every live chunk. */
  lemma StepOk(h: Heap, h': Heap, e: Event)
    requires Ok(h) && Step(h, h', e)
    ensures Ok(h')
    ensures !e.Write? ==> DataKept(h, h')
    ensures e.Malloc? && e.p != 0 ==> Granted(h, h', e.n, e.p)
    ensures e.Free? ==> h'.live == h.live - {e.p}
    ensures !e.Malloc? && !e.Free? ==> h'.live == h.live
  {
    match e {
      case Malloc(n, p) =>
        SizeClasses(n);
        if n > MAX_SMALL { MallocLargeOk(h, h', n, p); } else { MallocSmallOk(h, h', Size2Bin(n), n, p); }
      case Free(p) =>
        if p != 0 {
          assert ChunkOk(h, p);
          SizeClasses(h.chunks[p]);
          if h.chunks[p] > MAX_SMALL { UnmapOk(h, h', p); } else { PushOk(h, Size2Bin(h.chunks[p]), p); }
        } else {
          NullNotLive(h);
        }
      case PreFill(n, block) =>
        SizeClasses(n);
        FillsOk(h, h', Size2Bin(n), block);
      case Mmap(block, len) => MapsOk(h, h', block, len);
      case Write(a, v) =>
        var p :| p in h.live && p in h.chunks && InData(a, p, h.chunks[p]);
        WriteOk(h, p, a, v);
    }
  }

  lemma NullNotLive(h: Heap)
    requires Ok(h)
    ensures 0 !in h.live
  {
    assert ChunkOk(h, 0);
  }

  // ---- runs ----

  ghost predicate Fresh(h: Heap) {
    h.bin == seq(BINS, _ => 0) && h.lists == seq(BINS, _ => []) && h.chunks == map[] && h.live == {}
  }

  ghost predicate Run(hs: seq<Heap>, es: seq<Event>) {
    && |hs| == |es| + 1 && Fresh(hs[0])
    && forall i :: 0 <= i < |es| ==> |hs[i].bin| == BINS && |hs[i].lists| == BINS && Step(hs[i], hs[i + 1], es[i])
  }

  lemma FreshOk(h: Heap)
    requires Fresh(h)
    ensures Ok(h)
  {
    forall p ensures ChunkOk(h, p) { }
    forall p, q ensures Clear(h, p, q) { }
    forall b: nat ensures ListOk(h, b) { }
    forall p ensures NotLost(h, p) { }
  }

  /** `malloc` after `free`, for sizes of one bin: the chunk that was freed is granted again,
      and but for its first word everything is as before the two calls. */
  lemma FreeThenMalloc(h: Heap, h1: Heap, h2: Heap, p: Addr, n: nat, q: Addr)
    requires Ok(h) && p in h.live && h.chunks[p] <= MAX_SMALL && n <= MAX_SMALL
    requires Size2Bin(n) == Size2Bin(h.chunks[p])
    requires Step(h, h1, Free(p)) && Ok(h1) && Step(h1, h2, Malloc(n, q))
    ensures q == p && h2 == h.(mem := h2.mem)
    ensures forall a :: a in h2.mem <==> a in h.mem
    ensures forall a <- h.mem :: a != p ==> h2.mem[a] == h.mem[a]
  {
    assert ChunkOk(h, p);
    var b := Size2Bin(n);
    SizeClasses(n);
    assert ListOk(h, b);
    HeadIs(h.lists[b], p);
  }

  lemma HeadIs(l: seq<Addr>, p: Addr)
    ensures ([p] + l)[1..] == l && At([p] + l, 1) == At(l, 0)
  {
  }

  /** In every state of every run the heap is in order. */
  lemma {:induction false} RunOk(hs: seq<Heap>, es: seq<Event>, n: nat)
    requires Run(hs, es) && n < |hs|
    ensures Ok(hs[n])
  {
    if n == 0 {
      FreshOk(hs[0]);
    } else {
      RunOk(hs, es, n - 1);
      assert Step(hs[n - 1], hs[n - 1 + 1], es[n - 1]);
      StepOk(hs[n - 1], hs[n], es[n - 1]);
    }
  }

  /** Clients keep what they write: a word written into a live chunk is still there as
      long as the chunk is not freed and the word is not written again, whatever is
      allocated, freed, carved, mapped or unmapped meanwhile. */
  lemma {:induction false} WritesLast(hs: seq<Heap>, es: seq<Event>, i: nat, j: nat, p: Addr, a: Addr)
    requires Run(hs, es) && i < j < |hs| && es[i].Write? && es[i].a == a
    requires p in hs[i].live && p in hs[i].chunks && InData(a, p, hs[i].chunks[p])
    requires forall k :: i < k < j ==> es[k] != Free(p) && !(es[k].Write? && es[k].a == a)
    ensures p in hs[j].live && p in hs[j].chunks && hs[j].chunks[p] == hs[i].chunks[p]
    ensures a in hs[j].mem && hs[j].mem[a] == es[i].v
  {
    RunOk(hs, es, j - 1);
    assert Step(hs[j - 1], hs[j - 1 + 1], es[j - 1]);
    StepOk(hs[j - 1], hs[j], es[j - 1]);
    if i + 1 < j {
      WritesLast(hs, es, i, j - 1, p, a);
    }
  }

  // ---- conservation ----

  ghost function ChunksOf(h: Heap, b: nat): set<Addr> {
    set p | p in h.chunks && h.chunks[p] == Bin2Size(b)
  }

  ghost function LiveOf(h: Heap, b: nat): set<Addr> {
    set p | p in h.live && p in h.chunks && h.chunks[p] == Bin2Size(b)
  }

  ghost function Elems(l: seq<Addr>): set<Addr> {
    set p | p in l
  }

  lemma {:induction false} ListSize(l: seq<Addr>)
    requires NoDup(l)
    ensures |Elems(l)| == |l|
  {
    if l == [] {
      assert Elems(l) == {};
    } else {
      var n := |l| - 1;
      ListSize(l[..n]);
      assert l == l[..n] + [l[n]];
      assert Elems(l) == Elems(l[..n]) + {l[n]} && l[n] !in Elems(l[..n]);
    }
  }

  lemma FreeOrLive(h: Heap, b: nat, p: Addr)
    requires Ok(h) && b < BINS
    ensures p in h.lists[b] ==> p in ChunksOf(h, b) && p !in LiveOf(h, b)
    ensures p in ChunksOf(h, b) ==> p in h.lists[b] || p in LiveOf(h, b)
  {
    assert ListOk(h, b) && NotLost(h, p);
    SizeClasses(0);
  }

  lemma Partition(h: Heap, b: nat)
    requires Ok(h) && b < BINS
    ensures ChunksOf(h, b) == Elems(h.lists[b]) + LiveOf(h, b) && Elems(h.lists[b]) !! LiveOf(h, b)
  {
    var free := Elems(h.lists[b]);
    forall p
      ensures p in ChunksOf(h, b) <==> p in free || p in LiveOf(h, b)
      ensures p in free ==> p !in LiveOf(h, b)
    {
      FreeOrLive(h, b, p);
    }
  }

  /** The chunks of a bin are its free chunks and its live ones. */
  lemma FreePlusLive(h: Heap, b: nat)
    requires Ok(h) && b < BINS
    ensures |h.lists[b]| + |LiveOf(h, b)| == |ChunksOf(h, b)|
  {
    Partition(h, b);
    assert NoDup(h.lists[b]) by { assert ListOk(h, b); }
    ListSize(h.lists[b]);
  }

  /** The event carves a block for bin `b`: a pre-fill does, and a malloc that finds the
      list of its bin empty and gets a block. */
  ghost predicate Carves(h: Heap, e: Event, b: nat)
    requires b < |h.lists|
  {
    match e
    case PreFill(n, _) => Size2Bin(n) == b
    case Malloc(n, p) => Size2Bin(n) == b && h.lists[b] == [] && p != 0
    case _ => false
  }

  lemma CarveSize(block: Addr, b: nat)
    requires b < BINS
    ensures |Elems(Carve(block, Bin2Size(b)))| == Yield(Bin2Size(b))
  {
    var c := Carve(block, Bin2Size(b));
    forall j, k | 0 <= j < k < |c| ensures c[j] != c[k] {
      CarveAt(block, Bin2Size(b), j);
      CarveAt(block, Bin2Size(b), k);
      CarvedDisjoint(block, b, j, k);
    }
    ListSize(c);
  }

  lemma AddFreeChunks(h: Heap, b: nat, cs: seq<Addr>, c: nat)
    requires b < |h.bin| && b < |h.lists| && forall p <- cs :: p !in h.chunks
    ensures ChunksOf(AddFree(h, b, cs), c) == if c == b then ChunksOf(h, b) + Elems(cs) else ChunksOf(h, c)
    ensures Elems(cs) !! ChunksOf(h, b)
  {
    var h' := AddFree(h, b, cs);
    forall p ensures p in ChunksOf(h', c) <==> p in ChunksOf(h, c) || (c == b && p in cs) {
      if p in cs { assert h'.chunks[p] == Bin2Size(b); }
    }
  }

  /** A carved block adds exactly its chunks to those of its bin, and none to another. */
  lemma FillsAdd(h: Heap, h': Heap, b: nat, block: Addr, c: nat)
    requires Ok(h) && b < BINS && c < BINS && Carvable(h, block) && Fills(h, h', b, block)
    ensures ChunksOf(h, c) <= ChunksOf(h', c)
    ensures c != b ==> ChunksOf(h', c) == ChunksOf(h, c)
    ensures c == b ==> |ChunksOf(h', b)| == |ChunksOf(h, b)| + Yield(Bin2Size(b))
  {
    var cs, h1 := Carve(block, Bin2Size(b)), h.(mem := h'.mem);
    forall p | p in cs ensures p !in h1.chunks { CarvedIsNew(h, b, block, p); }
    AddFreeChunks(h1, b, cs, c);
    CarveSize(block, b);
    assert ChunksOf(h1, c) == ChunksOf(h, c) && ChunksOf(h1, b) == ChunksOf(h, b);
  }

  lemma CarvedIsNew(h: Heap, b: nat, block: Addr, p: Addr)
    requires Ok(h) && b < BINS && Carvable(h, block) && p in Carve(block, Bin2Size(b))
    ensures p !in h.chunks
  {
    var c := Carve(block, Bin2Size(b));
    var k: nat :| k < |c| && c[k] == p;
    CarveAt(block, Bin2Size(b), k);
    CarvedNew(h, b, block, k);
  }

  lemma FilledChunks(h: Heap, h1: Heap, h2: Heap, b: nat, block: Addr, c: nat)
    requires Ok(h) && b < BINS && c < BINS && FillsFresh(h, h1, h2, b, block) && h2.lists[b] != []
    ensures ChunksOf(h, c) <= ChunksOf(Pop(h2, b), c)
    ensures c != b ==> ChunksOf(Pop(h2, b), c) == ChunksOf(h, c)
    ensures c == b ==> |ChunksOf(Pop(h2, b), b)| == |ChunksOf(h, b)| + Yield(Bin2Size(b))
  {
    MapsOk(h, h1, block, BIGBLOCK);
    FillsAdd(h1, h2, b, block, c);
    assert ChunksOf(h1, c) == ChunksOf(h, c) && ChunksOf(Pop(h2, b), c) == ChunksOf(h2, c);
  }

  lemma MallocSmallChunks(h: Heap, h': Heap, b: nat, p: Addr, c: nat)
    requires Ok(h) && b < BINS && c < BINS && MallocSmall(h, h', b, p)
    ensures ChunksOf(h, c) <= ChunksOf(h', c)
    ensures !(c == b && h.lists[b] == [] && p != 0) ==> ChunksOf(h', c) == ChunksOf(h, c)
    ensures c == b && h.lists[b] == [] && p != 0 ==> |ChunksOf(h', b)| == |ChunksOf(h, b)| + Yield(Bin2Size(b))
  {
    if h.lists[b] != [] {
      assert ChunksOf(Pop(h, b), c) == ChunksOf(h, c);
    } else if p != 0 {
      var h1, h2, block :|
        FillsFresh(h, h1, h2, b, block) && h2.lists[b] != [] && p == h2.lists[b][0] && h' == Pop(h2, b);
      FilledChunks(h, h1, h2, b, block, c);
    }
  }

  /** No event ever takes a chunk from a bin, and none adds one but the carving of a
      block, which adds exactly the chunks that the block yields. */
  lemma StepConserves(h: Heap, h': Heap, e: Event, b: nat)
    requires Ok(h) && Step(h, h', e) && b < BINS
    ensures ChunksOf(h, b) <= ChunksOf(h', b)
    ensures !Carves(h, e, b) ==> ChunksOf(h', b) == ChunksOf(h, b)
    ensures Carves(h, e, b) ==> |ChunksOf(h', b)| == |ChunksOf(h, b)| + Yield(Bin2Size(b))
  {
    SizeClasses(0);
    match e
    case Malloc(n, p) =>
      if n <= MAX_SMALL { MallocSmallChunks(h, h', Size2Bin(n), p, b); } else { LargeChunks(h, h', n, p, b); }
    case Free(p) =>
    case PreFill(n, block) => FillsAdd(h, h', Size2Bin(n), block, b);
    case Mmap(_, _) =>
    case Write(_, _) =>
  }

  lemma LargeChunks(h: Heap, h': Heap, n: nat, p: Addr, b: nat)
    requires Ok(h) && b < BINS && n > MAX_SMALL && MallocLarge(h, h', n, p)
    ensures ChunksOf(h', b) == ChunksOf(h, b)
  {
    SizeClasses(0);
    if p != 0 {
      var h1: Heap :| MapsLarge(h, h1, h', n, p);
      MapsOk(h, h1, p - WORD - WASTE, n + WASTE + WORD);
      LargeIsNew(h1, p, n);
    }
  }

  lemma LargeIsNew(h: Heap, p: Addr, n: nat)
    requires Ok(h) && Aligned(p) && WORD + WASTE <= p && MAX_SMALL < n && p + n <= SIZE_LIMIT
    requires Mapped(h.mem, p - WORD - WASTE, p + n) && NoChunkIn(h, p - WORD - WASTE, p + n)
    ensures p !in h.chunks
  {
    AddLargeOk(h, p, n);
  }

  /** How many blocks the first `n` events of a run carve for bin `b`. */
  ghost function BlocksCarved(hs: seq<Heap>, es: seq<Event>, b: nat, n: nat): nat
    requires Run(hs, es) && b < BINS && n <= |es|
  {
    if n == 0 then 0
    else BlocksCarved(hs, es, b, n - 1) + if Carves(hs[n - 1], es[n - 1], b) then 1 else 0
  }

  lemma CountStep(blocks: nat, size: nat, carved: bool)
    ensures (blocks + if carved then 1 else 0) * size == blocks * size + if carved then size else 0
  {
  }

  /** How many chunks they yield. */
  ghost function ChunksAdded(hs: seq<Heap>, es: seq<Event>, b: nat, n: nat): nat
    requires Run(hs, es) && b < BINS && n <= |es|
  {
    if n == 0 then 0
    else ChunksAdded(hs, es, b, n - 1) + if Carves(hs[n - 1], es[n - 1], b) then Yield(Bin2Size(b)) else 0
  }

  lemma {:induction false} AddedByBlocks(hs: seq<Heap>, es: seq<Event>, b: nat, n: nat)
    requires Run(hs, es) && b < BINS && n <= |es|
    ensures ChunksAdded(hs, es, b, n) == BlocksCarved(hs, es, b, n) * Yield(Bin2Size(b))
  {
    if n > 0 {
      AddedByBlocks(hs, es, b, n - 1);
      CountStep(BlocksCarved(hs, es, b, n - 1), Yield(Bin2Size(b)), Carves(hs[n - 1], es[n - 1], b));
    }
  }

  lemma {:induction false} ChunksCarved(hs: seq<Heap>, es: seq<Event>, b: nat, n: nat)
    requires Run(hs, es) && b < BINS && n <= |es|
    ensures |ChunksOf(hs[n], b)| == ChunksAdded(hs, es, b, n)
  {
    if n == 0 {
      assert ChunksOf(hs[0], b) == {};
    } else {
      ChunksCarved(hs, es, b, n - 1);
      RunOk(hs, es, n - 1);
      assert Step(hs[n - 1], hs[n - 1 + 1], es[n - 1]);
      StepConserves(hs[n - 1], hs[n], es[n - 1], b);
    }
  }

  /** Conservation over every run: free plus live chunks of a bin are exactly the chunks
      of the blocks carved for it; none is lost, made up or handed out twice, however
      they are allocated and freed. */
  lemma Conserved(hs: seq<Heap>, es: seq<Event>, b: nat, n: nat)
    requires Run(hs, es) && b < BINS && n <= |es|
    ensures Ok(hs[n])
    ensures |hs[n].lists[b]| + |LiveOf(hs[n], b)| == BlocksCarved(hs, es, b, n) * Yield(Bin2Size(b))
  {
    RunOk(hs, es, n);
    FreePlusLive(hs[n], b);
    ChunksCarved(hs, es, b, n);
    AddedByBlocks(hs, es, b, n);
  }

  /** A chunk carved for a bin stays a chunk of that bin for the rest of the run: it is in
      the bin's list or live. */
  lemma {:induction false} ChunksStay(hs: seq<Heap>, es: seq<Event>, b: nat, i: nat, j: nat, p: Addr)
    requires Run(hs, es) && b < BINS && i <= j <= |es| && p in ChunksOf(hs[i], b)
    ensures Ok(hs[j]) && p in ChunksOf(hs[j], b) && (p in hs[j].lists[b] || p in LiveOf(hs[j], b))
  {
    RunOk(hs, es, j);
    if i < j {
      ChunksStay(hs, es, b, i, j - 1, p);
      RunOk(hs, es, j - 1);
      assert Step(hs[j - 1], hs[j - 1 + 1], es[j - 1]);
      StepConserves(hs[j - 1], hs[j], es[j - 1], b);
    }
    FreeOrLive(hs[j], b, p);
  }
}
