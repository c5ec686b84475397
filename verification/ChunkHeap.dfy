/** The memory of the allocator as a value: words by byte address, the free lists
    threaded through them, and the chunks that are carved out of them. */
module ChunkHeap {

  const WORD: nat := 8
  const ALIGN: nat := 2
  const WASTE: nat := WORD * ALIGN - WORD
  const BIGBLOCK: nat := 131072 * WORD
  const BINS: nat := 50
  const SIZE_LIMIT: nat := 0x1_0000_0000_0000_0000   // 2^64, one more than the largest size_t

  type Addr = nat

  predicate IsWord(a: int) {
    a % WORD == 0
  }

  /** The alignment of every chunk that `malloc` returns. */
  predicate Aligned(a: int) {
    a % (ALIGN * WORD) == 0
  }

  lemma AlignedIsWord(a: int)
    requires Aligned(a)
    ensures IsWord(a) && IsWord(a - WORD) && IsWord(a - WORD - WASTE)
  {
  }

  // ---- size classes ----

  function Bin2Size(b: nat): nat {
    ((b + 1) * ALIGN - 1) * WORD
  }

  const MAX_SMALL: nat := Bin2Size(BINS - 1)

  /** -1 for sizes that no bin holds. */
  function Size2Bin(s: nat): (b: int)
    ensures if s > MAX_SMALL then b == -1 else 0 <= b < BINS
  {
    if s > MAX_SMALL then -1 else (s + (WORD * (ALIGN - 1) - 1)) / (WORD * ALIGN)
  }

  /** A small request goes to the smallest bin that is large enough for it, and the
      size in a chunk's header leads back to the bin it came from. */
  lemma SizeClasses(s: nat)
    ensures s <= MAX_SMALL <==> 0 <= Size2Bin(s) < BINS
    ensures s <= MAX_SMALL ==>
      && s <= Bin2Size(Size2Bin(s))
      && (forall b: nat :: s <= Bin2Size(b) ==> Size2Bin(s) <= b)
      && Size2Bin(Bin2Size(Size2Bin(s))) == Size2Bin(s)
    ensures forall b: nat :: b < BINS ==> Size2Bin(Bin2Size(b)) == b && Bin2Size(b) <= MAX_SMALL
  {
  }

  /** No aligned chunk is smaller and still large enough: each bin is for chunks of one
      alignment unit more than the one before, from a single word on. */
  lemma TightFit(s: nat, c: nat)
    requires s <= MAX_SMALL && s <= c && Aligned(c + WORD)
    ensures Bin2Size(Size2Bin(s)) <= c
    ensures Aligned(Bin2Size(Size2Bin(s)) + WORD) && s <= Bin2Size(Size2Bin(s))
    ensures MAX_SMALL + WORD == BINS * (ALIGN * WORD)
  {
    SizeClasses(s);
    var m := (c + WORD) / 16;
    assert c + WORD == 16 * m;
    assert Bin2Size(m - 1) == c;
  }

  // ---- chunks ----

  /** `mem` has a word for every mapped address that is a multiple of WORD. The rest
      but `bin` is ghost: all chunks with their sizes, the free lists, and the chunks
      that clients own. */
  datatype Heap = Heap(
    mem: map<Addr, nat>,
    bin: seq<Addr>,
    chunks: map<Addr, nat>,
    lists: seq<seq<Addr>>,
    live: set<Addr>)

  /** Where the memory of a chunk begins: at its header, or, when the chunk is a
      mapping of its own, at the waste before the header. */
  function Base(p: Addr, s: nat): int {
    if s <= MAX_SMALL then p - WORD else p - WORD - WASTE
  }

  predicate InChunk(a: Addr, p: Addr, s: nat) {
    Base(p, s) <= a < p + s
  }

  /** The part of a chunk that belongs to the client. */
  predicate InData(a: Addr, p: Addr, s: nat) {
    p <= a < p + s
  }

  ghost predicate Mapped(mem: map<Addr, nat>, lo: int, hi: int) {
    forall a: Addr {:trigger a in mem} :: lo <= a < hi && IsWord(a) ==> a in mem
  }

  /** Aligned, inside mapped memory, and headed by its size. */
  ghost predicate ChunkAt(mem: map<Addr, nat>, p: Addr, s: nat) {
    && Aligned(p) && WORD + WASTE <= p && WORD <= s && p + s <= SIZE_LIMIT
    && (s <= MAX_SMALL ==> s == Bin2Size(Size2Bin(s)))
    && Mapped(mem, Base(p, s), p + s)
    && p - WORD in mem && mem[p - WORD] == s
  }

  ghost predicate ChunkOk(h: Heap, p: Addr) {
    p in h.chunks ==> ChunkAt(h.mem, p, h.chunks[p])
  }

  /** Two chunks have no byte in common. */
  predicate Disjoint(p: Addr, s: nat, q: Addr, r: nat) {
    p + s <= Base(q, r) || q + r <= Base(p, s)
  }

  ghost predicate Clear(h: Heap, p: Addr, q: Addr) {
    p in h.chunks && q in h.chunks && p != q ==> Disjoint(p, h.chunks[p], q, h.chunks[q])
  }

  function At(l: seq<Addr>, i: nat): Addr {
    if i < |l| then l[i] else 0
  }

  /** The link fields in memory spell out the list, and it ends in NULL. */
  ghost predicate Linked(mem: map<Addr, nat>, head: Addr, l: seq<Addr>) {
    head == At(l, 0) && forall i :: 0 <= i < |l| ==> l[i] in mem && mem[l[i]] == At(l, i + 1)
  }

  ghost predicate NoDup(l: seq<Addr>) {
    forall i, j :: 0 <= i < j < |l| ==> l[i] != l[j]
  }

  /** A bin's list is acyclic and holds free chunks of the bin's size. */
  ghost predicate ListOk(h: Heap, b: nat) {
    b < |h.lists| && b < |h.bin| ==>
      && NoDup(h.lists[b])
      && (forall p <- h.lists[b] :: p in h.chunks && h.chunks[p] == Bin2Size(b) && p !in h.live)
      && Linked(h.mem, h.bin[b], h.lists[b])
  }

  /** A chunk that no client owns is in the list of its bin: none is ever lost. */
  ghost predicate NotLost(h: Heap, p: Addr) {
    p in h.chunks && p !in h.live ==>
      h.chunks[p] <= MAX_SMALL && Size2Bin(h.chunks[p]) < |h.lists| && p in h.lists[Size2Bin(h.chunks[p])]
  }

  ghost predicate Ok(h: Heap) {
    && |h.bin| == BINS && |h.lists| == BINS && h.live <= h.chunks.Keys
    && (forall p {:trigger ChunkOk(h, p)} :: ChunkOk(h, p))
    && (forall p, q {:trigger Clear(h, p, q)} :: Clear(h, p, q))
    && (forall b: nat {:trigger ListOk(h, b)} :: ListOk(h, b))
    && (forall p {:trigger NotLost(h, p)} :: NotLost(h, p))
  }

  /** What every operation leaves alone: the data of the chunks that stay live. */
  ghost predicate DataKept(h: Heap, h': Heap) {
    forall p, a :: p in h.live && p in h'.live && p in h.chunks && InData(a, p, h.chunks[p]) && a in h.mem ==>
      p in h'.chunks && h'.chunks[p] == h.chunks[p] && a in h'.mem && h'.mem[a] == h.mem[a]
  }

  /** A word of one chunk is no word of another. */
  lemma NotInOther(h: Heap, p: Addr, q: Addr, a: Addr)
    requires Ok(h) && p in h.chunks && q in h.chunks && p != q && InChunk(a, p, h.chunks[p])
    ensures !InChunk(a, q, h.chunks[q])
  {
    assert Clear(h, p, q);
  }

  /** The header of a chunk is not the link or data word of any chunk. */
  lemma HeaderApart(h: Heap, p: Addr, q: Addr, a: Addr)
    requires Ok(h) && p in h.chunks && q in h.chunks && InData(a, p, h.chunks[p])
    ensures WORD <= q && q - WORD != a && (p != q ==> q != a)
  {
    assert ChunkOk(h, p) && ChunkOk(h, q);
    if p != q {
      assert Clear(h, p, q);
    }
  }

  /** Chunks of different bins are different, so a chunk is in one list at most. */
  lemma OneList(h: Heap, b: nat, c: nat, p: Addr)
    requires Ok(h) && b < BINS && c < BINS && p in h.lists[b] && p in h.lists[c]
    ensures b == c
  {
    assert ListOk(h, b) && ListOk(h, c);
    SizeClasses(0);
  }

  // ---- the four changes that malloc and free make ----

  /** `malloc_small` on a non-empty list: unlink the first chunk. */
  ghost function Pop(h: Heap, b: nat): Heap
    requires b < |h.bin| && b < |h.lists| && h.lists[b] != []
  {
    h.(bin := h.bin[b := At(h.lists[b], 1)],
       lists := h.lists[b := h.lists[b][1..]],
       live := h.live + {h.lists[b][0]})
  }

  lemma PopOk(h: Heap, b: nat)
    requires Ok(h) && b < BINS && h.lists[b] != []
    ensures Ok(Pop(h, b)) && DataKept(h, Pop(h, b))
  {
    var h' := Pop(h, b);
    assert ListOk(h, b);
    forall p ensures ChunkOk(h', p) { assert ChunkOk(h, p); }
    forall p, q ensures Clear(h', p, q) { assert Clear(h, p, q); }
    forall c: nat ensures ListOk(h', c) {
      assert ListOk(h, c);
      if c != b && c < BINS {
        forall p | p in h.lists[c] ensures p != h.lists[b][0] {
          if p == h.lists[b][0] { OneList(h, b, c, p); }
        }
      }
    }
    forall p ensures NotLost(h', p) { assert NotLost(h, p); }
  }

  /** `free_small`: link the chunk in front. */
  ghost function Push(h: Heap, b: nat, p: Addr): Heap
    requires b < |h.bin| && b < |h.lists|
  {
    h.(mem := h.mem[p := h.bin[b]],
       bin := h.bin[b := p],
       lists := h.lists[b := [p] + h.lists[b]],
       live := h.live - {p})
  }

  lemma PushOk(h: Heap, b: nat, p: Addr)
    requires Ok(h) && b < BINS && p in h.live && h.chunks[p] == Bin2Size(b)
    ensures Ok(Push(h, b, p)) && DataKept(h, Push(h, b, p))
  {
    var h' := Push(h, b, p);
    SizeClasses(h.chunks[p]);
    assert ChunkOk(h, p);
    forall q ensures ChunkOk(h', q) {
      assert ChunkOk(h, q);
      if q in h.chunks { HeaderApart(h, p, q, p); }
    }
    forall q, r ensures Clear(h', q, r) { assert Clear(h, q, r); }
    forall c: nat ensures ListOk(h', c) {
      assert ListOk(h, c);
      if c < BINS { assert p !in h.lists[c]; }
    }
    forall q ensures NotLost(h', q) { assert NotLost(h, q); }
    forall q, a | q in h'.live && q in h.chunks && InData(a, q, h.chunks[q]) ensures a != p {
      HeaderApart(h, q, p, a);
    }
  }

  /** No chunk has a word between `lo` and `hi`. */
  ghost predicate NoChunkIn(h: Heap, lo: int, hi: int) {
    forall p, a: Addr {:trigger InChunk(a, p, h.chunks[p])} ::
      p in h.chunks && lo <= a < hi && IsWord(a) ==> !InChunk(a, p, h.chunks[p])
  }

  lemma ClearOfBlock(h: Heap, lo: Addr, hi: Addr, p: Addr)
    requires Ok(h) && NoChunkIn(h, lo, hi) && lo < hi && IsWord(lo) && p in h.chunks
    ensures p + h.chunks[p] <= lo || hi <= Base(p, h.chunks[p])
  {
    assert ChunkOk(h, p);
    AlignedIsWord(p);
    var base: Addr := Base(p, h.chunks[p]);
    var a := if base < lo then lo else base;
    assert IsWord(a) && (base < hi && lo < p + h.chunks[p] ==> InChunk(a, p, h.chunks[p]));
  }

  /** `malloc_large`: a mapping of its own with a header. */
  ghost function AddLarge(h: Heap, p: Addr, n: nat): Heap
    requires WORD <= p
  {
    h.(mem := h.mem[p - WORD := n], chunks := h.chunks[p := n], live := h.live + {p})
  }

  /** Writes outside all chunks. */
  ghost predicate WritesOutside(h: Heap, h': Heap) {
    && h' == h.(mem := h'.mem) && h.mem.Keys <= h'.mem.Keys
    && forall p, a {:trigger InChunk(a, p, h.chunks[p])} ::
         p in h.chunks && a in h.mem && InChunk(a, p, h.chunks[p]) ==> h'.mem[a] == h.mem[a]
  }

  lemma OutsideOk(h: Heap, h': Heap)
    requires Ok(h) && WritesOutside(h, h')
    ensures Ok(h') && DataKept(h, h')
  {
    forall q: Addr ensures ChunkOk(h', q) {
      assert ChunkOk(h, q);
      if q in h.chunks {
        assert InChunk(q - WORD, q, h.chunks[q]);
      }
    }
    forall q, r ensures Clear(h', q, r) { assert Clear(h, q, r); }
    forall b: nat ensures ListOk(h', b) {
      assert ListOk(h, b);
      if b < BINS {
        forall i | 0 <= i < |h.lists[b]| ensures h'.mem[h.lists[b][i]] == h.mem[h.lists[b][i]] {
          var q := h.lists[b][i];
          assert q in h.lists[b] && ChunkOk(h, q);
          assert InChunk(q, q, h.chunks[q]);
        }
      }
    }
    forall q ensures NotLost(h', q) { assert NotLost(h, q); }
    forall q, k | q in h.live && q in h.chunks && InData(k, q, h.chunks[q]) && k in h.mem
      ensures h'.mem[k] == h.mem[k]
    {
      assert InChunk(k, q, h.chunks[q]);
    }
  }

  /** One more live chunk, in memory that no chunk has. */
  lemma NewLive(h: Heap, p: Addr, n: nat)
    requires Ok(h) && p !in h.chunks && ChunkAt(h.mem, p, n)
    requires forall q <- h.chunks :: Disjoint(q, h.chunks[q], p, n)
    ensures var h' := h.(chunks := h.chunks[p := n], live := h.live + {p});
      Ok(h') && DataKept(h, h')
  {
    var h' := h.(chunks := h.chunks[p := n], live := h.live + {p});
    forall q: Addr ensures ChunkOk(h', q) { assert ChunkOk(h, q); }
    forall q, r ensures Clear(h', q, r) { assert Clear(h, q, r); }
    forall b: nat ensures ListOk(h', b) { assert ListOk(h, b); }
    forall q ensures NotLost(h', q) { assert NotLost(h, q); }
  }

  lemma LargeApart(h: Heap, p: Addr, n: nat, q: Addr)
    requires Ok(h) && Aligned(p) && WORD + WASTE <= p && MAX_SMALL < n && q in h.chunks
    requires NoChunkIn(h, p - WORD - WASTE, p + n)
    ensures Disjoint(q, h.chunks[q], p, n) && q != p && !InChunk(p - WORD, q, h.chunks[q])
  {
    assert ChunkOk(h, q);
    AlignedIsWord(p);
    ClearOfBlock(h, p - WORD - WASTE, p + n, q);
  }

  lemma AddLargeOk(h: Heap, p: Addr, n: nat)
    requires Ok(h) && Aligned(p) && WORD + WASTE <= p && MAX_SMALL < n && p + n <= SIZE_LIMIT
    requires Mapped(h.mem, p - WORD - WASTE, p + n) && NoChunkIn(h, p - WORD - WASTE, p + n)
    ensures p !in h.chunks
    ensures Ok(AddLarge(h, p, n)) && DataKept(h, AddLarge(h, p, n))
  {
    forall q | q in h.chunks
      ensures Disjoint(q, h.chunks[q], p, n) && q != p && !InChunk(p - WORD, q, h.chunks[q])
    {
      LargeApart(h, p, n, q);
    }
    OutsideOk(h, h.(mem := h.mem[p - WORD := n]));
    NewLive(h.(mem := h.mem[p - WORD := n]), p, n);
  }

  /** `free_large`: the mapping of a large chunk goes away. */
  ghost predicate Unmaps(h: Heap, h': Heap, p: Addr) {
    && p in h.chunks && h' == h.(mem := h'.mem, chunks := h.chunks - {p}, live := h.live - {p})
    && (forall a {:trigger a in h'.mem} :: a in h'.mem <==> a in h.mem && !InChunk(a, p, h.chunks[p]))
    && (forall a <- h'.mem :: h'.mem[a] == h.mem[a])
  }

  lemma UnmapOk(h: Heap, h': Heap, p: Addr)
    requires Ok(h) && p in h.live && h.chunks[p] > MAX_SMALL && Unmaps(h, h', p)
    ensures Ok(h') && DataKept(h, h')
  {
    forall q: Addr ensures ChunkOk(h', q) {
      assert ChunkOk(h, q);
      if q in h'.chunks {
        forall a: Addr | InChunk(a, q, h.chunks[q]) ensures !InChunk(a, p, h.chunks[p]) {
          NotInOther(h, q, p, a);
        }
        assert InChunk(q - WORD, q, h.chunks[q]);
      }
    }
    forall q, r ensures Clear(h', q, r) { assert Clear(h, q, r); }
    forall b: nat ensures ListOk(h', b) {
      assert ListOk(h, b);
      if b < BINS {
        SizeClasses(0);
        forall q | q in h.lists[b] ensures q != p && q in h'.mem {
          assert ChunkOk(h, q);
          NotInOther(h, q, p, q);
        }
      }
    }
    forall q ensures NotLost(h', q) { assert NotLost(h, q); }
    forall q, a | q in h'.live && q in h.chunks && InData(a, q, h.chunks[q]) ensures !InChunk(a, p, h.chunks[p]) {
      NotInOther(h, q, p, a);
    }
  }

  // ---- carving a block ----

  /** How many chunks of size `s` a block yields. */
  function Yield(s: nat): nat {
    (BIGBLOCK - WASTE) / (s + WORD)
  }

  function Carved(block: Addr, s: nat, k: nat): Addr {
    if k == 0 then block + WASTE + WORD else Carved(block, s, k - 1) + (s + WORD)
  }

  lemma {:induction false} CarvedIs(block: Addr, s: nat, k: nat)
    ensures Carved(block, s, k) == block + WASTE + WORD + k * (s + WORD)
  {
    if k > 0 {
      CarvedIs(block, s, k - 1);
      MulStep(k - 1, s + WORD);
    }
  }

  /** The addresses of the chunks that a block is carved into. */
  function Carve(block: Addr, s: nat): seq<Addr> {
    seq(Yield(s), k requires 0 <= k => Carved(block, s, k))
  }

  lemma YieldPositive(b: nat)
    requires b < BINS
    ensures 1 < Yield(Bin2Size(b)) <= BIGBLOCK
  {
    var s := Bin2Size(b);
    assert s + WORD == 16 * (b + 1) && 16 <= s + WORD <= 800;
    assert 2 * (s + WORD) <= BIGBLOCK - WASTE;
  }

  /** A block is carved from its first usable word on without gaps, and as long as there is
      room for one chunk more. */
  lemma BlockIsFull(block: Addr, b: nat)
    requires b < BINS
    ensures Carved(block, Bin2Size(b), 0) - WORD == block + WASTE
    ensures forall k: nat :: Carved(block, Bin2Size(b), k + 1) - WORD == Carved(block, Bin2Size(b), k) + Bin2Size(b)
    ensures WASTE + Yield(Bin2Size(b)) * (Bin2Size(b) + WORD) <= BIGBLOCK
    ensures BIGBLOCK < WASTE + (Yield(Bin2Size(b)) + 1) * (Bin2Size(b) + WORD)
  {
    var c := Bin2Size(b) + WORD;
    DivMul(BIGBLOCK - WASTE, c);
    DivNext(BIGBLOCK - WASTE, c);
    MulStep(Yield(Bin2Size(b)), c);
  }

  lemma DivNext(x: nat, c: nat)
    requires c > 0
    ensures x < (x / c) * c + c
  {
  }

  /** A carved chunk is aligned and lies inside the block. */
  lemma CarvedInside(block: Addr, b: nat, k: nat)
    requires b < BINS && Aligned(block) && k < Yield(Bin2Size(b))
    ensures var s, p := Bin2Size(b), Carved(block, Bin2Size(b), k);
      block + WASTE <= p - WORD && p + s <= block + BIGBLOCK && Aligned(p)
  {
    var c := Bin2Size(b) + WORD;
    Fits(BIGBLOCK - WASTE, c, k);
    MulAligned(k, c);
    CarvedIs(block, Bin2Size(b), k);
    InBlock(block, k * c, c, Carved(block, Bin2Size(b), k));
  }

  lemma InBlock(block: Addr, skip: nat, c: nat, p: Addr)
    requires Aligned(block) && Aligned(skip) && skip + c <= BIGBLOCK - WASTE && c >= WORD
    requires p == block + WASTE + WORD + skip
    ensures block + WASTE <= p - WORD && p + (c - WORD) <= block + BIGBLOCK && Aligned(p)
  {
    SumAligned(block + WASTE + WORD, skip);
  }

  lemma Fits(x: nat, c: nat, k: nat)
    requires c > 0 && k < x / c
    ensures k * c + c <= x
  {
    DivMul(x, c);
    MulLe(k + 1, x / c, c);
    MulStep(k, c);
  }

  lemma DivMul(x: nat, c: nat)
    requires c > 0
    ensures (x / c) * c <= x
  {
  }

  lemma SumAligned(a: nat, b: nat)
    requires Aligned(a) && Aligned(b)
    ensures Aligned(a + b)
  {
  }

  lemma MulLe(m: nat, n: nat, c: nat)
    requires m <= n
    ensures m * c <= n * c
  {
  }

  lemma MulStep(k: nat, c: nat)
    ensures (k + 1) * c == k * c + c
  {
  }

  lemma MulAligned(k: nat, c: nat)
    requires Aligned(c)
    ensures Aligned(k * c)
  {
    var m := c / 16;
    assert c == 16 * m;
    MulSwap(k, m);
    SixteenTimes(k * m);
  }

  lemma MulSwap(k: nat, m: nat)
    ensures k * (16 * m) == 16 * (k * m)
  {
  }

  lemma SixteenTimes(m: nat)
    ensures Aligned(16 * m)
  {
  }

  /** Two carved chunks have no byte in common. */
  lemma CarvedDisjoint(block: Addr, b: nat, j: nat, k: nat)
    requires b < BINS && j < k
    ensures var s := Bin2Size(b);
      && Carved(block, s, j) + s + WORD <= Carved(block, s, k)
      && Disjoint(Carved(block, s, j), s, Carved(block, s, k), s)
  {
    SizeClasses(0);
    CarvedIs(block, Bin2Size(b), j);
    CarvedIs(block, Bin2Size(b), k);
    MulStep(j, Bin2Size(b) + WORD);
    MulLe(j + 1, k, Bin2Size(b) + WORD);
  }

  /** More free chunks at the front of a bin's list. */
  ghost function AddFree(h: Heap, b: nat, c: seq<Addr>): Heap
    requires b < |h.bin| && b < |h.lists|
  {
    h.(chunks := h.chunks + (map p | p in c :: Bin2Size(b)),
       lists := h.lists[b := c + h.lists[b]],
       bin := h.bin[b := At(c + h.lists[b], 0)])
  }

  /** The new chunks are well formed, apart from each other and from all others, and
      linked up to the old head of the list. */
  ghost predicate CanAdd(h: Heap, b: nat, c: seq<Addr>)
    requires b < |h.bin|
  {
    && (forall k :: 0 <= k < |c| ==> c[k] !in h.chunks && ChunkAt(h.mem, c[k], Bin2Size(b)))
    && (forall j, k :: 0 <= j < k < |c| ==> c[j] != c[k] && Disjoint(c[j], Bin2Size(b), c[k], Bin2Size(b)))
    && (forall k, q :: 0 <= k < |c| && q in h.chunks ==> Disjoint(c[k], Bin2Size(b), q, h.chunks[q]))
    && (forall k :: 0 <= k < |c| ==>
          c[k] in h.mem && h.mem[c[k]] == if k + 1 < |c| then c[k + 1] else h.bin[b])
  }

  lemma AddFreeClear(h: Heap, b: nat, c: seq<Addr>, q: Addr, r: Addr)
    requires Ok(h) && b < BINS && CanAdd(h, b, c)
    ensures Clear(AddFree(h, b, c), q, r)
  {
    assert Clear(h, q, r);
    if q in c && q != r {
      var j :| 0 <= j < |c| && c[j] == q;
      if r in c {
        var k :| 0 <= k < |c| && c[k] == r;
        assert if j < k then Disjoint(c[j], Bin2Size(b), c[k], Bin2Size(b))
               else Disjoint(c[k], Bin2Size(b), c[j], Bin2Size(b));
      } else if r in h.chunks {
        assert Disjoint(c[j], Bin2Size(b), r, h.chunks[r]);
      }
    } else if r in c && q in h.chunks {
      var k :| 0 <= k < |c| && c[k] == r;
      assert Disjoint(c[k], Bin2Size(b), q, h.chunks[q]);
    }
  }

  lemma AddFreeOk(h: Heap, b: nat, c: seq<Addr>)
    requires Ok(h) && b < BINS && CanAdd(h, b, c)
    ensures Ok(AddFree(h, b, c)) && DataKept(h, AddFree(h, b, c))
  {
    var h' := AddFree(h, b, c);
    forall q ensures ChunkOk(h', q) { assert ChunkOk(h, q); }
    forall q, r ensures Clear(h', q, r) { AddFreeClear(h, b, c, q, r); }
    forall d: nat ensures ListOk(h', d) { AddFreeList(h, b, c, d); }
    forall q ensures NotLost(h', q) { AddFreeNotLost(h, b, c, q); }
  }

  lemma AddFreeList(h: Heap, b: nat, c: seq<Addr>, d: nat)
    requires Ok(h) && b < BINS && CanAdd(h, b, c)
    ensures ListOk(AddFree(h, b, c), d)
  {
    assert ListOk(h, d);
    if d == b { AddFreeOwn(h, b, c); }
  }

  lemma AddFreeOwn(h: Heap, b: nat, c: seq<Addr>)
    requires Ok(h) && b < BINS && CanAdd(h, b, c)
    ensures ListOk(AddFree(h, b, c), b)
  {
    var h' := AddFree(h, b, c);
    assert ListOk(h, b);
    AddFreeNoDup(h, b, c);
    AddFreeLinked(h, b, c);
    forall p | p in h'.lists[b] ensures p in h'.chunks && h'.chunks[p] == Bin2Size(b) && p !in h'.live {
      assert p in c || p in h.lists[b];
    }
  }

  lemma AddFreeNotLost(h: Heap, b: nat, c: seq<Addr>, q: Addr)
    requires Ok(h) && b < BINS && CanAdd(h, b, c)
    ensures NotLost(AddFree(h, b, c), q)
  {
    SizeClasses(0);
    assert NotLost(h, q);
    if q in c {
      assert q in c + h.lists[b];
    } else if q in h.lists[b] {
      assert q in c + h.lists[b];
    }
  }

  lemma AddFreeNoDup(h: Heap, b: nat, c: seq<Addr>)
    requires Ok(h) && b < BINS && CanAdd(h, b, c)
    ensures NoDup(c + h.lists[b])
  {
    var l := c + h.lists[b];
    assert ListOk(h, b);
    forall i, j | 0 <= i < j < |l| ensures l[i] != l[j] {
      if i < |c| <= j { assert h.lists[b][j - |c|] in h.lists[b]; }
    }
  }

  lemma AddFreeLinked(h: Heap, b: nat, c: seq<Addr>)
    requires Ok(h) && b < BINS && CanAdd(h, b, c)
    ensures Linked(h.mem, At(c + h.lists[b], 0), c + h.lists[b])
  {
    var rest, l := h.lists[b], c + h.lists[b];
    assert ListOk(h, b);
    forall i | 0 <= i < |l| ensures l[i] in h.mem && h.mem[l[i]] == At(l, i + 1) {
      if i < |c| {
        assert h.mem[c[i]] == if i + 1 < |c| then c[i + 1] else h.bin[b];
        assert l[i] == c[i] && h.bin[b] == At(rest, 0) == At(l, |c|);
        assert i + 1 < |c| ==> At(l, i + 1) == c[i + 1];
      } else {
        assert l[i] == rest[i - |c|] && At(l, i + 1) == At(rest, i - |c| + 1);
      }
    }
  }

  /** What carving needs: an aligned, mapped block that no chunk reaches into. */
  ghost predicate Carvable(h: Heap, block: Addr) {
    && Aligned(block) && 0 < block && block + BIGBLOCK <= SIZE_LIMIT
    && Mapped(h.mem, block, block + BIGBLOCK) && NoChunkIn(h, block, block + BIGBLOCK)
  }

  /** The headers and links that `list_from_block` writes, ending in `tl`. */
  ghost predicate BlockWritten(mem: map<Addr, nat>, mem': map<Addr, nat>, s: nat, block: Addr, tl: Addr) {
    && mem'.Keys == mem.Keys
    && (forall a <- mem :: !(block <= a < block + BIGBLOCK) ==> mem'[a] == mem[a])
    && forall k {:trigger Carved(block, s, k)} :: 0 <= k < Yield(s) ==>
         ChunkWritten(mem', s, Carved(block, s, k), if k + 1 < Yield(s) then Carved(block, s, k + 1) else tl)
  }

  predicate ChunkWritten(mem: map<Addr, nat>, s: nat, p: Addr, link: Addr) {
    WORD <= p && p - WORD in mem && mem[p - WORD] == s && p in mem && mem[p] == link
  }

  /** A carved block adds its chunks to the free list of its bin and to nothing else. */
  lemma CarveOk(h: Heap, mem': map<Addr, nat>, b: nat, block: Addr)
    requires Ok(h) && b < BINS && Carvable(h, block) && BlockWritten(h.mem, mem', Bin2Size(b), block, h.bin[b])
    ensures var h' := AddFree(h.(mem := mem'), b, Carve(block, Bin2Size(b)));
      Ok(h') && DataKept(h, h')
  {
    var c, h1 := Carve(block, Bin2Size(b)), h.(mem := mem');
    BlockOutside(h, mem', b, block);
    OutsideOk(h, h1);
    CanAddCarved(h, mem', b, block);
    AddFreeOk(h1, b, c);
    forall p, a | p in h.live && p in h.chunks && InData(a, p, h.chunks[p]) && a in h.mem
      ensures a in mem' && mem'[a] == h.mem[a] && p !in c
    {
      assert mem'[a] == h1.mem[a];
    }
  }

  lemma BlockOutside(h: Heap, mem': map<Addr, nat>, b: nat, block: Addr)
    requires Ok(h) && b < BINS && Carvable(h, block) && BlockWritten(h.mem, mem', Bin2Size(b), block, h.bin[b])
    ensures WritesOutside(h, h.(mem := mem'))
  {
    forall p, a | p in h.chunks && a in h.mem && InChunk(a, p, h.chunks[p]) ensures mem'[a] == h.mem[a] {
      ClearOfBlock(h, block, block + BIGBLOCK, p);
    }
  }

  lemma CanAddCarved(h: Heap, mem': map<Addr, nat>, b: nat, block: Addr)
    requires Ok(h) && b < BINS && Carvable(h, block) && BlockWritten(h.mem, mem', Bin2Size(b), block, h.bin[b])
    ensures CanAdd(h.(mem := mem'), b, Carve(block, Bin2Size(b)))
  {
    var s, c := Bin2Size(b), Carve(block, Bin2Size(b));
    forall k | 0 <= k < |c|
      ensures c[k] !in h.chunks && ChunkAt(mem', c[k], s)
      ensures c[k] in mem' && mem'[c[k]] == if k + 1 < |c| then c[k + 1] else h.bin[b]
    {
      CanAddOne(h, mem', b, block, k);
    }
    forall j, k | 0 <= j < k < |c| ensures c[j] != c[k] && Disjoint(c[j], s, c[k], s) {
      CarvedDisjoint(block, b, j, k);
    }
    forall k, q | 0 <= k < |c| && q in h.chunks ensures Disjoint(c[k], s, q, h.chunks[q]) {
      CarvedApart(h, b, block, k, q);
    }
  }

  lemma CanAddOne(h: Heap, mem': map<Addr, nat>, b: nat, block: Addr, k: nat)
    requires Ok(h) && b < BINS && Carvable(h, block) && BlockWritten(h.mem, mem', Bin2Size(b), block, h.bin[b])
    requires k < |Carve(block, Bin2Size(b))|
    ensures var s, c := Bin2Size(b), Carve(block, Bin2Size(b));
      && c[k] !in h.chunks && ChunkAt(mem', c[k], s)
      && c[k] in mem' && mem'[c[k]] == if k + 1 < |c| then c[k + 1] else h.bin[b]
  {
    var s, c := Bin2Size(b), Carve(block, Bin2Size(b));
    CarveAt(block, s, k);
    if k + 1 < |c| { CarveAt(block, s, k + 1); }
    CarvedWritten(h.mem, mem', b, block, h.bin[b], k);
    CarvedNew(h, b, block, k);
    CarvedChunk(mem', b, block, k);
  }

  lemma CarveAt(block: Addr, s: nat, k: nat)
    requires k < Yield(s)
    ensures |Carve(block, s)| == Yield(s) && Carve(block, s)[k] == Carved(block, s, k)
  {
  }

  lemma CarvedWritten(mem: map<Addr, nat>, mem': map<Addr, nat>, b: nat, block: Addr, tl: Addr, k: nat)
    requires BlockWritten(mem, mem', Bin2Size(b), block, tl) && k < Yield(Bin2Size(b))
    requires Mapped(mem, block, block + BIGBLOCK)
    ensures Mapped(mem', block, block + BIGBLOCK)
    ensures var s := Bin2Size(b);
      ChunkWritten(mem', s, Carved(block, s, k), if k + 1 < Yield(s) then Carved(block, s, k + 1) else tl)
  {
  }

  lemma CarvedApart(h: Heap, b: nat, block: Addr, k: nat, q: Addr)
    requires Ok(h) && b < BINS && Carvable(h, block) && k < |Carve(block, Bin2Size(b))| && q in h.chunks
    ensures Disjoint(Carve(block, Bin2Size(b))[k], Bin2Size(b), q, h.chunks[q])
  {
    var s, p := Bin2Size(b), Carve(block, Bin2Size(b))[k];
    assert p == Carved(block, s, k);
    SizeClasses(0);
    CarvedInside(block, b, k);
    InsideIsApart(h, block, p, s, q);
  }

  lemma InsideIsApart(h: Heap, block: Addr, p: Addr, s: nat, q: Addr)
    requires Ok(h) && Carvable(h, block) && block <= Base(p, s) && p + s <= block + BIGBLOCK && q in h.chunks
    ensures Disjoint(p, s, q, h.chunks[q])
  {
    AlignedIsWord(block);
    ClearOfBlock(h, block, block + BIGBLOCK, q);
  }

  lemma InsideIsNew(h: Heap, block: Addr, p: Addr)
    requires Ok(h) && Carvable(h, block) && block < p < block + BIGBLOCK
    ensures p !in h.chunks
  {
    AlignedIsWord(block);
    if p in h.chunks {
      assert ChunkOk(h, p);
      ClearOfBlock(h, block, block + BIGBLOCK, p);
    }
  }

  lemma CarvedNew(h: Heap, b: nat, block: Addr, k: nat)
    requires Ok(h) && b < BINS && Carvable(h, block) && k < Yield(Bin2Size(b))
    ensures Carved(block, Bin2Size(b), k) !in h.chunks
  {
    CarvedInside(block, b, k);
    InsideIsNew(h, block, Carved(block, Bin2Size(b), k));
  }

  lemma CarvedChunk(mem': map<Addr, nat>, b: nat, block: Addr, k: nat)
    requires b < BINS && Aligned(block) && 0 < block && block + BIGBLOCK <= SIZE_LIMIT && k < Yield(Bin2Size(b))
    requires Mapped(mem', block, block + BIGBLOCK)
    requires exists link :: ChunkWritten(mem', Bin2Size(b), Carved(block, Bin2Size(b), k), link)
    ensures ChunkAt(mem', Carved(block, Bin2Size(b), k), Bin2Size(b))
  {
    CarvedInside(block, b, k);
    SizeClasses(Bin2Size(b));
  }

  // ---- the loop that writes a block ----

  /** The first `j` chunks of a block are written and linked, nothing outside is touched. */
  ghost predicate PartWritten(mem: map<Addr, nat>, mem': map<Addr, nat>, s: nat, block: Addr, j: nat) {
    && mem'.Keys == mem.Keys
    && (forall a <- mem :: !(block <= a < block + BIGBLOCK) ==> mem'[a] == mem[a])
    && forall k {:trigger Carved(block, s, k)} :: 0 <= k < j ==>
         ChunkWritten(mem', s, Carved(block, s, k), Carved(block, s, k + 1))
  }

  /** Header and link of chunk `j`. */
  function WriteChunk(mem: map<Addr, nat>, s: nat, p: Addr, link: Addr): map<Addr, nat>
    requires WORD <= p
  {
    mem[p - WORD := s][p := link]
  }

  lemma WriteApart(mem: map<Addr, nat>, s: nat, p: Addr, link: Addr, r: Addr, link': Addr)
    requires WORD <= p && ChunkWritten(mem, s, r, link') && r + WORD <= p - WORD
    ensures ChunkWritten(WriteChunk(mem, s, p, link), s, r, link')
  {
  }

  lemma WriteOne(mem: map<Addr, nat>, mem1: map<Addr, nat>, b: nat, block: Addr, j: nat, link: Addr)
    requires b < BINS && Aligned(block) && Mapped(mem, block, block + BIGBLOCK) && j < Yield(Bin2Size(b))
    requires PartWritten(mem, mem1, Bin2Size(b), block, j)
    ensures var s, p := Bin2Size(b), Carved(block, Bin2Size(b), j);
      && WORD <= p && {p - WORD, p} <= mem1.Keys
      && PartWritten(mem, WriteChunk(mem1, s, p, link), s, block, j)
      && ChunkWritten(WriteChunk(mem1, s, p, link), s, p, link)
  {
    var s, p := Bin2Size(b), Carved(block, Bin2Size(b), j);
    CarvedInside(block, b, j);
    AlignedIsWord(p);
    assert p - WORD in mem && p in mem;
    forall k {:trigger Carved(block, s, k)} | 0 <= k < j
      ensures ChunkWritten(WriteChunk(mem1, s, p, link), s, Carved(block, s, k), Carved(block, s, k + 1))
    {
      CarvedDisjoint(block, b, k, j);
      WriteApart(mem1, s, p, link, Carved(block, s, k), Carved(block, s, k + 1));
    }
  }

  lemma PartMore(mem: map<Addr, nat>, mem': map<Addr, nat>, s: nat, block: Addr, j: nat)
    requires PartWritten(mem, mem', s, block, j)
    requires ChunkWritten(mem', s, Carved(block, s, j), Carved(block, s, j + 1))
    ensures PartWritten(mem, mem', s, block, j + 1)
  {
  }

  lemma BlockDone(mem: map<Addr, nat>, mem': map<Addr, nat>, s: nat, block: Addr, tl: Addr)
    requires 0 < Yield(s) && PartWritten(mem, mem', s, block, Yield(s) - 1)
    requires ChunkWritten(mem', s, Carved(block, s, Yield(s) - 1), tl)
    ensures BlockWritten(mem, mem', s, block, tl)
  {
  }

  lemma CarvedSteps(block: Addr, s: nat, j: nat)
    ensures Carved(block, s, 0) == block + WASTE + WORD
    ensures Carved(block, s, j + 1) == Carved(block, s, j) + (s + WORD)
  {
  }
}
