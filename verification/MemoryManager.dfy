/** The allocator itself: memory words and the `bin` array updated step by step, each
    operation proved to be the event of `AllocatorRuns` it stands for. */
module MemoryManager {
  import opened ChunkHeap
  import opened AllocatorRuns

  const INT_MAX: int := 0x7fff_ffff
  const PAGE: nat := 4096

  class Manager {
    var mem: map<Addr, nat>
    const bin: array<Addr>
    ghost var chunks: map<Addr, nat>
    ghost var lists: seq<seq<Addr>>
    ghost var live: set<Addr>

    /** How often `mmap0` has mapped memory, and how often it has returned NULL. */
    ghost var maps: nat
    ghost var failedMaps: nat

    ghost function View(): Heap
      reads this, bin
    {
      Heap(mem, bin[..], chunks, lists, live)
    }

    ghost predicate Valid()
      reads this, bin
    {
      bin.Length == BINS && Ok(View())
    }

    /** The `bin` array starts with NULLs, and nothing is mapped. */
    constructor ()
      ensures Valid() && Fresh(View()) && fresh(bin) && maps == failedMaps == 0
    {
      maps, failedMaps := 0, 0;
      mem, chunks, lists, live := map[], map[], seq(BINS, _ => []), {};
      bin := new Addr[BINS](_ => 0);
      new;
      FreshOk(View());
    }

    /** `mmap0`: NULL, or a page-aligned block of zeros apart from all mapped memory. */
    method Mmap0(len: nat) returns (p: Addr)
      modifies this`mem, this`maps, this`failedMaps
      ensures p == 0 ==> mem == old(mem) && maps == old(maps) && failedMaps == old(failedMaps) + 1
      ensures p != 0 ==> Maps(old(mem), mem, p, len) && maps == old(maps) + 1 && failedMaps == old(failedMaps)
    {
      p :| p == 0 || (p % PAGE == 0 && p + len <= SIZE_LIMIT && forall a: Addr :: p <= a < p + len ==> a !in mem);
      if p == 0 {
        failedMaps := failedMaps + 1;
      } else {
        maps := maps + 1;
        PageAligned(p);
        mem := mem + map a: Addr | p <= a < p + len && IsWord(a) :: 0;
      }
    }

    /** `munmap` of the words of `len` bytes from `p` on. */
    method Munmap(p: Addr, len: nat)
      modifies this`mem
      ensures forall a {:trigger a in mem} :: a in mem <==> a in old(mem) && !(p <= a < p + len)
      ensures forall a <- mem :: mem[a] == old(mem)[a]
    {
      mem := map a | a in mem && !(p <= a < p + len) :: mem[a];
    }

    /** Writes header and link of each chunk of a block, from the first to the last. */
    method ListFromBlock(ghost b: nat, s: nat, p: Addr, tl: Addr) returns (first: Addr)
      requires b < BINS && s == Bin2Size(b) && Aligned(p) && Mapped(mem, p, p + BIGBLOCK)
      modifies this`mem
      ensures BlockWritten(old(mem), mem, s, p, tl) && first == Carved(p, s, 0)
    {
      var nblocks := Yield(s);
      var q: Addr := p + WASTE;
      var j: nat := 0;
      YieldPositive(b);
      CarvedSteps(p, s, 0);
      while j != nblocks - 1
        invariant 0 <= j <= nblocks - 1 && q + WORD == Carved(p, s, j)
        invariant PartWritten(old(mem), mem, s, p, j)
        decreases nblocks - j
      {
        CarvedSteps(p, s, j);
        WriteHeaderAndLink(q, s, q + WORD + (s + WORD), old(mem), b, p, j);
        PartMore(old(mem), mem, s, p, j);
        q := q + (s + WORD);
        j := j + 1;
      }
      WriteHeaderAndLink(q, s, tl, old(mem), b, p, j);
      BlockDone(old(mem), mem, s, p, tl);
      first := p + WASTE + WORD;
    }

    /** The two stores through `q`: the size at `q`, the link in the word after it. */
    method WriteHeaderAndLink(q: Addr, s: nat, link: Addr,
        ghost start: map<Addr, nat>, ghost b: nat, ghost p: Addr, ghost j: nat)
      requires b < BINS && s == Bin2Size(b) && Aligned(p) && Mapped(start, p, p + BIGBLOCK)
      requires j < Yield(s) && q + WORD == Carved(p, s, j) && PartWritten(start, mem, s, p, j)
      modifies this`mem
      ensures PartWritten(start, mem, s, p, j) && ChunkWritten(mem, s, Carved(p, s, j), link)
    {
      WriteOne(start, mem, b, p, j, link);
      Store(q, s);
      Store(q + WORD, link);
    }

    /** A store of one word; the address must be mapped. */
    method Store(a: Addr, v: nat)
      requires a in mem
      modifies this`mem
      ensures mem == old(mem)[a := v]
    {
      mem := mem[a := v];
    }

    /** Adds a block that the client provides, or that was just mapped, to a bin. */
    method PreFillBlock(n: nat, p: Addr)
      requires Valid() && n <= MAX_SMALL && Carvable(View(), p)
      modifies this`mem, this`chunks, this`lists, bin
      ensures Valid() && Step(old(View()), View(), PreFill(n, p))
    {
      SizeClasses(n);
      var b := Size2Bin(n);
      ghost var h := View();
      var l := ListFromBlock(b, Bin2Size(b), p, bin[b]);
      bin[b] := l;
      chunks := chunks + map q | q in Carve(p, Bin2Size(b)) :: Bin2Size(b);
      lists := lists[b := Carve(p, Bin2Size(b)) + lists[b]];
      FirstCarved(p, b, h.lists[b]);
      assert View() == AddFree(h.(mem := mem), b, Carve(p, Bin2Size(b)));
      StepOk(h, View(), PreFill(n, p));
    }

    /** One round of the loop below: a block from `mmap0` is added to the bin. */
    method AddBlock(n: nat) returns (mapped: bool)
      requires Valid() && n <= MAX_SMALL
      modifies this`mem, this`chunks, this`lists, this`maps, this`failedMaps, bin
      ensures Valid() && live == old(live) && DataKept(old(View()), View())
      ensures maps == old(maps) + (if mapped then 1 else 0) && failedMaps == old(failedMaps) + if mapped then 0 else 1
      ensures !mapped ==> View() == old(View())
      ensures |lists[Size2Bin(n)]| == old(|lists[Size2Bin(n)]|) + if mapped then Yield(Bin2Size(Size2Bin(n))) else 0
      ensures forall c :: 0 <= c < BINS && c != Size2Bin(n) ==> lists[c] == old(lists)[c]
    {
      SizeClasses(n);
      ghost var h := View();
      var p := Mmap0(BIGBLOCK);
      if p == 0 {
        return false;
      }
      ghost var h1 := View();
      MapsOk(h, h1, p, BIGBLOCK);
      PreFillBlock(n, p);
      FillsOk(h1, View(), Size2Bin(n), p);
      KeptTrans(h, h1, View());
      return true;
    }

    /** Adds whole blocks until `req` chunks are there, `mmap0` fails, or the count would
        leave the range of int; returns exactly the chunks added, which are those of the
        blocks that `mmap0` has mapped meanwhile. */
    method TryPreFill(n: nat, req: int) returns (ful: int)
      requires Valid() && -INT_MAX - 1 <= req <= INT_MAX
      modifies this`mem, this`chunks, this`lists, this`maps, this`failedMaps, bin
      ensures Valid() && live == old(live) && DataKept(old(View()), View()) && 0 <= ful <= INT_MAX
      ensures n > MAX_SMALL ==> ful == 0 && View() == old(View()) && maps == old(maps) && failedMaps == old(failedMaps)
      ensures n <= MAX_SMALL ==>
        var b := Size2Bin(n);
        && |lists[b]| == old(|lists[b]|) + ful
        && (forall c :: 0 <= c < BINS && c != b ==> lists[c] == old(lists)[c])
        && maps >= old(maps) && ful == (maps - old(maps)) * Yield(Bin2Size(b))
        && (ful < req ==>
              failedMaps == old(failedMaps) + 1 || (failedMaps == old(failedMaps) && INT_MAX - ful < Yield(Bin2Size(b))))
        && (req <= ful ==> failedMaps == old(failedMaps))
        && (req <= 0 ==> ful == 0) && (0 < req ==> ful < req + Yield(Bin2Size(b)))
    {
      ful := 0;
      if n > MAX_SMALL {
        return;
      }
      SizeClasses(n);
      var b := Size2Bin(n);
      YieldPositive(b);
      var chunks := (BIGBLOCK - WASTE) / (Bin2Size(b) + WORD);
      while 0 < req - ful
        invariant Valid() && live == old(live) && DataKept(old(View()), View()) && 0 <= ful <= INT_MAX
        invariant failedMaps == old(failedMaps) && maps >= old(maps) && ful == (maps - old(maps)) * chunks
        invariant |lists[b]| == old(|lists[b]|) + ful
        invariant forall c :: 0 <= c < BINS && c != b ==> lists[c] == old(lists)[c]
        invariant (req <= 0 ==> ful == 0) && (0 < req ==> ful < req + chunks)
        decreases req - ful
      {
        if INT_MAX - ful < chunks {
          return;
        }
        ghost var h := View();
        var mapped := AddBlock(n);
        KeptTrans(old(View()), h, View());
        if !mapped {
          return;
        }
        MulStep(maps - 1 - old(maps), chunks);
        ful := ful + chunks;
      }
    }

    method FillBin(b: nat) returns (p: Addr, ghost block: Addr, ghost h1: Heap)
      requires Valid() && b < BINS && lists[b] == []
      modifies this`mem, this`chunks, this`lists, this`maps, this`failedMaps
      ensures failedMaps == old(failedMaps) + if p == 0 then 1 else 0
      ensures p == 0 ==> View() == old(View())
      ensures p != 0 ==>
        && |lists| == BINS && FillsFresh(old(View()), h1, View().(bin := View().bin[b := p]), b, block)
        && p == Carved(block, Bin2Size(b), 0) && lists[b] == Carve(block, Bin2Size(b))
    {
      var s := Bin2Size(b);
      ghost var h := View();
      block, h1 := 0, h;
      p := Mmap0(BIGBLOCK);
      if p != 0 {
        block := p;
        h1 := View();
        p := ListFromBlock(b, s, p, 0);
        chunks := chunks + map q | q in Carve(block, s) :: s;
        lists := lists[b := Carve(block, s) + lists[b]];
        FirstCarved(block, b, h.lists[b]);
        assert h.bin[b] == 0 by { assert ListOk(h, b); }
        ghost var h2 := View().(bin := View().bin[b := p]);
        assert h2 == AddFree(h1.(mem := h2.mem), b, Carve(block, s));
        assert FillsFresh(h, h1, h2, b, block);
        assert lists[b] == Carve(block, s);
      }
    }

    method MallocSmall(nbytes: nat) returns (p: Addr)
      requires Valid() && nbytes <= MAX_SMALL
      modifies this`mem, this`chunks, this`lists, this`live, this`maps, this`failedMaps, bin
      ensures AllocatorRuns.MallocSmall(old(View()), View(), Size2Bin(nbytes), p)
      ensures failedMaps == old(failedMaps) + if p == 0 then 1 else 0
    {
      SizeClasses(nbytes);
      var b := Size2Bin(nbytes);
      ghost var h := View();
      assert ListOk(h, b);
      p := bin[b];
      HeadIsNull(h, b);
      ghost var h2 := h;
      if p == 0 {
        ghost var block, h1;
        p, block, h1 := FillBin(b);
        if p == 0 {
          return;
        }
        bin[b] := p;
        h2 := View();
        YieldPositive(b);
        FirstCarved(block, b, []);
        assert FillsFresh(h, h1, h2, b, block);
        FilledList(h, h1, h2, b, block);
      }
      p := Unlink(b);
    }

    /** The first chunk of a non-empty list is taken off. */
    method Unlink(b: nat) returns (p: Addr)
      requires b < bin.Length && b < |lists| && lists[b] != [] && bin[b] == lists[b][0]
      requires bin[b] in mem && mem[bin[b]] == At(lists[b], 1)
      modifies this`lists, this`live, bin
      ensures View() == Pop(old(View()), b) && p == old(lists)[b][0]
    {
      p := bin[b];
      var q := mem[p];
      bin[b] := q;
      lists := lists[b := lists[b][1..]];
      live := live + {p};
    }

    method MallocLarge(nbytes: nat) returns (p: Addr)
      requires Valid() && MAX_SMALL < nbytes && nbytes + WASTE + WORD < SIZE_LIMIT
      modifies this`mem, this`chunks, this`live, this`maps, this`failedMaps
      ensures AllocatorRuns.MallocLarge(old(View()), View(), nbytes, p)
      ensures failedMaps == old(failedMaps) + if p == 0 then 1 else 0
    {
      ghost var h := View();
      p := Mmap0(nbytes + WASTE + WORD);
      if p != 0 {
        ghost var h1 := View();
        AlignedIsWord(p);
        Store(p + WASTE, nbytes);
        p := p + WASTE + WORD;
        chunks := chunks[p := nbytes];
        live := live + {p};
        assert View() == AddLarge(h1, p, nbytes);
        assert MapsLarge(h, h1, View(), nbytes, p);
      }
    }

    /** `malloc`. The bound on `nbytes` is the one stated in memmgr/spec_malloc.v: without
        it the length of the mapping would wrap around. NULL means that `mmap0` failed,
        which a chunk in the list of the bin rules out. */
    method Malloc(nbytes: nat) returns (p: Addr)
      requires Valid() && nbytes + WASTE + WORD < SIZE_LIMIT
      modifies this, bin
      ensures Valid() && Step(old(View()), View(), Event.Malloc(nbytes, p))
      ensures DataKept(old(View()), View())
      ensures p == 0 ==> View() == old(View())
      ensures failedMaps == old(failedMaps) + if p == 0 then 1 else 0
      ensures nbytes <= MAX_SMALL && old(lists[Size2Bin(nbytes)]) != [] ==> p != 0
      ensures p != 0 ==> Granted(old(View()), View(), nbytes, p)
    {
      ghost var h := View();
      SizeClasses(nbytes);
      if nbytes > MAX_SMALL {
        p := MallocLarge(nbytes);
      } else {
        p := MallocSmall(nbytes);
      }
      MallocOk(h, View(), nbytes, p);
    }

    method FreeSmall(p: Addr, s: nat)
      requires Valid() && p in live && chunks[p] == s && s <= MAX_SMALL
      modifies this`mem, this`lists, this`live, bin
      ensures View() == Push(old(View()), Size2Bin(s), p)
    {
      SizeClasses(s);
      var b := Size2Bin(s);
      var q := bin[b];
      assert ChunkOk(View(), p);
      AlignedIsWord(p);
      Store(p, q);
      bin[b] := p;
      lists := lists[b := [p] + lists[b]];
      live := live - {p};
    }

    method FreeLarge(p: Addr, s: nat)
      requires Valid() && p in live && chunks[p] == s && MAX_SMALL < s
      modifies this`mem, this`chunks, this`live
      ensures Unmaps(old(View()), View(), p)
    {
      assert ChunkOk(View(), p);
      Munmap(p - (WASTE + WORD), s + WASTE + WORD);
      chunks := chunks - {p};
      live := live - {p};
    }

    /** `free`: the header tells a chunk of a bin from a mapping of its own. */
    method Free(p: Addr)
      requires Valid() && (p == 0 || p in live)
      modifies this, bin
      ensures Valid() && Step(old(View()), View(), Event.Free(p))
      ensures DataKept(old(View()), View()) && live == old(live) - {p}
    {
      ghost var h := View();
      if p != 0 {
        assert ChunkOk(h, p);
        var s := mem[p - WORD];
        if s <= Bin2Size(BINS - 1) {
          FreeSmall(p, s);
        } else {
          FreeLarge(p, s);
        }
      }
      StepOk(h, View(), Event.Free(p));
    }

    /** A client writes a word inside a chunk it owns. */
    method ClientWrite(ghost p: Addr, a: Addr, v: nat)
      requires Valid() && p in live && InData(a, p, chunks[p]) && IsWord(a)
      modifies this`mem
      ensures Valid() && Step(old(View()), View(), Write(a, v))
    {
      ghost var h := View();
      assert ChunkOk(h, p);
      Store(a, v);
      StepOk(h, View(), Write(a, v));
    }
  }

  lemma PageAligned(p: Addr)
    requires p % PAGE == 0
    ensures Aligned(p)
  {
    var k := p / PAGE;
    assert p == 16 * (256 * k);
    MultipleOf16(256 * k);
  }

  lemma MultipleOf16(k: nat)
    ensures (16 * k) % 16 == 0
  {
  }

  lemma FirstCarved(p: Addr, b: nat, rest: seq<Addr>)
    requires b < BINS
    ensures At(Carve(p, Bin2Size(b)) + rest, 0) == Carved(p, Bin2Size(b), 0)
  {
    YieldPositive(b);
  }

  /** `bin[b]` is NULL exactly when the list is empty. */
  lemma HeadIsNull(h: Heap, b: nat)
    requires Ok(h) && b < BINS
    ensures h.bin[b] == 0 <==> h.lists[b] == []
    ensures h.lists[b] != [] ==>
      h.bin[b] == h.lists[b][0] && h.bin[b] in h.mem && h.mem[h.bin[b]] == At(h.lists[b], 1)
  {
    assert ListOk(h, b);
    if h.lists[b] != [] {
      assert h.lists[b][0] in h.lists[b] && ChunkOk(h, h.lists[b][0]);
    }
  }

  /** NULL comes from an empty list only, and then nothing has changed. */
  lemma NullOnlyIfEmpty(h: Heap, h': Heap, b: nat, p: Addr)
    requires Ok(h) && b < BINS && AllocatorRuns.MallocSmall(h, h', b, p)
    ensures p == 0 ==> h.lists[b] == [] && h' == h
  {
    assert ListOk(h, b);
    if h.lists[b] != [] {
      assert h.lists[b][0] in h.lists[b] && ChunkOk(h, h.lists[b][0]);
    }
  }

  lemma MallocOk(h: Heap, h': Heap, n: nat, p: Addr)
    requires Ok(h) && n + WASTE + WORD < SIZE_LIMIT
    requires if n > MAX_SMALL then AllocatorRuns.MallocLarge(h, h', n, p)
      else 0 <= Size2Bin(n) < BINS && AllocatorRuns.MallocSmall(h, h', Size2Bin(n), p)
    ensures Ok(h') && Step(h, h', Event.Malloc(n, p)) && DataKept(h, h')
    ensures p == 0 ==> h' == h && (n <= MAX_SMALL ==> h.lists[Size2Bin(n)] == [])
    ensures p != 0 ==> Granted(h, h', n, p)
  {
    SizeClasses(n);
    if n > MAX_SMALL {
      MallocLargeOk(h, h', n, p);
    } else {
      MallocSmallOk(h, h', Size2Bin(n), n, p);
      NullOnlyIfEmpty(h, h', Size2Bin(n), p);
    }
  }

  lemma FilledList(h: Heap, h1: Heap, h2: Heap, b: nat, block: Addr)
    requires Ok(h) && b < BINS && FillsFresh(h, h1, h2, b, block)
    ensures h2.lists[b] != [] ==>
      h2.bin[b] == h2.lists[b][0] && h2.bin[b] in h2.mem && h2.mem[h2.bin[b]] == At(h2.lists[b], 1)
  {
    MapsOk(h, h1, block, BIGBLOCK);
    FillsOk(h1, h2, b, block);
    HeadIsNull(h2, b);
  }
}
