/** Eight bytes of a key packed into one machine word, most significant byte first. */
module KeySlice {

  type Byte = b: nat | b < 256
  type Key = seq<Byte>

  const SLICE: nat := 8                                  // keyslice_length
  const WORD_LIMIT: nat := 0x1_0000_0000_0000_0000

  /** The first `n` bytes, filled up with zeros on the right. */
  function Fill(k: Key, n: nat): (p: Key)
    ensures |p| == n
  {
    seq(n, i requires 0 <= i < n => if i < |k| then k[i] else 0 as Byte)
  }

  function Pad(k: Key): (p: Key)
    ensures |p| == SLICE
  {
    Fill(k, SLICE)
  }

  function Num(p: Key): nat {
    if p == [] then 0 else 256 * Num(p[..|p| - 1]) + p[|p| - 1]
  }

  predicate IsSlice(s: nat) {
    s < WORD_LIMIT
  }

  function Slice(k: Key): nat {
    Num(Pad(k))
  }

  /** The `n` low bytes of a word, most significant first. */
  function Bytes(w: nat, n: nat): (p: Key)
    ensures |p| == n
  {
    if n == 0 then [] else Bytes(w / 256, n - 1) + [w % 256]
  }

  function Pow256(n: nat): nat {
    if n == 0 then 1 else 256 * Pow256(n - 1)
  }

  lemma {:induction false} BytesOfNum(p: Key)
    ensures Bytes(Num(p), |p|) == p && Num(p) < Pow256(|p|)
  {
    if p != [] {
      BytesOfNum(p[..|p| - 1]);
      assert p == p[..|p| - 1] + [p[|p| - 1]];
    }
  }

  lemma {:induction false} NumOfBytes(w: nat, n: nat)
    requires w < Pow256(n)
    ensures Num(Bytes(w, n)) == w
  {
    if n > 0 {
      NumOfBytes(w / 256, n - 1);
      assert Bytes(w, n)[..n - 1] == Bytes(w / 256, n - 1);
    }
  }

  lemma WordIsEightBytes()
    ensures Pow256(SLICE) == WORD_LIMIT
  {
    assert Pow256(2) == 0x1_0000;
    assert Pow256(4) == 0x1_0000_0000;
    assert Pow256(6) == 0x1_0000_0000_0000;
  }

  /** `UTIL_GetNextKeySlice` of the trie, with one loop for strings of any length. Shifting
      drops what leaves the word; or-ing a byte into the freed low bits adds it. */
  method GetNextKeySlice(str: Key) returns (res: nat)
    ensures res == Slice(str) && res < WORD_LIMIT
  {
    res := 0;
    var i := 0;
    while i < SLICE
      invariant 0 <= i <= SLICE && res == Num(Pad(str)[..i])
    {
      ShiftIn(Pad(str), i);
      res := (res * 256) % WORD_LIMIT;
      if i < |str| {
        res := res + str[i];
      }
      i := i + 1;
    }
    WholeSlice(str);
  }

  /** `UTIL_GetNextKeySlice` of util.c: one loop over the bytes of a string that is no
      longer than a slice, and one that shifts it up. */
  method GetShortKeySlice(str: Key) returns (res: nat)
    requires |str| <= SLICE
    ensures res == Slice(str) && res < WORD_LIMIT
  {
    res := 0;
    var i := 0;
    while i < |str|
      invariant 0 <= i <= |str| && res == Num(Pad(str)[..i])
    {
      ShiftIn(Pad(str), i);
      res := (res * 256) % WORD_LIMIT + str[i];
      i := i + 1;
    }
    while i < SLICE
      invariant |str| <= i <= SLICE && res == Num(Pad(str)[..i])
    {
      ShiftIn(Pad(str), i);
      res := (res * 256) % WORD_LIMIT;
      i := i + 1;
    }
    WholeSlice(str);
  }

  /** One byte shifted in at the right; nothing leaves the word. */
  lemma ShiftIn(p: Key, i: nat)
    requires i < |p| == SLICE
    ensures (Num(p[..i]) * 256) % WORD_LIMIT + p[i] == Num(p[..i + 1])
  {
    BytesOfNum(p[..i]);
    PowFits(i);
    assert p[..i + 1][..i] == p[..i];
  }

  lemma WholeSlice(k: Key)
    ensures Num(Pad(k)[..SLICE]) == Slice(k) < WORD_LIMIT
  {
    BytesOfNum(Pad(k));
    WordIsEightBytes();
    assert Pad(k)[..SLICE] == Pad(k);
  }

  lemma PowFits(i: nat)
    requires i < SLICE
    ensures 256 * Pow256(i) <= WORD_LIMIT
  {
    WordIsEightBytes();
    PowMono(i + 1, SLICE);
  }

  lemma {:induction n} PowMono(m: nat, n: nat)
    requires m <= n
    ensures Pow256(m) <= Pow256(n) && 0 < Pow256(m)
  {
    if m < n { PowMono(m, n - 1); } else if m > 0 { PowMono(m - 1, n - 1); }
  }

  /** The loop of `UTIL_KeySliceToStr`: the bytes of the word from the last to the first,
      of which the first `len` are kept. */
  method KeySliceToStr(keySlice: nat, len: nat) returns (res: Key)
    requires len <= SLICE
    ensures res == Bytes(keySlice, SLICE)[..len]
  {
    res := seq(len, _ => 0 as Byte);
    var w := keySlice;
    var i := SLICE - 1;
    while i >= 0
      invariant -1 <= i < SLICE && |res| == len
      invariant Bytes(keySlice, SLICE) == Bytes(w, (i + 1) as nat) + Bytes(keySlice, SLICE)[i + 1..]
      invariant forall k :: i < k < len ==> res[k] == Bytes(keySlice, SLICE)[k]
    {
      ghost var all := Bytes(keySlice, SLICE);
      assert Bytes(w, (i + 1) as nat)[i] == w % 256 && all[i] == w % 256;
      if i < len {
        res := res[i := w % 256];
      }
      w := w / 256;
      assert all[i..] == [all[i]] + all[i + 1..];
      i := i - 1;
    }
  }

  /** Slicing is undone by `KeySliceToStr` for every string of at most eight bytes. */
  lemma SliceRoundTrip(k: Key)
    requires |k| <= SLICE
    ensures Bytes(Slice(k), SLICE)[..|k|] == k
  {
    BytesOfNum(Pad(k));
    assert Pad(k)[..|k|] == k;
  }

  lemma SliceHead(k: Key)
    ensures Bytes(Slice(k), SLICE) == Pad(k) && IsSlice(Slice(k))
    ensures |k| >= SLICE ==> Pad(k) == k[..SLICE]
    ensures |k| <= SLICE ==> Pad(k)[..|k|] == k
  {
    BytesOfNum(Pad(k));
    WordIsEightBytes();
  }

  // ---- order ----

  /** Lexicographic order on unsigned bytes; a proper prefix is smaller. */
  predicate Less(a: Key, b: Key) {
    b != [] && (a == [] || a[0] < b[0] || (a[0] == b[0] && Less(a[1..], b[1..])))
  }

  lemma {:induction false} LessLast(a: Key, b: Key)
    requires |a| == |b| > 0
    ensures var m := |a| - 1;
      Less(a, b) <==> Less(a[..m], b[..m]) || (a[..m] == b[..m] && a[m] < b[m])
  {
    var m := |a| - 1;
    if m > 0 {
      LessLast(a[1..], b[1..]);
      assert a[1..][..m - 1] == a[..m][1..] && b[1..][..m - 1] == b[..m][1..];
      assert a[..m] == [a[0]] + a[..m][1..] && b[..m] == [b[0]] + b[..m][1..];
    }
  }

  lemma {:induction false} NumOrder(a: Key, b: Key)
    requires |a| == |b|
    ensures Num(a) < Num(b) <==> Less(a, b)
    ensures Num(a) == Num(b) <==> a == b
  {
    BytesOfNum(a);
    BytesOfNum(b);
    if a != [] {
      var m := |a| - 1;
      NumOrder(a[..m], b[..m]);
      LessLast(a, b);
    }
  }

  lemma {:induction false} FillOrder(a: Key, b: Key, n: nat)
    requires |a| <= n && |b| <= n
    ensures Less(a, b) <==> Less(Fill(a, n), Fill(b, n)) || (Fill(a, n) == Fill(b, n) && |a| < |b|)
  {
    if n > 0 {
      var a', b' := if a == [] then [] else a[1..], if b == [] then [] else b[1..];
      FillOrder(a', b', n - 1);
      assert Fill(a, n)[1..] == Fill(a', n - 1) && Fill(b, n)[1..] == Fill(b', n - 1);
      assert Fill(a, n) == [Fill(a, n)[0]] + Fill(a', n - 1);
      assert Fill(b, n) == [Fill(b, n)[0]] + Fill(b', n - 1);
    }
  }

  /** Comparing (slice, length) pairs as the index does is comparing the byte strings. */
  lemma SliceOrder(a: Key, b: Key)
    requires |a| <= SLICE && |b| <= SLICE
    ensures Less(a, b) <==> Slice(a) < Slice(b) || (Slice(a) == Slice(b) && |a| < |b|)
    ensures a == b <==> Slice(a) == Slice(b) && |a| == |b|
  {
    NumOrder(Pad(a), Pad(b));
    FillOrder(a, b, SLICE);
    SliceRoundTrip(a);
    SliceRoundTrip(b);
  }
}
