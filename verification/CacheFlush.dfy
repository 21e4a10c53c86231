/** Flushing an address range from the caches: which lines the loops touch, and when they end. */
module CacheFlush {
  import opened Arithmetic
  import opened Machine32

  /** A line size is a power of two, which is to say that it divides the address space. */
  type LineSize = l: int | l >= 2 && WRAP % l == 0 witness 32

  function Line(a: nat, l: LineSize): nat { a / l }

  function Rounds(len: nat, l: LineSize): nat { (len + l - 1) / l }

  /** Address arithmetic is that of 32-bit pointers. */
  function Address(start: u32, k: nat, l: LineSize): u32 { (start + k * l) % WRAP }
  function End(start: u32, len: u32): u32 { (start + len) % WRAP }

  /** When the loop over i < end ends: the region wraps, or the rounds that cover it do not. */
  predicate Ends(start: u32, len: u32, l: LineSize) {
    start + len >= WRAP || start + Rounds(len, l) * l < WRAP
  }

  lemma RoundsCover(len: nat, l: LineSize)
    ensures len <= Rounds(len, l) * l < len + l
  {
  }

  /** After k steps the loop's variable is at Address(start, k, l). Some step takes it to the end if and
      only if Ends holds; otherwise the loop runs for ever. */
  lemma LoopEndsIff(start: u32, len: u32, l: LineSize)
    ensures (exists k: nat :: Address(start, k, l) >= End(start, len)) <==> Ends(start, len, l)
  {
    RoundsCover(len, l);
    if start + len >= WRAP {
      assert Address(start, 0, l) == start;
    } else if Ends(start, len, l) {
      assert Address(start, Rounds(len, l), l) == start + Rounds(len, l) * l;
    } else {
      forall k: nat ensures Address(start, k, l) < End(start, len) {
        StaysBelow(start, len, l, k);
      }
    }
  }

  lemma StaysBelow(start: u32, len: u32, l: LineSize, k: nat)
    requires !Ends(start, len, l)
    ensures Address(start, k, l) < start + len
  {
    var q, w, n := (start + k * l) / WRAP, WRAP / l, Rounds(len, l);
    var t := k - q * w;
    RoundsCover(len, l);
    SameClass(start, k, l);
    MulMonotone(n, t, l);
    MulMonotone(t, n - 1, l);
    MulMonotone(n, 1, l);
  }

  /** Wrapping keeps an address in its residue class, since the line size divides the address space. */
  lemma SameClass(start: u32, k: nat, l: LineSize)
    ensures Address(start, k, l) == start + (k - (start + k * l) / WRAP * (WRAP / l)) * l
  {
  }

  // ---- the two flushes ---------------------------------------------------------------------

  /** The addresses are those one line apart from start on. */
  predicate Sweep(touched: seq<u32>, start: u32, l: LineSize) {
    forall j :: 0 <= j < |touched| ==> touched[j] == Round(start, j, l)
  }

  function Round(start: nat, k: nat, l: LineSize): int { start + k * l }

  function LoopRounds(start: u32, len: u32, l: LineSize): nat {
    if start + len < WRAP then Rounds(len, l) else 0
  }

  function Touched(start: u32, len: u32, l: LineSize): nat {
    LoopRounds(start, len, l) + if start % l != 0 then 1 else 0
  }

  /** alt_dcache_flush, and all of alt_icache_flush but its clipping: the loop, then the extra line of an
      unaligned region. */
  method FlushRange(start: u32, len: u32, l: LineSize) returns (touched: seq<u32>)
    requires Ends(start, len, l)
    ensures Sweep(touched, start, l) && |touched| == Touched(start, len, l)
  {
    touched := [];
    var end := (start + len) % WRAP;
    var i: u32 := start;
    ghost var n := LoopRounds(start, len, l);
    Covered(start, len, l);
    hide Rounds, LoopRounds, Ends, Round;
    while i < end
      invariant Sweep(touched, start, l) && |touched| <= n && i == Round(start, |touched|, l)
      invariant i < end <==> |touched| < n
      decreases n - |touched|
    {
      touched := touched + [i];
      NextRound(start, len, l, |touched|);
      i := (i + l) % WRAP;
    }
    if start % l != 0 {
      touched := touched + [i];
    }
  }

  lemma Covered(start: u32, len: u32, l: LineSize)
    requires Ends(start, len, l)
    ensures var n := LoopRounds(start, len, l);
      && Round(start, 0, l) == start && (start < End(start, len) <==> 0 < n)
      && (n > 0 ==> End(start, len) == start + len)
  {
    RoundsCover(len, l);
  }

  /** From round k - 1 to round k. */
  lemma NextRound(start: u32, len: u32, l: LineSize, k: nat)
    requires Ends(start, len, l) && 1 <= k <= LoopRounds(start, len, l)
    ensures Round(start, k, l) == Round(start, k - 1, l) + l < WRAP && start + len < WRAP
    ensures Round(start, k, l) < start + len <==> k < LoopRounds(start, len, l)
  {
    var n := LoopRounds(start, len, l);
    RoundsCover(len, l);
    MulMonotone(k, n, l);
    MulMonotone(k, n - 1, l);
    MulMonotone(n, 1, l);
    MulMonotone(k, 1, l);
  }

  method IcacheFlush(start: u32, len: u32, l: LineSize, size: u32) returns (touched: seq<u32>)
    requires Ends(start, if len > size then size else len, l)
    ensures Sweep(touched, start, l) && |touched| == Touched(start, if len > size then size else len, l)
  {
    var clipped := len;
    if clipped > size {
      clipped := size;
    }
    touched := FlushRange(start, clipped, l);
  }

  // ---- coverage ----------------------------------------------------------------------------

  predicate CoversLines(touched: seq<u32>, start: u32, len: u32, l: LineSize) {
    forall a :: start <= a < start + len ==> exists j :: 0 <= j < |touched| && Line(touched[j], l) == Line(a, l)
  }

  lemma LineAt(start: nat, j: nat, l: LineSize)
    ensures Line(start + j * l, l) == Line(start, l) + j && (start + j * l) % l == start % l
  {
    DivMod(start, l);
    Distribute1(Line(start, l), j, l);
    DivUnique(start + j * l, l, Line(start, l) + j);
  }

  lemma Distribute1(a: int, j: int, l: int)
    ensures (a + j) * l == a * l + j * l
  {
  }

  lemma LineMonotone(a: nat, b: nat, l: LineSize)
    requires a <= b
    ensures Line(a, l) <= Line(b, l)
    ensures b % l == 0 && a < b ==> Line(a, l) < Line(b, l)
  {
  }

  /** The lines touched are consecutive, each touched once, from the region's first line on. */
  lemma TouchesEachOnce(touched: seq<u32>, start: u32, l: LineSize)
    requires Sweep(touched, start, l)
    ensures forall j :: 0 <= j < |touched| ==> Line(touched[j], l) == Line(start, l) + j
  {
    forall j | 0 <= j < |touched| ensures Line(touched[j], l) == Line(start, l) + j {
      LineAt(start, j, l);
    }
  }

  /** A region below the top of memory: as many lines are touched as meet it, or one more. */
  lemma TouchedCount(start: u32, len: u32, l: LineSize)
    requires start + len < WRAP && len > 0
    ensures var lines := Line(start + len - 1, l) - Line(start, l) + 1;
      lines <= Touched(start, len, l) <= lines + 1 && (start % l == 0 ==> Touched(start, len, l) == lines)
  {
    var n := Rounds(len, l);
    RoundsCover(len, l);
    MulMonotone(n, 1, l);
    MulMonotone(n, 0, l);
    LineAt(start, n - 1, l);
    LineAt(start, n, l);
    LineMonotone(start + (n - 1) * l, start + len - 1, l);
    LineMonotone(start + len - 1, start + n * l, l);
  }

  /** Coverage, exactly: a nonempty region of memory is covered by a flush that ends if and only if it
      stops short of the top of memory or is the tail of the last line. */
  lemma FlushCoversIff(touched: seq<u32>, start: u32, len: u32, l: LineSize)
    requires len > 0 && start + len <= WRAP && Ends(start, len, l)
    requires Sweep(touched, start, l) && |touched| == Touched(start, len, l)
    ensures CoversLines(touched, start, len, l) <==>
      start + len < WRAP || (start % l != 0 && Line(start, l) == Line(WRAP - 1, l))
  {
    TouchesEachOnce(touched, start, l);
    if start + len < WRAP {
      TouchedCount(start, len, l);
      CoverByCount(touched, start, len, l);
    } else if start % l != 0 && Line(start, l) == Line(WRAP - 1, l) {
      CoverByCount(touched, start, len, l);
    } else {
      LineMonotone(start, WRAP - 1, l);
      assert Line(start + len - 1, l) == Line(WRAP - 1, l);
    }
  }

  lemma CoverByCount(touched: seq<u32>, start: u32, len: u32, l: LineSize)
    requires len > 0 && |touched| > Line(start + len - 1, l) - Line(start, l)
    requires forall j :: 0 <= j < |touched| ==> Line(touched[j], l) == Line(start, l) + j
    ensures CoversLines(touched, start, len, l)
  {
    forall a | start <= a < start + len
      ensures exists j :: 0 <= j < |touched| && Line(touched[j], l) == Line(a, l) {
      LineMonotone(start, a, l);
      LineMonotone(a, start + len - 1, l);
      var j := Line(a, l) - Line(start, l);
      assert Line(touched[j], l) == Line(a, l);
    }
  }

  /** No line but those of the region is touched, other than the next one. */
  lemma FlushTouchesLittleElse(touched: seq<u32>, start: u32, len: u32, l: LineSize, j: nat)
    requires len > 0 && start + len < WRAP && Sweep(touched, start, l) && j < |touched| == Touched(start, len, l)
    ensures Line(start, l) <= Line(touched[j], l) <= Line(start + len - 1, l) + 1
    ensures start % l == 0 ==> Line(touched[j], l) <= Line(start + len - 1, l)
  {
    TouchesEachOnce(touched, start, l);
    TouchedCount(start, len, l);
  }

  // ---- the direct-mapped instruction cache -------------------------------------------------

  /** flushi looks at the index of the line in the cache and at nothing else. */
  function Index(a: nat, l: LineSize, sets: nat): nat
    requires sets > 0
  {
    Line(a, l) % sets
  }

  predicate CoversIndexes(touched: seq<u32>, start: u32, len: u32, l: LineSize, sets: nat)
    requires sets > 0
  {
    forall a :: start <= a < start + len ==> HitsIndex(touched, a, l, sets)
  }

  predicate HitsIndex(touched: seq<u32>, a: nat, l: LineSize, sets: nat)
    requires sets > 0
  {
    exists j :: 0 <= j < |touched| && Index(touched[j], l, sets) == Index(a, l, sets)
  }

  /** Clipping the length to the cache size loses nothing: every line of the original region, however
      long, has its index flushed. */
  lemma ClippedFlushCovers(touched: seq<u32>, start: u32, len: u32, l: LineSize, size: u32, sets: nat)
    requires sets > 0 && size == sets * l
    requires var clipped := if len > size then size else len;
      start + clipped < WRAP && Sweep(touched, start, l) && |touched| == Touched(start, clipped, l)
    ensures CoversIndexes(touched, start, len, l, sets)
  {
    TouchesEachOnce(touched, start, l);
    if len > size {
      DivUnique(size + l - 1, l, sets);
      WrapAround(touched, start, len, l, sets);
    } else if len > 0 {
      TouchedCount(start, len, l);
      CoverByCount(touched, start, len, l);
      forall a | start <= a < start + len ensures HitsIndex(touched, a, l, sets) {
        var j :| 0 <= j < |touched| && Line(touched[j], l) == Line(a, l);
        assert Index(touched[j], l, sets) == Index(a, l, sets);
      }
    }
  }

  lemma WrapAround(touched: seq<u32>, start: u32, len: u32, l: LineSize, sets: nat)
    requires 0 < sets <= |touched|
    requires forall j :: 0 <= j < |touched| ==> Line(touched[j], l) == Line(start, l) + j
    ensures CoversIndexes(touched, start, len, l, sets)
  {
    forall a | start <= a < start + len ensures HitsIndex(touched, a, l, sets) {
      LineMonotone(start, a, l);
      SomeIndex(touched, Line(start, l), a, l, sets);
    }
  }

  lemma SomeIndex(touched: seq<u32>, first: nat, a: nat, l: LineSize, sets: nat)
    requires 0 < sets <= |touched| && first <= Line(a, l)
    requires forall j :: 0 <= j < |touched| ==> Line(touched[j], l) == first + j
    ensures HitsIndex(touched, a, l, sets)
  {
    var j := (Line(a, l) - first) % sets;
    SameResidue(first, Line(a, l), sets);
    assert Index(touched[j], l, sets) == (first + j) % sets;
  }

  lemma SameResidue(b: nat, x: nat, m: nat)
    requires m > 0 && b <= x
    ensures 0 <= (x - b) % m < m && (b + (x - b) % m) % m == x % m
  {
    var q, r := (x - b) / m, (x - b) % m;
    var q', r' := (b + r) / m, (b + r) % m;
    assert x == q * m + (b + r) && b + r == q' * m + r';
    Distribute1(q, q', m);
    DivUnique(x, m, q + q');
  }

  /** Without the condition: a region in the last line that does not end the loop. */
  lemma EndlessFlush()
    ensures !Ends(0xFFFF_FFD8, 39, 32)
    ensures forall k: nat :: Address(0xFFFF_FFD8, k, 32) < End(0xFFFF_FFD8, 39)
  {
  }
}
