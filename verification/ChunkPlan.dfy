/** The chunk boundaries of the download loop, and the commands it issues for them. */
module ChunkPlan {
  import opened Types
  import opened ResumeMachine

  /** The offset after `i` chunks. */
  function Off(start: nat, total: nat, config: ChunkConfig, i: nat): (o: nat)
    requires start <= total
    ensures start <= o <= total
  {
    if i == 0 then start else
    var o := Off(start, total, config, i - 1);
    o + ChunkLen(total - o, config)
  }

  lemma {:induction false} OffMonotone(start: nat, total: nat, config: ChunkConfig, i: nat, j: nat)
    requires start <= total && i <= j
    ensures Off(start, total, config, i) <= Off(start, total, config, j)
  {
    if i < j {
      OffMonotone(start, total, config, i, j - 1);
    }
  }

  /** A chunk is empty only at the end, or when the configured size is 0 and too much is left. */
  lemma ChunkAdvances(remaining: nat, config: ChunkConfig)
    ensures ChunkLen(remaining, config) > 0 <==>
            remaining > 0 && (config.chunkSize >= 1 || remaining < config.minChunkSize)
    ensures ChunkLen(remaining, config) <= config.chunkSize || ChunkLen(remaining, config) < config.minChunkSize
  {
  }

  /** The chunks come to an end: the first of them is not an endless run of empty ones. */
  predicate Finite(remaining: nat, config: ChunkConfig) {
    remaining == 0 || config.chunkSize >= 1 || remaining < config.minChunkSize
  }

  /** How many chunks `remaining` bytes take. */
  function Count(remaining: nat, config: ChunkConfig): nat
    requires Finite(remaining, config)
  {
    var c, m := config.chunkSize, config.minChunkSize;
    if remaining == 0 then 0
    else if remaining < m then 1
    else if m <= c then (remaining + c - 1) / c
    else (remaining - m) / c + 2
  }

  lemma DivStep(x: nat, c: nat)
    requires c >= 1
    ensures (x + c) / c == x / c + 1
  {
    var q := x / c;
    assert x + c == (q + 1) * c + x % c;
    DivIs(x + c, c, q + 1);
  }

  lemma DivIs(x: nat, c: nat, q: nat)
    requires c >= 1 && q * c <= x < (q + 1) * c
    ensures x / c == q
  {
    var p := x / c;
    assert p < q ==> (p + 1) * c <= q * c;
    assert p > q ==> (q + 1) * c <= p * c;
  }

  lemma CountStep(remaining: nat, config: ChunkConfig)
    requires remaining > 0 && Finite(remaining, config)
    ensures var left := remaining - ChunkLen(remaining, config);
            Finite(left, config) && Count(remaining, config) == 1 + Count(left, config)
  {
    var c, m := config.chunkSize, config.minChunkSize;
    if m <= remaining {
      var left := remaining - ChunkLen(remaining, config);
      if m <= c {
        if remaining <= c {
          DivIs(remaining + c - 1, c, 1);
        } else {
          DivStep(remaining - 1, c);
          assert left + c - 1 == remaining - 1;
          if left < m {
            DivIs(left + c - 1, c, 1);
          }
        }
      } else if left >= m {
        DivStep(left - m, c);
      } else {
        DivIs(remaining - m, c, 0);
      }
    }
  }

  /** The closed form is right: after `Count` chunks, and not before, everything is there. */
  lemma {:induction false} CountIsExact(start: nat, total: nat, config: ChunkConfig, i: nat)
    requires start <= total && Finite(total - start, config)
    ensures var left := total - Off(start, total, config, i);
            && Finite(left, config)
            && (left == 0 <==> Count(total - start, config) <= i)
            && (i <= Count(total - start, config) ==> Count(left, config) == Count(total - start, config) - i)
  {
    CountZero(total - start, config);
    if i > 0 {
      CountIsExact(start, total, config, i - 1);
      var left := total - Off(start, total, config, i - 1);
      if left > 0 {
        CountStep(left, config);
        CountZero(left - ChunkLen(left, config), config);
      }
    }
  }

  lemma CountZero(remaining: nat, config: ChunkConfig)
    requires Finite(remaining, config)
    ensures Count(remaining, config) == 0 <==> remaining == 0
  {
    if remaining > 0 && config.minChunkSize <= config.chunkSize {
      DivStep(remaining - 1, config.chunkSize);
    }
  }

  /** The plan reaches the end exactly if it is finite. */
  lemma PlanFinishes(start: nat, total: nat, config: ChunkConfig)
    requires start <= total
    ensures (exists n :: Off(start, total, config, n) == total) <==> Finite(total - start, config)
  {
    if Finite(total - start, config) {
      CountIsExact(start, total, config, Count(total - start, config));
    } else {
      forall n ensures Off(start, total, config, n) == start {
        NoAdvance(start, total, config, n);
      }
    }
  }

  lemma {:induction false} NoAdvance(start: nat, total: nat, config: ChunkConfig, n: nat)
    requires start <= total && ChunkLen(total - start, config) == 0
    ensures Off(start, total, config, n) == start
  {
    if n > 0 {
      NoAdvance(start, total, config, n - 1);
    }
  }

  // ---------- chunks that fit the 32-bit length field ----------

  const WIDE := 0x1_0000_0000

  /** No chunk of the plan for `remaining` bytes reaches 2^32. */
  predicate PlanFits(remaining: nat, config: ChunkConfig) {
    var c, m := config.chunkSize, config.minChunkSize;
    if remaining < m || c >= WIDE then remaining < WIDE
    else c == 0 || m <= c || (remaining - m) % c + m - c < WIDE
  }

  /** Chunk `i` can be asked for. */
  predicate ChunkFits(start: nat, total: nat, config: ChunkConfig, i: nat)
    requires start <= total
  {
    ChunkLen(total - Off(start, total, config, i), config) < WIDE
  }

  lemma PlanFitsStep(remaining: nat, config: ChunkConfig)
    ensures var n := ChunkLen(remaining, config);
            PlanFits(remaining, config) <==> n < WIDE && PlanFits(remaining - n, config)
  {
    var c, m := config.chunkSize, config.minChunkSize;
    if 0 < c < m <= remaining {
      var r := (remaining - m) % c;
      if remaining - c >= m {
        var q := (remaining - m) / c;
        assert remaining - m == q * c + r;
        assert remaining - c - m == (q - 1) * c + r;
        ModIs(remaining - c - m, c, q - 1, r);
      } else {
        ModIs(remaining - m, c, 0, remaining - m);
      }
    }
  }

  lemma ModIs(x: nat, c: nat, q: nat, r: nat)
    requires x == q * c + r && r < c
    ensures x % c == r
  {
    DivIs(x, c, q);
    assert x == (x / c) * c + x % c;
  }

  /** The closed form is right: it says whether every chunk of the plan is below 2^32. */
  lemma PlanFitsExact(start: nat, total: nat, config: ChunkConfig)
    requires start <= total
    ensures PlanFits(total - start, config) <==> forall i: nat :: ChunkFits(start, total, config, i)
  {
    assert PlanFits(total - start, config) || Finite(total - start, config);
    if PlanFits(total - start, config) {
      forall i: nat ensures ChunkFits(start, total, config, i) {
        FitsOnTheWay(start, total, config, i);
        PlanFitsStep(total - Off(start, total, config, i), config);
      }
    } else if forall i: nat :: ChunkFits(start, total, config, i) {
      hide PlanFits, ChunkFits, Count;
      var n := Count(total - start, config);
      CountIsExact(start, total, config, n);
      FitsFromHere(start, total, config, 0, n);
    }
  }

  lemma {:induction false} FitsOnTheWay(start: nat, total: nat, config: ChunkConfig, i: nat)
    requires start <= total && PlanFits(total - start, config)
    ensures PlanFits(total - Off(start, total, config, i), config)
  {
    hide PlanFits, ChunkLen;
    if i > 0 {
      FitsOnTheWay(start, total, config, i - 1);
      PlanFitsStep(total - Off(start, total, config, i - 1), config);
    }
  }

  lemma {:induction false} FitsFromHere(start: nat, total: nat, config: ChunkConfig, i: nat, n: nat)
    requires start <= total && i <= n && Off(start, total, config, n) == total
    requires forall j: nat | j < n :: ChunkFits(start, total, config, j)
    ensures PlanFits(total - Off(start, total, config, i), config)
    decreases n - i
  {
    if i < n {
      hide PlanFits, ChunkLen;
      FitsFromHere(start, total, config, i + 1, n);
      assert ChunkFits(start, total, config, i);
      PlanFitsStep(total - Off(start, total, config, i), config);
    }
  }

  lemma {:induction false} ChunkOf(start: nat, total: nat, config: ChunkConfig, n: nat, p: nat) returns (i: nat)
    requires start <= total && start <= p < Off(start, total, config, n)
    ensures i < n && Off(start, total, config, i) <= p < Off(start, total, config, i + 1)
  {
    if p < Off(start, total, config, n - 1) {
      i := ChunkOf(start, total, config, n - 1, p);
    } else {
      i := n - 1;
    }
  }

  /** Only the chunk that brings the end has another size than the configured one. */
  lemma OnlyLastDiffers(start: nat, total: nat, config: ChunkConfig, i: nat)
    requires start <= total && Off(start, total, config, i + 1) < total
    ensures Off(start, total, config, i + 1) == Off(start, total, config, i) + config.chunkSize
  {
  }

  /** Where chunk `i` starts, in closed form: all chunks before the last have the configured size. */
  lemma {:induction false} OffClosed(start: nat, total: nat, config: ChunkConfig, i: nat)
    requires start <= total && Finite(total - start, config)
    ensures Off(start, total, config, i)
         == if i < Count(total - start, config) then start + i * config.chunkSize else total
  {
    hide Count;
    CountIsExact(start, total, config, i);
    if 0 < i < Count(total - start, config) {
      OffClosed(start, total, config, i - 1);
      OnlyLastDiffers(start, total, config, i - 1);
      assert i * config.chunkSize == (i - 1) * config.chunkSize + config.chunkSize;
    } else if i == 0 {
      assert 0 * config.chunkSize == 0;
    }
  }

  /** Without a minimum above the chunk size, the offsets simply count up to the end. */
  lemma {:induction false} OffCounts(start: nat, total: nat, config: ChunkConfig, i: nat)
    requires start <= total && config.minChunkSize <= config.chunkSize
    ensures var o := start + i * config.chunkSize;
            Off(start, total, config, i) == if o < total then o else total
  {
    if i == 0 {
      assert 0 * config.chunkSize == 0;
    } else {
      OffCounts(start, total, config, i - 1);
      assert i * config.chunkSize == (i - 1) * config.chunkSize + config.chunkSize;
    }
  }

  /** Once the end is reached every byte from `start` on belongs to exactly one chunk. */
  lemma {:induction false} EveryByteOnce(start: nat, total: nat, config: ChunkConfig, n: nat, p: nat)
    returns (i: nat)
    requires start <= p < total && Off(start, total, config, n) == total
    ensures i < n && Off(start, total, config, i) <= p < Off(start, total, config, i + 1)
    ensures forall j: nat | j < n && Off(start, total, config, j) <= p < Off(start, total, config, j + 1) :: j == i
  {
    i := ChunkOf(start, total, config, n, p);
    hide Off;
    forall j: nat | j < n && Off(start, total, config, j) <= p < Off(start, total, config, j + 1)
      ensures j == i
    {
      if j < i {
        OffMonotone(start, total, config, j + 1, i);
      } else if i < j {
        OffMonotone(start, total, config, i + 1, j);
      }
    }
  }

  function Repeat<T>(x: T, n: nat): (s: seq<T>)
    ensures |s| == n
  {
    seq(n, _ => x)
  }

  function Sum(xs: seq<nat>): nat
  {
    if xs == [] then 0 else Sum(xs[..|xs| - 1]) + xs[|xs| - 1]
  }

  lemma {:induction false} SumBetween(xs: seq<nat>, extra: nat)
    requires forall i | 0 <= i < |xs| :: 1 <= xs[i] <= extra + 1
    ensures |xs| <= Sum(xs) <= |xs| * extra + |xs|
  {
    if xs != [] {
      SumBetween(xs[..|xs| - 1], extra);
      assert |xs| * extra == (|xs| - 1) * extra + extra;
    }
  }
}
