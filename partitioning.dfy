/**
 * The two partitioning rules of database_manager.rs: the point-id ranges `upload_point_cloud`
 * uploads one patch each, and the time windows `upload_rosbag` extracts one point cloud each.
 */
module Partitioning {
  import opened Wrappers
  import opened Failures

  // ---------------------------------------------------------------------------------------------
  // Point-id ranges

  /** The number of point ids per patch. */
  const StepSize: nat := 100000

  /** An inclusive range of point ids. */
  datatype IdRange = IdRange(lo: int, hi: int)

  /** `(id_min..id_max).step_by(StepSize)`, each start `s` giving the range `[s, s + StepSize - 1]`. */
  function PatchRanges(idMin: int, idMax: int): (r: seq<IdRange>)
    decreases idMax - idMin
  {
    if idMin >= idMax then [] else [IdRange(idMin, idMin + StepSize - 1)] + PatchRanges(idMin + StepSize, idMax)
  }

  /** The number of patches is the ceiling of (id_max - id_min) / StepSize, and none when id_min = id_max. */
  lemma {:induction false} PatchCount(idMin: int, idMax: int)
    ensures |PatchRanges(idMin, idMax)| == if idMin >= idMax then 0 else (idMax - idMin + StepSize - 1) / StepSize
    decreases idMax - idMin
  {
    if idMin < idMax {
      PatchCount(idMin + StepSize, idMax);
    }
  }

  /** Patch `k` starts at id_min + k·StepSize, strictly below id_max, and spans StepSize ids. */
  lemma {:induction false} PatchRangeAt(idMin: int, idMax: int, k: nat)
    requires k < |PatchRanges(idMin, idMax)|
    ensures PatchRanges(idMin, idMax)[k] == IdRange(idMin + k * StepSize, idMin + k * StepSize + StepSize - 1)
    ensures idMin + k * StepSize < idMax
    decreases idMax - idMin
  {
    if k > 0 {
      PatchRangeAt(idMin + StepSize, idMax, k - 1);
    }
  }

  /** Neighbouring ranges are adjacent: the next one starts right after the previous one ends. */
  lemma PatchRangesAdjacent(idMin: int, idMax: int, k: nat)
    requires k + 1 < |PatchRanges(idMin, idMax)|
    ensures PatchRanges(idMin, idMax)[k + 1].lo == PatchRanges(idMin, idMax)[k].hi + 1
  {
    PatchRangeAt(idMin, idMax, k);
    PatchRangeAt(idMin, idMax, k + 1);
  }

  /** Whether some range holds the id. */
  predicate Covers(ranges: seq<IdRange>, id: int)
  {
    exists k :: 0 <= k < |ranges| && ranges[k].lo <= id <= ranges[k].hi
  }

  /** Every id falls in at most one range. */
  lemma PatchRangesDisjoint(idMin: int, idMax: int, j: nat, k: nat, id: int)
    requires j < k < |PatchRanges(idMin, idMax)|
    requires PatchRanges(idMin, idMax)[j].lo <= id <= PatchRanges(idMin, idMax)[j].hi
    ensures !(PatchRanges(idMin, idMax)[k].lo <= id <= PatchRanges(idMin, idMax)[k].hi)
  {
    PatchRangeAt(idMin, idMax, j);
    PatchRangeAt(idMin, idMax, k);
  }

  /**
   * The ranges cover exactly the ids from id_min up to the end of the last range; in particular
   * every id in [id_min, id_max) is covered, and id_max itself only when id_max - id_min is not a
   * multiple of StepSize.
   */
  lemma PatchRangesCover(idMin: int, idMax: int, id: int)
    ensures idMin <= id < idMax ==> Covers(PatchRanges(idMin, idMax), id)
    ensures id < idMin ==> !Covers(PatchRanges(idMin, idMax), id)
    ensures Covers(PatchRanges(idMin, idMax), idMax) <==> idMin < idMax && (idMax - idMin) % StepSize != 0
  {
    var r := PatchRanges(idMin, idMax);
    PatchCount(idMin, idMax);
    if idMin <= id < idMax {
      var k := (id - idMin) / StepSize;
      PatchRangeAt(idMin, idMax, k);
    }
    if Covers(r, id) {
      var k :| 0 <= k < |r| && r[k].lo <= id <= r[k].hi;
      PatchRangeAt(idMin, idMax, k);
    }
    if Covers(r, idMax) {
      var k :| 0 <= k < |r| && r[k].lo <= idMax <= r[k].hi;
      PatchRangeAt(idMin, idMax, k);
      assert idMin + k * StepSize < idMax <= idMin + k * StepSize + StepSize - 1;
    }
    if idMin < idMax && (idMax - idMin) % StepSize != 0 {
      var k := (idMax - idMin) / StepSize;
      PatchRangeAt(idMin, idMax, k);
    }
  }

  /** A cloud whose ids are all equal, a single point among them, is uploaded in no patch at all. */
  lemma EqualIdsGiveNoPatch(id: int)
    ensures PatchRanges(id, id) == []
  {
  }

  /** With 100001 points numbered 0 to 100000 the last point's id lies in no range. */
  lemma LastIdMissed()
    ensures PatchRanges(0, 100000) == [IdRange(0, 99999)]
    ensures !Covers(PatchRanges(0, 100000), 100000)
  {
    assert PatchRanges(100000, 100000) == [];
  }

  /** The ranges as evidently intended: the starts of `id_min..=id_max`. */
  function InclusivePatchRanges(idMin: int, idMax: int): seq<IdRange>
  {
    PatchRanges(idMin, idMax + 1)
  }

  /** The corrected ranges cover every id of [id_min, id_max], each exactly once, and no other
      id below id_min; there are (id_max - id_min) / StepSize + 1 of them when id_min <= id_max. */
  lemma InclusiveRangesCoverAll(idMin: int, idMax: int, id: int)
    ensures |InclusivePatchRanges(idMin, idMax)| == if idMin > idMax then 0 else (idMax - idMin) / StepSize + 1
    ensures idMin <= id <= idMax ==> Covers(InclusivePatchRanges(idMin, idMax), id)
    ensures id < idMin ==> !Covers(InclusivePatchRanges(idMin, idMax), id)
  {
    PatchCount(idMin, idMax + 1);
    PatchRangesCover(idMin, idMax + 1, id);
  }

  /** The loop over `id_min..=id_max` visits start `id_min + k·StepSize` exactly when it is at most
      `id_max`, which is when `k` indexes one of the corrected ranges. */
  lemma InclusiveRangeIndex(idMin: int, idMax: int, k: nat)
    ensures k < |InclusivePatchRanges(idMin, idMax)| <==> idMin + k * StepSize <= idMax
    ensures k < |InclusivePatchRanges(idMin, idMax)| ==>
              InclusivePatchRanges(idMin, idMax)[k] == IdRange(idMin + k * StepSize, idMin + k * StepSize + StepSize - 1)
  {
    PatchCount(idMin, idMax + 1);
    if k < |InclusivePatchRanges(idMin, idMax)| {
      PatchRangeAt(idMin, idMax + 1, k);
    }
  }

  // ---------------------------------------------------------------------------------------------
  // Time windows (instants and durations in nanoseconds)

  /** Euclidean absolute value. */
  function Abs(a: int): nat { if a < 0 then -a else a }

  /** Integer division truncating toward zero, as Rust's `/` on `i64`. */
  function TruncDiv(a: int, b: int): (r: int)
    requires b != 0
    ensures Abs(r) * Abs(b) <= Abs(a) < Abs(r) * Abs(b) + Abs(b)
    ensures r == 0 || ((r < 0) <==> ((a < 0) != (b < 0)))
  {
    var x, y := Abs(a), Abs(b);
    var q := x / y;
    DivBounds(x, y);
    var r := if (a < 0) == (b < 0) then q else -q;
    assert Abs(r) == q;
    r
  }

  /** Euclidean division of naturals brackets the dividend between two multiples of the divisor. */
  lemma DivBounds(x: nat, y: nat)
    requires y > 0
    ensures (x / y) * y <= x < (x / y) * y + y
  {
    assert x == (x / y) * y + x % y;
  }

  /** chrono's `num_milliseconds`: the whole milliseconds of a duration, truncated toward zero. */
  function Millis(durationNs: int): (r: int)
    ensures Abs(r) * 1000000 <= Abs(durationNs) < Abs(r) * 1000000 + 1000000
    ensures r == 0 || ((r < 0) <==> (durationNs < 0))
  {
    TruncDiv(durationNs, 1000000)
  }

  /** Rust's `as i32` on an `i64`: the value modulo 2^32, read as two's complement. */
  function AsI32(v: int): (r: int)
    ensures -0x8000_0000 <= r < 0x8000_0000
    ensures (v - r) % 0x1_0000_0000 == 0
  {
    var m := v % 0x1_0000_0000;
    if m >= 0x8000_0000 then m - 0x1_0000_0000 else m
  }

  /** `total_steps`: the whole milliseconds between start and stop divided by the step's whole
      milliseconds, truncated and cast to `i32`; a step under a millisecond divides by zero. */
  function TotalSteps(startNs: int, stopNs: int, stepNs: int): (r: Result<int, Failure>)
    ensures r.Failure? <==> Millis(stepNs) == 0
    ensures r.Failure? ==> r.error == Panic(DivisionByZero)
    ensures r.Success? ==> -0x8000_0000 <= r.value < 0x8000_0000
    ensures r.Success? && -0x8000_0000 <= TruncDiv(Millis(stopNs - startNs), Millis(stepNs)) < 0x8000_0000 ==>
              r.value == TruncDiv(Millis(stopNs - startNs), Millis(stepNs))
  {
    if Millis(stepNs) == 0 then Failure(Panic(DivisionByZero))
    else Success(AsI32(TruncDiv(Millis(stopNs - startNs), Millis(stepNs))))
  }

  /** A half-open time window `[start, stop)`. */
  datatype Window = Window(start: int, stop: int)

  /** `(0..steps).map(...)`: window `i` starts `i` steps after `start` and lasts one step. */
  function Windows(startNs: int, stepNs: int, steps: int): (r: seq<Window>)
    ensures |r| == if steps <= 0 then 0 else steps
  {
    if steps <= 0 then [] else seq(steps, i requires 0 <= i < steps => Window(startNs + i * stepNs, startNs + i * stepNs + stepNs))
  }

  /** The windows `upload_rosbag` extracts point clouds for. */
  function StepWindows(startNs: int, stopNs: int, stepNs: int): Result<seq<Window>, Failure>
  {
    var steps :- TotalSteps(startNs, stopNs, stepNs);
    Success(Windows(startNs, stepNs, steps))
  }

  /** Window `i` is [start + i·D, start + (i+1)·D), and its stop is the start of window `i + 1`. */
  lemma WindowsAdjacent(startNs: int, stepNs: int, steps: int, i: nat)
    requires i < |Windows(startNs, stepNs, steps)|
    ensures Windows(startNs, stepNs, steps)[i] == Window(startNs + i * stepNs, startNs + (i + 1) * stepNs)
    ensures i + 1 < |Windows(startNs, stepNs, steps)| ==>
              Windows(startNs, stepNs, steps)[i].stop == Windows(startNs, stepNs, steps)[i + 1].start
  {
    assert (i + 1) * stepNs == i * stepNs + stepNs;
  }

  /** A step count already inside the `i32` range is unchanged by the cast. */
  lemma AsI32InRange(v: int)
    requires -0x8000_0000 <= v < 0x8000_0000
    ensures AsI32(v) == v
  {
  }

  /** Dividing a natural number by a positive one does not make it larger. */
  lemma DivNoLarger(a: nat, b: nat)
    requires b > 0
    ensures a / b <= a
  {
    var q, r := a / b, a % b;
    assert a == q * b + r;
    if q > 0 {
      MulMonotone(1, b, q);
    }
  }

  /** A stop that is not after the start gives no window, for a step of at least a millisecond and a
      gap that does not wrap the `i32` step count. */
  lemma NoWindowsWhenStopNotAfterStart(startNs: int, stopNs: int, stepNs: int)
    requires stopNs <= startNs && Millis(stepNs) > 0
    requires startNs - stopNs <= 0x8000_0000 * 1000000
    ensures StepWindows(startNs, stopNs, stepNs) == Success([])
  {
    var t := Millis(stopNs - startNs);
    assert Abs(stopNs - startNs) == startNs - stopNs;
    assert Abs(t) == (startNs - stopNs) / 1000000;
    assert t <= 0 && Abs(t) <= 0x8000_0000;
    var m := Millis(stepNs);
    DivNoLarger(Abs(t), Abs(m));
    var q := TruncDiv(t, m);
    assert -0x8000_0000 <= q <= 0;
    AsI32InRange(q);
    assert TotalSteps(startNs, stopNs, stepNs) == Success(q);
  }

  /** A step shorter than a millisecond is a division by zero. */
  lemma SubMillisecondStepPanics(startNs: int, stopNs: int, stepNs: int)
    requires -1000000 < stepNs < 1000000
    ensures StepWindows(startNs, stopNs, stepNs) == Failure(Panic(DivisionByZero))
  {
  }

  lemma MulMonotone(a: nat, b: nat, c: nat)
    requires a <= b
    ensures a * c <= b * c
  {
  }

  /** The arithmetic of the last window: n·d whole milliseconds fit in `total`, n + 1 do not. */
  lemma LastWindowBracket(total: int, t: int, r: int, nd: int, q: int, d: int)
    requires total == t * 1000000 + r && 0 <= r < 1000000
    requires t == nd + q && 0 <= q < d
    ensures nd * 1000000 <= total < nd * 1000000 + d * 1000000
  {
  }

  /**
   * With a step of whole milliseconds, the windows reach exactly steps·D past the start, and the
   * last one ends at or before the stop, less than one step before it; a trailing partial window
   * is dropped.
   */
  lemma WholeMillisecondWindowsEndByStop(startNs: int, stopNs: int, stepNs: int)
    requires startNs <= stopNs && stepNs > 0 && stepNs % 1000000 == 0
    requires Millis(stopNs - startNs) / Millis(stepNs) < 0x8000_0000
    ensures StepWindows(startNs, stopNs, stepNs).Success?
    ensures var w := StepWindows(startNs, stopNs, stepNs).value;
            w != [] ==> w[|w| - 1].stop <= stopNs && stopNs - w[|w| - 1].stop < stepNs
  {
    var total := stopNs - startNs;
    var d := stepNs / 1000000;
    assert stepNs == d * 1000000;
    assert Millis(stepNs) == d;
    var t := total / 1000000;
    assert Millis(total) == t;
    var n := t / d;
    assert TruncDiv(t, d) == n;
    AsI32InRange(n);
    assert TotalSteps(startNs, stopNs, stepNs) == Success(n);
    var w := StepWindows(startNs, stopNs, stepNs).value;
    assert w == Windows(startNs, stepNs, n);
    if n > 0 {
      WindowsAdjacent(startNs, stepNs, n, n - 1);
      assert w[n - 1].stop == startNs + n * stepNs;
      var nd := n * d;
      assert t == nd + t % d;
      LastWindowBracket(total, t, total % 1000000, nd, t % d, d);
      assert n * stepNs == nd * 1000000 by {
        assert n * stepNs == n * (d * 1000000);
      }
    }
  }

  /** With a step that is not a whole number of milliseconds the windows can overrun the stop:
      2.9 ms in steps of 1.5 ms count two steps, and the second ends at 3 ms. */
  lemma FractionalStepOverrunsStop()
    ensures var w := StepWindows(0, 2900000, 1500000);
            w == Success([Window(0, 1500000), Window(1500000, 3000000)]) && w.value[1].stop > 2900000
  {
    assert Millis(2900000) == 2 && Millis(1500000) == 1;
    assert TotalSteps(0, 2900000, 1500000) == Success(2);
    var w := Windows(0, 1500000, 2);
    assert w[0] == Window(0, 1500000) && w[1] == Window(1500000, 3000000);
    assert w == [Window(0, 1500000), Window(1500000, 3000000)];
  }

  /** A step count beyond the `i32` range wraps: 2^31 one-millisecond steps give a negative count
      and no window at all. */
  lemma StepCountWraps()
    ensures TotalSteps(0, 0x8000_0000 * 1000000, 1000000) == Success(-0x8000_0000)
    ensures StepWindows(0, 0x8000_0000 * 1000000, 1000000) == Success([])
  {
  }
}
