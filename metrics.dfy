/** The OEE metric engine: planned production time is recomputed from the
    piece count and the ideal cycle time, the Availability, Performance and
    Quality ratios and their product are formed, and all four are clipped to
    [0, 1]. Arithmetic is exact (`real`). */
module Calculations {
  import opened Wrappers
  import opened Frames

  datatype Metrics = Metrics(availability: real, performance: real, quality: real, oee: real)

  /** One production record. `metrics` holds the four derived columns once
      they have been written, and None while the table does not have them. */
  datatype ProductionRow = ProductionRow(
    startOfOrder: Instant,
    productionLine: string,
    partNumber: string,
    plannedProductionTime: real,
    actualProductionTime: real,
    idealCycleTime: real,
    totalPieces: real,
    goodPieces: real,
    plannedDowntime: real,
    unplannedDowntime: real,
    metrics: Option<Metrics>)

  /** `series.clip(0, 1)` on one value. */
  function Clip(x: real): (r: real)
    ensures 0.0 <= r <= 1.0
    ensures 0.0 <= x <= 1.0 ==> r == x
    ensures x < 0.0 ==> r == 0.0
    ensures x > 1.0 ==> r == 1.0
  {
    if x < 0.0 then 0.0 else if x > 1.0 then 1.0 else x
  }

  /** The divisions of lines 13, 16 and 19 are unguarded: they are defined
      only when the actual production time and the piece count are non-zero. */
  predicate Computable(r: ProductionRow) {
    r.actualProductionTime != 0.0 && r.totalPieces != 0.0
  }

  /** Line 10: the theoretical time the pieces needed. */
  function PlannedTime(r: ProductionRow): real {
    r.totalPieces * r.idealCycleTime
  }

  /** Line 13, before clipping; it reads the planned time line 10 wrote. */
  function RawAvailability(r: ProductionRow): real
    requires r.actualProductionTime != 0.0
  {
    (PlannedTime(r) + r.plannedDowntime) / r.actualProductionTime
  }

  /** Line 16, before clipping. */
  function RawPerformance(r: ProductionRow): real
    requires r.actualProductionTime != 0.0
  {
    (r.idealCycleTime * r.totalPieces) / r.actualProductionTime
  }

  /** Line 19, before clipping. */
  function RawQuality(r: ProductionRow): real
    requires r.totalPieces != 0.0
  {
    r.goodPieces / r.totalPieces
  }

  /** Lines 22-28: OEE is formed from the unclipped ratios, then all four
      values are clipped. */
  function Clipped(availability: real, performance: real, quality: real): (m: Metrics)
    ensures 0.0 <= m.availability <= 1.0 && 0.0 <= m.performance <= 1.0
    ensures 0.0 <= m.quality <= 1.0 && 0.0 <= m.oee <= 1.0
  {
    Metrics(Clip(availability), Clip(performance), Clip(quality), Clip(availability * performance * quality))
  }

  /** Lines 13-28 for one row. */
  function MetricsOf(r: ProductionRow): (m: Metrics)
    requires Computable(r)
    ensures 0.0 <= m.availability <= 1.0 && 0.0 <= m.performance <= 1.0
    ensures 0.0 <= m.quality <= 1.0 && 0.0 <= m.oee <= 1.0
  {
    Clipped(RawAvailability(r), RawPerformance(r), RawQuality(r))
  }

  /** The fields the formulas read, and only those. */
  predicate SameInputs(x: ProductionRow, y: ProductionRow) {
    && x.actualProductionTime == y.actualProductionTime
    && x.idealCycleTime == y.idealCycleTime
    && x.totalPieces == y.totalPieces
    && x.goodPieces == y.goodPieces
    && x.plannedDowntime == y.plannedDowntime
  }

  /** All four reported values lie in [0, 1], as lines 25-28 leave them. */
  predicate InUnitRange(m: Metrics) {
    && 0.0 <= m.availability <= 1.0 && 0.0 <= m.performance <= 1.0
    && 0.0 <= m.quality <= 1.0 && 0.0 <= m.oee <= 1.0
  }

  /** One row after `calculate_oee_metrics`: the planned time is overwritten,
      the four metrics are written, already clipped, and every other field is
      left as it was. */
  function WithMetrics(r: ProductionRow): (out: ProductionRow)
    requires Computable(r)
    ensures out.plannedProductionTime == r.totalPieces * r.idealCycleTime
    ensures out.metrics.Some? && InUnitRange(out.metrics.value)
    ensures out.(plannedProductionTime := r.plannedProductionTime, metrics := r.metrics) == r
    ensures Computable(out) && SameInputs(out, r)
  {
    r.(plannedProductionTime := PlannedTime(r), metrics := Some(MetricsOf(r)))
  }

  /** Every row of a table the engine can process. */
  predicate AllComputable(rows: seq<ProductionRow>) {
    forall i :: 0 <= i < |rows| ==> Computable(rows[i])
  }

  /** The whole table after `calculate_oee_metrics`: the rows keep their
      count and order, and in each only the planned time and the metrics
      differ from the input. */
  function CalculateAll(rows: seq<ProductionRow>): (out: seq<ProductionRow>)
    requires AllComputable(rows)
    ensures |out| == |rows| && AllComputable(out)
    ensures forall i :: 0 <= i < |rows| ==>
      && out[i].(plannedProductionTime := rows[i].plannedProductionTime, metrics := rows[i].metrics) == rows[i]
      && out[i].plannedProductionTime == rows[i].totalPieces * rows[i].idealCycleTime
      && out[i].metrics.Some? && InUnitRange(out[i].metrics.value)
  {
    seq(|rows|, i requires 0 <= i < |rows| => WithMetrics(rows[i]))
  }

  /** `calculate_oee_metrics(df)`: the records are updated in place, one at a
      time. Line 7 converts a column that already holds timestamps and leaves
      it as it is. */
  method CalculateOeeMetrics(df: array<ProductionRow>)
    requires AllComputable(df[..])
    modifies df
    ensures df[..] == CalculateAll(old(df[..]))
  {
    var i := 0;
    while i < df.Length
      invariant 0 <= i <= df.Length
      invariant forall k :: 0 <= k < i ==> df[k] == WithMetrics(old(df[k]))
      invariant forall k :: i <= k < df.Length ==> df[k] == old(df[k])
    {
      df[i] := WithMetrics(df[i]);
      i := i + 1;
    }
  }

  // ---- properties -----------------------------------------------------

  lemma MulNonneg(a: real, b: real)
    requires a >= 0.0 && b >= 0.0
    ensures a * b >= 0.0
  {
    if a > 0.0 && b > 0.0 {
      assert a * b > 0.0;
    }
  }

  /** The product of two ratios in [0, 1] is again in [0, 1]. */
  lemma UnitProduct(x: real, y: real)
    requires 0.0 <= x <= 1.0 && 0.0 <= y <= 1.0
    ensures 0.0 <= x * y <= 1.0
  {
    MulNonneg(x, y);
    MulNonneg(1.0 - x, y);
    assert (1.0 - x) * y == y - x * y;
  }

  /** Clipping a product of three ratios in [0, 1] changes nothing. */
  lemma ClipProductExact(a: real, p: real, q: real)
    requires 0.0 <= a <= 1.0 && 0.0 <= p <= 1.0 && 0.0 <= q <= 1.0
    ensures Clip(a * p * q) == Clip(a) * Clip(p) * Clip(q)
  {
    UnitProduct(a, p);
    UnitProduct(a * p, q);
  }

  /** Clipping preserves order. */
  lemma ClipMonotone(x: real, y: real)
    requires x <= y
    ensures Clip(x) <= Clip(y)
  {
  }

  /** Clipping after the product: OEE is the clipped product of the raw
      ratios, and when none of them needed clipping it is exactly the
      product of the three reported values. */
  lemma ClippedComposition(a: real, p: real, q: real)
    ensures Clipped(a, p, q).oee == Clip(a * p * q)
    ensures 0.0 <= a <= 1.0 && 0.0 <= p <= 1.0 && 0.0 <= q <= 1.0 ==>
      var m := Clipped(a, p, q);
      m.oee == m.availability * m.performance * m.quality
  {
    if 0.0 <= a <= 1.0 && 0.0 <= p <= 1.0 && 0.0 <= q <= 1.0 {
      ClipProductExact(a, p, q);
    }
  }

  /** OEE is the product of the unclipped ratios, clipped afterwards; when
      none of the three ratios needed clipping it is exactly the product of
      the reported Availability, Performance and Quality. */
  lemma OeeComposition(r: ProductionRow)
    requires Computable(r)
    ensures WithMetrics(r).metrics == Some(MetricsOf(r))
    ensures MetricsOf(r).oee == Clip(RawAvailability(r) * RawPerformance(r) * RawQuality(r))
    ensures var m := MetricsOf(r);
      (0.0 <= RawAvailability(r) <= 1.0 && 0.0 <= RawPerformance(r) <= 1.0 && 0.0 <= RawQuality(r) <= 1.0) ==>
        m.oee == m.availability * m.performance * m.quality
  {
    ClippedComposition(RawAvailability(r), RawPerformance(r), RawQuality(r));
  }

  /** Raw Availability is raw Performance plus the share of planned downtime. */
  lemma AvailabilitySplit(r: ProductionRow)
    requires Computable(r)
    ensures RawAvailability(r) == RawPerformance(r) + r.plannedDowntime / r.actualProductionTime
  {
    var t := r.actualProductionTime;
    assert (PlannedTime(r) + r.plannedDowntime) / t == PlannedTime(r) / t + r.plannedDowntime / t;
  }

  /** With no negative planned downtime and a positive production time, the
      reported Availability is never below the reported Performance. */
  lemma AvailabilityAtLeastPerformance(r: ProductionRow)
    requires Computable(r) && r.plannedDowntime >= 0.0 && r.actualProductionTime > 0.0
    ensures WithMetrics(r).metrics.value.availability >= WithMetrics(r).metrics.value.performance
  {
    AvailabilitySplit(r);
    assert r.plannedDowntime / r.actualProductionTime >= 0.0;
    ClipMonotone(RawPerformance(r), RawAvailability(r));
  }

  /** With a good-piece count between zero and the positive total, Quality is
      the plain ratio: clipping has no effect. */
  lemma QualityExact(r: ProductionRow)
    requires 0.0 <= r.goodPieces <= r.totalPieces && r.totalPieces > 0.0 && r.actualProductionTime != 0.0
    ensures WithMetrics(r).metrics.value.quality == r.goodPieces / r.totalPieces
  {
    var q := r.goodPieces / r.totalPieces;
    assert q * r.totalPieces == r.goodPieces;
    assert q <= 1.0;
  }

  /** The uploaded planned production time is discarded. */
  lemma PlannedTimeRecomputed(r: ProductionRow, planned: real)
    requires Computable(r)
    ensures WithMetrics(r.(plannedProductionTime := planned)) == WithMetrics(r)
  {
    var x := r.(plannedProductionTime := planned);
    MetricsOfInputs(x, r);
    assert x.(plannedProductionTime := PlannedTime(x)) == r.(plannedProductionTime := PlannedTime(r));
  }

  /** The metrics depend on the five input fields alone. */
  lemma MetricsOfInputs(x: ProductionRow, y: ProductionRow)
    requires Computable(x) && SameInputs(x, y)
    ensures MetricsOf(x) == MetricsOf(y)
  {
    assert RawAvailability(x) == RawAvailability(y);
    assert RawPerformance(x) == RawPerformance(y);
    assert RawQuality(x) == RawQuality(y);
  }

  /** Running the engine on its own output changes nothing. */
  lemma WithMetricsIdempotent(r: ProductionRow)
    requires Computable(r)
    ensures WithMetrics(WithMetrics(r)) == WithMetrics(r)
  {
    MetricsOfInputs(WithMetrics(r), r);
  }

  lemma CalculateAllIdempotent(rows: seq<ProductionRow>)
    requires AllComputable(rows)
    ensures CalculateAll(CalculateAll(rows)) == CalculateAll(rows)
  {
    forall i | 0 <= i < |rows|
      ensures CalculateAll(CalculateAll(rows))[i] == CalculateAll(rows)[i]
    {
      WithMetricsIdempotent(rows[i]);
    }
  }

  /** The worked example: 751 pieces, 698 good, an ideal cycle of 0.5, 471
      time units of production and 35 of planned downtime. */
  lemma ConcreteScenario(r: ProductionRow)
    requires r.totalPieces == 751.0 && r.goodPieces == 698.0 && r.idealCycleTime == 0.5
    requires r.actualProductionTime == 471.0 && r.plannedDowntime == 35.0
    ensures var out := WithMetrics(r);
      && out.plannedProductionTime == 375.5
      && out.metrics == Some(Metrics(821.0 / 942.0, 751.0 / 942.0, 698.0 / 751.0, 573058.0 / 887364.0))
  {
    assert RawAvailability(r) == 821.0 / 942.0;
    assert RawPerformance(r) == 751.0 / 942.0;
    assert RawQuality(r) == 698.0 / 751.0;
    assert (821.0 / 942.0) * (751.0 / 942.0) * (698.0 / 751.0) == 573058.0 / 887364.0;
  }
}
