/** The throttle around `bt_landing_progress`: the closure built by
    `_make_landing_progress_callback`, its clock counted in milliseconds. */
module LandingThrottle {
  import opened Wrappers

  const MIN_INTERVAL: int := 5000
  const MIN_PERCENT_JUMP: int := 10

  /** One call of the callback. */
  datatype Sample = Sample(now: int, written: nat, total: nat)

  datatype Emit = Emit(at: int, percent: int)

  function Percent(written: nat, total: nat): int {
    if total == 0 then 0 else written * 100 / total
  }

  /** The percentage is the whole points done: 100 for a full download, 0 of an unknown total. */
  lemma PercentIs(written: nat, total: nat)
    ensures total == 0 ==> Percent(written, total) == 0
    ensures total > 0 ==> total * Percent(written, total) <= 100 * written < total * (Percent(written, total) + 1)
    ensures total > 0 && written == total ==> Percent(written, total) == 100
  {
    if total > 0 {
      var q := written * 100 / total;
      DivBounds(written * 100, total);
      assert total * (q + 1) == total * q + total;
      LessThanTimes(100, q, total);
      LessThanTimes(q, 100, total);
    }
  }

  function EmitOf(s: Sample): Emit { Emit(s.now, Percent(s.written, s.total)) }

  /** Two emits are five seconds or ten points apart. */
  predicate FarApart(a: Emit, b: Emit) {
    b.at - a.at >= MIN_INTERVAL || b.percent - a.percent >= MIN_PERCENT_JUMP
  }

  ghost predicate Spaced(emits: seq<Emit>) {
    forall k :: 0 < k < |emits| ==> FarApart(emits[k - 1], emits[k])
  }

  class ProgressCallback {
    var lastEditAt: Option<int>
    var lastPercent: Option<int>
    ghost var emits: seq<Emit>

    ghost predicate Valid()
      reads this
    {
      if emits == [] then lastEditAt.None? && lastPercent.None?
      else
        && lastEditAt == Some(emits[|emits| - 1].at)
        && lastPercent == Some(emits[|emits| - 1].percent)
        && Spaced(emits)
    }

    constructor ()
      ensures Valid() && emits == []
    {
      lastEditAt, lastPercent, emits := None, None, [];
    }

    /** Emits the first sample, and then exactly those far from the last one emitted. */
    method OnProgress(s: Sample) returns (emitted: bool)
      requires Valid()
      modifies this
      ensures Valid()
      ensures emitted <==>
        || old(emits) == []
        || s.now - old(emits)[|old(emits)| - 1].at >= 5000
        || Percent(s.written, s.total) - old(emits)[|old(emits)| - 1].percent >= 10
      ensures emits == if emitted then old(emits) + [EmitOf(s)] else old(emits)
    {
      var percent := Percent(s.written, s.total);
      emitted := lastEditAt.None?
        || s.now - lastEditAt.value >= MIN_INTERVAL
        || lastPercent.None?
        || percent - lastPercent.value >= MIN_PERCENT_JUMP;
      if !emitted { return; }
      lastEditAt := Some(s.now);
      lastPercent := Some(percent);
      emits := emits + [Emit(s.now, percent)];
    }
  }

  /** One download: the clock never runs back, bytes only grow and stay within a known total. */
  ghost predicate OneDownload(samples: seq<Sample>) {
    forall j, k :: 0 <= j <= k < |samples| ==>
      && samples[j].now <= samples[k].now
      && samples[j].written <= samples[k].written
      && samples[j].total == samples[k].total
      && (samples[k].total > 0 ==> samples[k].written <= samples[k].total)
  }

  lemma MulMonotone(x: int, y: int, d: nat)
    ensures x <= y ==> d * x <= d * y
  {
  }

  lemma LessThanTimes(p: int, q: int, d: nat)
    ensures d * p < d * q + d ==> p <= q
  {
    MulMonotone(q + 1, p, d);
  }

  lemma DivBounds(n: nat, d: nat)
    requires d > 0
    ensures 0 <= n / d && d * (n / d) <= n < d * (n / d) + d
  {
  }

  lemma PercentGrows(a: nat, b: nat, total: nat)
    requires a <= b && (total > 0 ==> b <= total)
    ensures 0 <= Percent(a, total) <= Percent(b, total) <= 100
  {
    if total > 0 {
      DivBounds(a * 100, total);
      DivBounds(b * 100, total);
      LessThanTimes(a * 100 / total, b * 100 / total, total);
      LessThanTimes(b * 100 / total, 100, total);
    }
  }

  /** Times and percentages of the emits only grow, and stay at or before sample `s`. */
  ghost predicate Growing(emits: seq<Emit>, s: Sample) {
    && (forall j, k :: 0 <= j <= k < |emits| ==> emits[j].at <= emits[k].at && emits[j].percent <= emits[k].percent)
    && (forall k :: 0 <= k < |emits| ==> emits[k].at <= s.now && 0 <= emits[k].percent <= Percent(s.written, s.total))
  }

  lemma GrowingStep(emits: seq<Emit>, s: Sample, next: Sample, emitted: bool)
    requires Growing(emits, s) && OneDownload([s, next])
    ensures Growing(if emitted then emits + [EmitOf(next)] else emits, next)
    ensures Percent(next.written, next.total) <= 100
  {
    assert [s, next][0] == s && [s, next][1] == next;
    PercentGrows(s.written, next.written, next.total);
  }

  /** Each further emit uses up five seconds or ten of the hundred points. */
  lemma {:induction false} EmitsUseUpTime(emits: seq<Emit>)
    requires emits != [] && Spaced(emits)
    requires forall j, k :: 0 <= j <= k < |emits| ==> emits[j].at <= emits[k].at && emits[j].percent <= emits[k].percent
    ensures |emits| <= 1 + (emits[|emits| - 1].at - emits[0].at) / MIN_INTERVAL +
                           (emits[|emits| - 1].percent - emits[0].percent) / MIN_PERCENT_JUMP
  {
    if |emits| > 1 {
      EmitsUseUpTime(emits[..|emits| - 1]);
      assert FarApart(emits[|emits| - 2], emits[|emits| - 1]);
    }
  }

  lemma NextSample(samples: seq<Sample>, i: nat)
    requires OneDownload(samples) && 0 < i < |samples|
    ensures OneDownload([samples[i - 1], samples[i]])
  {
  }

  lemma WithinBound(emits: seq<Emit>, last: Sample)
    requires emits != [] && Spaced(emits) && Growing(emits, last) && Percent(last.written, last.total) <= 100
    ensures |emits| <= 1 + (last.now - emits[0].at) / MIN_INTERVAL + 10
  {
    EmitsUseUpTime(emits);
  }

  /** What was shown last is under five seconds and ten points behind. */
  ghost predicate UpToDate(emits: seq<Emit>, s: Sample) {
    emits != [] &&
    var last := emits[|emits| - 1];
    s.now - last.at < 5000 && Percent(s.written, s.total) - last.percent < 10
  }

  /** The chunk loop of one download: T milliseconds emit at most 1 + T / 5000 + 10 times, and still
      the last emit is never far behind. */
  method Download(samples: seq<Sample>) returns (callback: ProgressCallback)
    requires OneDownload(samples)
    ensures callback.Valid() && Spaced(callback.emits)
    ensures samples == [] ==> callback.emits == []
    ensures samples != [] ==>
      && callback.emits != [] && callback.emits[0] == EmitOf(samples[0])
      && UpToDate(callback.emits, samples[|samples| - 1])
      && |callback.emits| <= 1 + (samples[|samples| - 1].now - samples[0].now) / MIN_INTERVAL + 10
  {
    callback := new ProgressCallback();
    for i := 0 to |samples|
      invariant fresh(callback) && callback.Valid()
      invariant i == 0 ==> callback.emits == []
      invariant i > 0 ==> callback.emits != [] && callback.emits[0] == EmitOf(samples[0])
      invariant i > 0 ==> UpToDate(callback.emits, samples[i - 1])
      invariant i > 0 ==> Growing(callback.emits, samples[i - 1])
      invariant i > 0 ==> Percent(samples[i - 1].written, samples[i - 1].total) <= 100
    {
      ghost var before := callback.emits;
      var emitted := callback.OnProgress(samples[i]);
      if i > 0 {
        NextSample(samples, i);
        GrowingStep(before, samples[i - 1], samples[i], emitted);
      } else {
        assert samples[0].total > 0 ==> samples[0].written <= samples[0].total;
        PercentGrows(0, samples[i].written, samples[i].total);
      }
    }
    if samples != [] {
      WithinBound(callback.emits, samples[|samples| - 1]);
    }
  }
}
