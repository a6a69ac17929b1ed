/** `PerformanceMonitor`: per-feature call counters and accumulated
    nanoseconds, with pending start times keyed by thread and feature. */
module Performance {
  import opened Strings

  /** A feature's statistics; times are integer nanoseconds. */
  datatype FeatureStats = FeatureStats(calls: nat, totalNanos: int, averageNanos: int)

  /** A pending start time is keyed by `threadName + "_" + feature`. */
  function StartKey(thread: string, feature: string): (k: string)
    ensures |k| == |thread| + 1 + |feature|
    ensures k[..|thread|] == thread && k[|thread|] == '_' && k[|thread| + 1..] == feature
  {
    thread + "_" + feature
  }

  /** The key does not tell the thread from the feature: thread `a_b` timing
      `c` shares its pending start with thread `a` timing `b_c`. */
  lemma StartKeyAmbiguous()
    ensures StartKey("a_b", "c") == StartKey("a", "b_c")
  {
  }

  class PerformanceMonitor {
    var featureTimes: map<string, int>
    var featureCalls: map<string, nat>
    var featureStartTimes: map<string, int>

    /** Every feature with a total has a positive call count, and all stored
        times are `long` values. */
    ghost predicate Valid()
      reads this
    {
      featureTimes.Keys == featureCalls.Keys
      && (forall f :: f in featureCalls ==> featureCalls[f] >= 1)
      && (forall f :: f in featureTimes ==> IsInt64(featureTimes[f]))
      && (forall k :: k in featureStartTimes ==> IsInt64(featureStartTimes[k]))
    }

    constructor()
      ensures Valid()
      ensures featureTimes == map[] && featureCalls == map[] && featureStartTimes == map[]
    {
      featureTimes := map[];
      featureCalls := map[];
      featureStartTimes := map[];
    }

    /** `startTiming`: records (or overwrites) the start time of this thread's
        run of `feature`; `now` stands for `System.nanoTime()`. */
    method StartTiming(thread: string, feature: string, now: int)
      requires Valid() && IsInt64(now)
      modifies this
      ensures Valid()
      ensures featureStartTimes == old(featureStartTimes)[StartKey(thread, feature) := now]
      ensures featureTimes == old(featureTimes) && featureCalls == old(featureCalls)
    {
      featureStartTimes := featureStartTimes[StartKey(thread, feature) := now];
    }

    /** `stopTiming`: without a pending start nothing changes; otherwise the
        start is removed, the elapsed time (a wrapping `long` difference) is
        added to the feature's total with a wrapping `long` sum, and the call
        count grows by exactly one. */
    method StopTiming(thread: string, feature: string, now: int)
      requires Valid() && IsInt64(now)
      modifies this
      ensures Valid()
      ensures StartKey(thread, feature) !in old(featureStartTimes) ==>
        featureStartTimes == old(featureStartTimes)
        && featureTimes == old(featureTimes) && featureCalls == old(featureCalls)
      ensures StartKey(thread, feature) in old(featureStartTimes) ==>
        var duration := Wrap64(now - old(featureStartTimes)[StartKey(thread, feature)]);
        featureStartTimes == old(featureStartTimes) - {StartKey(thread, feature)}
        && featureTimes == old(featureTimes)[feature :=
             if feature in old(featureTimes) then Wrap64(old(featureTimes)[feature] + duration) else duration]
        && featureCalls == old(featureCalls)[feature :=
             if feature in old(featureCalls) then old(featureCalls)[feature] + 1 else 1]
    {
      var key := StartKey(thread, feature);
      if key in featureStartTimes {
        var startTime := featureStartTimes[key];
        featureStartTimes := featureStartTimes - {key};
        var duration := Wrap64(now - startTime);
        featureTimes := featureTimes[feature :=
          if feature in featureTimes then Wrap64(featureTimes[feature] + duration) else duration];
        featureCalls := featureCalls[feature :=
          if feature in featureCalls then featureCalls[feature] + 1 else 1];
      }
    }

    /** `getTotalCalls`: the call count, 0 for an unknown feature. */
    function TotalCalls(feature: string): (n: nat)
      reads this
      ensures feature in featureCalls ==> n == featureCalls[feature]
      ensures feature !in featureCalls ==> n == 0
    {
      if feature in featureCalls then featureCalls[feature] else 0
    }

    /** `getTotalTime` before the unit conversion: 0 for an unknown feature. */
    function TotalNanos(feature: string): (t: int)
      reads this
      ensures feature in featureTimes ==> t == featureTimes[feature]
      ensures feature !in featureTimes ==> t == 0
    {
      if feature in featureTimes then featureTimes[feature] else 0
    }

    /** `getAverageTime` before the unit conversion: 0 without data, else the
        `long` quotient of the total by the call count, truncated toward zero. */
    function AverageNanos(feature: string): (avg: int)
      reads this
      ensures feature !in featureTimes || feature !in featureCalls || featureCalls[feature] == 0 ==> avg == 0
      ensures feature in featureTimes && feature in featureCalls && featureCalls[feature] > 0
              && featureTimes[feature] >= 0 ==>
        0 <= avg * featureCalls[feature] <= featureTimes[feature] < (avg + 1) * featureCalls[feature]
      ensures feature in featureTimes && feature in featureCalls && featureCalls[feature] > 0
              && featureTimes[feature] < 0 ==>
        (avg - 1) * featureCalls[feature] < featureTimes[feature] <= avg * featureCalls[feature] <= 0
    {
      if feature !in featureTimes || feature !in featureCalls || featureCalls[feature] == 0 then 0
      else JavaDiv(featureTimes[feature], featureCalls[feature])
    }

    /** The statistics `getAllStats` reports for one feature. */
    function StatsOf(feature: string): FeatureStats
      reads this
    {
      FeatureStats(TotalCalls(feature), TotalNanos(feature), AverageNanos(feature))
    }

    /** `getAllStats`: exactly the features that have a total, each with its
        statistics; nothing changes. */
    method GetAllStats() returns (stats: map<string, FeatureStats>)
      ensures stats.Keys == featureTimes.Keys
      ensures forall f :: f in stats ==> stats[f] == StatsOf(f)
    {
      stats := map[];
      var remaining := featureTimes.Keys;
      while remaining != {}
        invariant remaining <= featureTimes.Keys
        invariant stats.Keys == featureTimes.Keys - remaining
        invariant forall f :: f in stats ==> stats[f] == StatsOf(f)
        decreases |remaining|
      {
        var feature :| feature in remaining;
        stats := stats[feature := StatsOf(feature)];
        remaining := remaining - {feature};
      }
    }

    /** `reset`: all three maps are emptied. */
    method Reset()
      modifies this
      ensures Valid()
      ensures featureTimes == map[] && featureCalls == map[] && featureStartTimes == map[]
    {
      featureTimes := map[];
      featureCalls := map[];
      featureStartTimes := map[];
    }
  }

  /** Totals are per feature: two threads timing the same feature add to the
      same counter, while their pending starts stay apart. */
  method TwoThreadsShareTotals() returns (calls: int, total: int, average: int)
    ensures calls == 2 && total == 300 && average == 150
  {
    var m := new PerformanceMonitor();
    m.StartTiming("worker-1", "tablist", 100);
    m.StartTiming("worker-2", "tablist", 150);
    m.StopTiming("worker-1", "tablist", 300);
    m.StopTiming("worker-2", "tablist", 250);
    assert m.featureStartTimes == map[];
    assert m.TotalCalls("tablist") == 2;
    assert m.TotalNanos("tablist") == 300;
    assert m.AverageNanos("tablist") == 150;
    m.StopTiming("worker-1", "tablist", 400);
    calls, total, average := m.TotalCalls("tablist"), m.TotalNanos("tablist"), m.AverageNanos("tablist");
  }
}
