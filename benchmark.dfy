/**
 * The bookkeeping of EazyStart/src/time/benchmark.c: a table of named
 * benchmark entries, each a small state machine that alternates between
 * idle and running and records the durations of its completed runs.
 *
 * Clock readings are inputs of the operations. The recorded durations are
 * kept in a ghost history per name, so that the entry's count, minimum,
 * maximum and sum can be stated as facts about everything recorded.
 */
module Benchmark {
  import opened Wrappers
  import opened Clock

  const Int64Max: int := 0x7fff_ffff_ffff_ffff

  /** The minimum a fresh entry starts with: larger than any duration. */
  const MinSentinel: Timespec := Timespec(Int64Max, NanosPerSec - 1)

  /** BenchmarkEntry, without the long double variance accumulator. */
  datatype Entry = Entry(
    idle: bool,
    count: nat,
    lastTime: Timespec,
    minDuration: Timespec,
    maxDuration: Timespec,
    sumDuration: Timespec)

  /** The zero-initialised entry `(BenchmarkEntry){0}`. */
  const ZeroEntry: Entry := Entry(false, 0, Zero, Zero, Zero, Zero)

  predicate AllNormalised(ds: seq<Timespec>) {
    forall i :: 0 <= i < |ds| ==> Normalised(ds[i])
  }

  /** The smallest of the durations by Compare, the earliest on ties. */
  function MinOf(ds: seq<Timespec>): Timespec
    requires |ds| > 0
    decreases |ds|
  {
    if |ds| == 1 then ds[0]
    else
      var m := MinOf(ds[..|ds| - 1]);
      if Compare(ds[|ds| - 1], m) < 0 then ds[|ds| - 1] else m
  }

  /** The largest of the durations by Compare, the earliest on ties. */
  function MaxOf(ds: seq<Timespec>): Timespec
    requires |ds| > 0
    decreases |ds|
  {
    if |ds| == 1 then ds[0]
    else
      var m := MaxOf(ds[..|ds| - 1]);
      if Compare(ds[|ds| - 1], m) > 0 then ds[|ds| - 1] else m
  }

  /** The timespec sum of the durations, added in order. */
  function SumOf(ds: seq<Timespec>): (r: Timespec)
    requires |ds| > 0 && AllNormalised(ds)
    ensures Normalised(r)
    decreases |ds|
  {
    if |ds| == 1 then ds[0] else Add(SumOf(ds[..|ds| - 1]), ds[|ds| - 1])
  }

  /** The total of the durations in nanoseconds. */
  function TotalOf(ds: seq<Timespec>): int
    decreases |ds|
  {
    if |ds| == 0 then 0 else TotalOf(ds[..|ds| - 1]) + TotalNanos(ds[|ds| - 1])
  }

  /** The minimum is one of the durations and no duration is smaller. */
  lemma {:induction false} MinOfIsLeast(ds: seq<Timespec>)
    requires |ds| > 0 && AllNormalised(ds)
    ensures MinOf(ds) in ds
    ensures forall i :: 0 <= i < |ds| ==> Compare(MinOf(ds), ds[i]) <= 0
    decreases |ds|
  {
    if |ds| > 1 {
      var init, d := ds[..|ds| - 1], ds[|ds| - 1];
      MinOfIsLeast(init);
      var m := MinOf(init);
      forall i | 0 <= i < |ds|
        ensures Compare(MinOf(ds), ds[i]) <= 0
      {
        CompareMatchesNanos(MinOf(ds), ds[i]);
        CompareMatchesNanos(d, m);
        if i < |ds| - 1 {
          assert ds[i] == init[i];
          CompareMatchesNanos(m, init[i]);
        }
      }
    } else {
      CompareMatchesNanos(ds[0], ds[0]);
    }
  }

  /** The maximum is one of the durations and no duration is larger. */
  lemma {:induction false} MaxOfIsGreatest(ds: seq<Timespec>)
    requires |ds| > 0 && AllNormalised(ds)
    ensures MaxOf(ds) in ds
    ensures forall i :: 0 <= i < |ds| ==> Compare(MaxOf(ds), ds[i]) >= 0
    decreases |ds|
  {
    if |ds| > 1 {
      var init, d := ds[..|ds| - 1], ds[|ds| - 1];
      MaxOfIsGreatest(init);
      var m := MaxOf(init);
      forall i | 0 <= i < |ds|
        ensures Compare(MaxOf(ds), ds[i]) >= 0
      {
        CompareMatchesNanos(MaxOf(ds), ds[i]);
        CompareMatchesNanos(d, m);
        if i < |ds| - 1 {
          assert ds[i] == init[i];
          CompareMatchesNanos(m, init[i]);
        }
      }
    } else {
      CompareMatchesNanos(ds[0], ds[0]);
    }
  }

  /** The minimum never exceeds the maximum. */
  lemma MinAtMostMax(ds: seq<Timespec>)
    requires |ds| > 0 && AllNormalised(ds)
    ensures Compare(MinOf(ds), MaxOf(ds)) <= 0
  {
    MinOfIsLeast(ds);
    MaxOfIsGreatest(ds);
    var i :| 0 <= i < |ds| && ds[i] == MaxOf(ds);
    assert Compare(MinOf(ds), ds[i]) <= 0;
  }

  /** The running sum holds the total of all durations. */
  lemma {:induction false} SumOfIsTotal(ds: seq<Timespec>)
    requires |ds| > 0 && AllNormalised(ds)
    ensures TotalNanos(SumOf(ds)) == TotalOf(ds)
    decreases |ds|
  {
    if |ds| > 1 {
      var init := ds[..|ds| - 1];
      SumOfIsTotal(init);
    } else {
      assert ds[..0] == [];
    }
  }

  /** Appending a duration d below the current minimum leaves the maximum
      alone: the `else if` of ezs_benchmark_end loses nothing. */
  lemma BelowMinKeepsMax(ds: seq<Timespec>, d: Timespec)
    requires |ds| > 0 && AllNormalised(ds) && Normalised(d)
    requires Compare(d, MinOf(ds)) < 0
    ensures MaxOf(ds + [d]) == MaxOf(ds)
  {
    var ds' := ds + [d];
    assert ds'[..|ds'| - 1] == ds;
    var lo, hi := MinOf(ds), MaxOf(ds);
    MinOfIsLeast(ds);
    MaxOfIsGreatest(ds);
    MinAtMostMax(ds);
    CompareMatchesNanos(d, lo);
    CompareMatchesNanos(lo, hi);
    assert TotalNanos(d) < TotalNanos(hi);
    CompareMatchesNanos(d, hi);
    assert Compare(d, hi) < 0;
  }

  /** An entry agrees with the durations recorded for it. */
  ghost predicate Agrees(e: Entry, h: seq<Timespec>) {
    e.count == |h| && Normalised(e.lastTime) && AllNormalised(h) &&
    (e.count == 0 ==> !e.idle) &&
    (|h| == 0 ==>
      e.minDuration == MinSentinel && e.maxDuration == Zero && e.sumDuration == Zero) &&
    (|h| > 0 ==>
      e.minDuration == MinOf(h) && e.maxDuration == MaxOf(h) && e.sumDuration == SumOf(h))
  }

  /** The statistics calculate_benchmark_statistics derives its mean from,
      the sum and the count; nothing for an entry that has no runs. */
  datatype Totals = Totals(sumDuration: Timespec, count: nat)

  function Statistics(e: Entry): (r: Option<Totals>)
    ensures r.None? <==> e.count == 0
    ensures r.Some? ==> r.value.count > 0
  {
    if e.count == 0 then None else Some(Totals(e.sumDuration, e.count))
  }

  /** The update ezs_benchmark_end makes to a running entry for a run of
      duration d: idle again, one more run, the first run setting all three
      statistics, later ones lowering the minimum or else raising the
      maximum, and the sum growing by d. */
  function RecordRun(e: Entry, d: Timespec): (r: Entry)
    requires Normalised(e.sumDuration) && Normalised(d)
    ensures r.idle && r.count == e.count + 1 && r.lastTime == e.lastTime
    ensures Normalised(r.sumDuration)
    ensures TotalNanos(r.sumDuration) ==
      (if e.count == 0 then 0 else TotalNanos(e.sumDuration)) + TotalNanos(d)
  {
    var e1 := e.(idle := true, count := e.count + 1);
    if e1.count == 1 then
      e1.(minDuration := d, maxDuration := d, sumDuration := d)
    else
      var e2 :=
        if Compare(d, e1.minDuration) < 0 then e1.(minDuration := d)
        else if Compare(d, e1.maxDuration) > 0 then e1.(maxDuration := d)
        else e1;
      e2.(sumDuration := Add(e2.sumDuration, d))
  }

  /** Recording a run keeps the entry in agreement with its history
      extended by the run's duration: the minimum, maximum and sum become
      those of all recorded runs. */
  lemma RecordRunAgrees(e: Entry, h: seq<Timespec>, d: Timespec)
    requires Agrees(e, h) && !e.idle && Normalised(d)
    ensures Agrees(RecordRun(e, d), h + [d])
    ensures RecordRun(e, d) == e.(idle := true, count := e.count + 1,
      minDuration := MinOf(h + [d]), maxDuration := MaxOf(h + [d]),
      sumDuration := SumOf(h + [d]))
  {
    var h' := h + [d];
    assert h'[..|h'| - 1] == h;
    if |h| > 0 && Compare(d, MinOf(h)) < 0 {
      BelowMinKeepsMax(h, d);
    }
  }

  /** The table of named entries, g_benchmarks. */
  class Benchmarks {
    var entries: map<string, Entry>
    /** The durations recorded for each name, oldest first. */
    ghost var history: map<string, seq<Timespec>>

    ghost predicate Valid()
      reads this
    {
      entries.Keys == history.Keys &&
      forall name :: name in entries ==> Agrees(entries[name], history[name])
    }

    constructor ()
      ensures Valid() && entries == map[]
    {
      entries := map[];
      history := map[];
    }

    /** ezs_benchmark_clear: the table is left empty. */
    method Clear()
      modifies this
      ensures Valid() && entries == map[]
    {
      entries := map[];
      history := map[];
    }

    /** ezs_benchmark_start(name) with the performance counter reading now.
        An unseen name gets a fresh entry; a running entry is left alone; an
        idle entry starts running from now. */
    method Start(name: string, now: Timespec)
      requires Valid() && Normalised(now)
      modifies this
      ensures Valid()
      ensures name !in old(entries) ==>
        entries == old(entries)[name := Entry(false, 0, now, MinSentinel, Zero, Zero)] &&
        history == old(history)[name := []]
      ensures name in old(entries) && !old(entries)[name].idle ==>
        entries == old(entries) && history == old(history)
      ensures name in old(entries) && old(entries)[name].idle ==>
        entries == old(entries)[name := old(entries)[name].(idle := false, lastTime := now)] &&
        history == old(history)
    {
      hide MinOf;
      hide MaxOf;
      hide SumOf;
      if name !in entries {
        var e := ZeroEntry;
        e := e.(idle := true, minDuration := MinSentinel);
        entries := entries[name := e];
        history := history[name := []];
      } else if !entries[name].idle {
        return;
      }
      var e := entries[name];
      e := e.(idle := false);
      e := e.(lastTime := now);
      assert Agrees(e, history[name]);
      entries := entries[name := e];
    }

    /** ezs_benchmark_end(name) with the performance counter reading
        endTime, None when the counter fails. A running entry records the
        time since its start and becomes idle; every other call changes
        nothing. */
    method End(name: string, endTime: Option<Timespec>)
      requires Valid()
      requires endTime.Some? ==> Normalised(endTime.value)
      modifies this
      ensures Valid()
      ensures endTime.None? || name !in old(entries) || old(entries)[name].idle ==>
        entries == old(entries) && history == old(history)
      ensures endTime.Some? && name in old(entries) && !old(entries)[name].idle ==>
        var e := old(entries)[name];
        var h := old(history)[name] + [Sub(endTime.value, e.lastTime)];
        history == old(history)[name := h] &&
        entries == old(entries)[name := e.(idle := true, count := e.count + 1,
          minDuration := MinOf(h), maxDuration := MaxOf(h), sumDuration := SumOf(h))]
    {
      hide MinOf;
      hide MaxOf;
      hide SumOf;
      if endTime.None? {
        return;
      }
      if name !in entries {
        return;
      }
      var e := entries[name];
      var duration := Sub(endTime.value, e.lastTime);
      if e.idle {
        return;
      }
      ghost var h := history[name];
      RecordRunAgrees(e, h, duration);
      history := history[name := h + [duration]];
      entries := entries[name := RecordRun(e, duration)];
    }
  }

  /** In a consistent table, the statistics are missing exactly for entries
      without a completed run, and otherwise carry the number of runs and
      the total of their durations. */
  lemma StatisticsOfRecorded(e: Entry, h: seq<Timespec>)
    requires Agrees(e, h)
    ensures Statistics(e).None? <==> |h| == 0
    ensures Statistics(e).Some? ==>
      Statistics(e).value.count == |h| &&
      TotalNanos(Statistics(e).value.sumDuration) == TotalOf(h)
  {
    if |h| > 0 {
      SumOfIsTotal(h);
    }
  }
}
