/**
 CPU usage of the process over 1, 5 and 15 minutes, from a sample list that is pruned to 16 minutes.
 Times are ticks of 100 ns; percentages are reals instead of doubles.
 */
module CpuHistory {
  import opened Wrappers

  const TICKS_PER_SECOND := 10_000_000
  const MINUTE := 60 * TICKS_PER_SECOND

  datatype Sample = Sample(time: int, cpu: int)

  /** One call of the reader: the clock, the process's CPU time and the number of processors. */
  datatype Reading = Reading(now: nat, cpu: int, processors: int)

  datatype Usage = Usage(current: real, avg1: real, avg5: real, avg15: real)

  const ZERO := Usage(0.0, 0.0, 0.0, 0.0)

  function Seconds(ticks: int): real {
    ticks as real / TICKS_PER_SECOND as real
  }

  function Clamp(x: real): real {
    if x < 0.0 then 0.0 else if x > 100.0 then 100.0 else x
  }

  function Processors(n: int): nat {
    if n < 1 then 1 else n
  }

  /** Share of the processors used in a stretch of time, in percent. */
  function Share(deltaCpu: int, deltaWall: int, processors: nat): real
    requires deltaWall > 0 && processors > 0
  {
    Clamp(Seconds(deltaCpu) / (Seconds(deltaWall) * processors as real) * 100.0)
  }

  /** Share of the processors used since `base`. */
  function Percent(base: Sample, now: int, cpu: int, processors: nat): real
    requires processors > 0
  {
    if now - base.time <= 0 then 0.0 else Share(cpu - base.cpu, now - base.time, processors)
  }

  /** The latest sample taken at or before the cutoff. */
  function LastAtOrBefore(samples: seq<Sample>, cutoff: int): Option<Sample> {
    if samples == [] then None
    else if samples[|samples| - 1].time <= cutoff then Some(samples[|samples| - 1])
    else LastAtOrBefore(samples[..|samples| - 1], cutoff)
  }

  /** The sample a window is measured from: the latest one outside the window, or the first there is. */
  function Base(samples: seq<Sample>, cutoff: int): Sample
    requires samples != []
  {
    LastAtOrBefore(samples, cutoff).GetOr(samples[0])
  }

  predicate Resets(samples: seq<Sample>, r: Reading) {
    samples == [] || r.now < samples[|samples| - 1].time || r.cpu < samples[|samples| - 1].cpu
  }

  function UsageFrom(samples: seq<Sample>, r: Reading): Usage
    requires samples != []
  {
    var p := Processors(r.processors);
    Usage(Percent(samples[|samples| - 1], r.now, r.cpu, p),
          Percent(Base(samples, r.now - 1 * MINUTE), r.now, r.cpu, p),
          Percent(Base(samples, r.now - 5 * MINUTE), r.now, r.cpu, p),
          Percent(Base(samples, r.now - 15 * MINUTE), r.now, r.cpu, p))
  }

  /** Drops leading samples as long as the second one is already older than the cutoff. */
  function Prune(samples: seq<Sample>, cutoff: int): seq<Sample> {
    if |samples| > 2 && samples[1].time < cutoff then Prune(samples[1..], cutoff) else samples
  }

  /**
   The list after one reading, with pruning or keeping everything since the last reset. A clock within
   15 or 16 minutes of the calendar's beginning makes a date subtraction fail, which is caught.
   */
  function Record(samples: seq<Sample>, r: Reading, pruning: bool): seq<Sample> {
    var sample := Sample(r.now, r.cpu);
    if Resets(samples, r) then [sample]
    else if r.now < 15 * MINUTE then samples
    else if r.now < 16 * MINUTE || !pruning then samples + [sample]
    else Prune(samples + [sample], r.now - 16 * MINUTE)
  }

  function Report(samples: seq<Sample>, r: Reading): Usage {
    if Resets(samples, r) || r.now < 16 * MINUTE then ZERO else UsageFrom(samples, r)
  }

  /** The list after a series of readings. */
  function Recorded(rs: seq<Reading>, pruning: bool): seq<Sample> {
    if rs == [] then [] else Record(Recorded(rs[..|rs| - 1], pruning), rs[|rs| - 1], pruning)
  }

  /** What a series of readings reports. */
  function Reported(rs: seq<Reading>, pruning: bool): seq<Usage> {
    if rs == [] then []
    else Reported(rs[..|rs| - 1], pruning) + [Report(Recorded(rs[..|rs| - 1], pruning), rs[|rs| - 1])]
  }

  // ----- What a percentage means -----

  /**
   r percent of p processors were used in so much time: r times the time they had is 100 times what they used;
   0 if the CPU time ran backwards, and 100 if it ran ahead of all processors.
   */
  predicate IsPercentage(r: real, deltaCpu: int, deltaWall: int, p: int) {
    && (0 <= deltaCpu <= deltaWall * p ==> r * (deltaWall * p) as real == 100.0 * deltaCpu as real)
    && (deltaCpu < 0 ==> r == 0.0)
    && (deltaCpu > deltaWall * p ==> r == 100.0)
  }

  lemma ShareIsPercentage(deltaCpu: int, deltaWall: int, p: nat)
    requires deltaWall > 0 && p > 0
    ensures IsPercentage(Share(deltaCpu, deltaWall, p), deltaCpu, deltaWall, p)
  {
    var a, b := Seconds(deltaCpu), Seconds(deltaWall);
    var q := a / (b * p as real);
    QuotientOfSeconds(deltaCpu, deltaWall, p, q);
    Product(deltaWall, p);
    ClampedPercentage(q * 100.0, deltaCpu, deltaWall * p);
  }

  lemma Product(m: int, n: int)
    requires m > 0 && n > 0
    ensures m * n > 0 && (m * n) as real == m as real * n as real
  {
  }

  lemma QuotientOfSeconds(deltaCpu: int, deltaWall: int, p: nat, q: real)
    requires deltaWall > 0 && p > 0 && q == Seconds(deltaCpu) / (Seconds(deltaWall) * p as real)
    ensures q * (deltaWall as real * p as real) == deltaCpu as real
  {
    var t, b, n := TICKS_PER_SECOND as real, Seconds(deltaWall), p as real;
    assert b > 0.0 && b * n > 0.0;
    assert q * (b * n) == Seconds(deltaCpu);
    assert t * b == deltaWall as real && t * Seconds(deltaCpu) == deltaCpu as real;
    assert q * ((t * b) * n) == t * (q * (b * n));
  }

  lemma ClampedPercentage(x: real, part: int, whole: int)
    requires whole > 0 && x * whole as real == 100.0 * part as real
    ensures 0 <= part <= whole ==> Clamp(x) * whole as real == 100.0 * part as real
    ensures part < 0 ==> Clamp(x) == 0.0
    ensures part > whole ==> Clamp(x) == 100.0
  {
    var w := whole as real;
    if x < 0.0 { assert x * w < 0.0; }
    if x >= 0.0 { assert x * w >= 0.0; }
    if x > 100.0 { assert (x - 100.0) * w > 0.0; }
    if x <= 100.0 { assert (100.0 - x) * w >= 0.0; }
  }

  /** How much was used since a sample: nothing when no time has passed. */
  predicate IsUseSince(r: real, base: Sample, now: int, cpu: int, p: int) {
    if now <= base.time then r == 0.0 else IsPercentage(r, cpu - base.cpu, now - base.time, p)
  }

  lemma PercentIsUse(base: Sample, now: int, cpu: int, p: nat)
    requires p > 0
    ensures IsUseSince(Percent(base, now, cpu, p), base, now, cpu, p)
  {
    hide Share, IsPercentage;
    if now - base.time > 0 { ShareIsPercentage(cpu - base.cpu, now - base.time, p); }
  }

  /** Sample k is the last one at or before the cutoff, or the first of all when there is none. */
  predicate IsBase(samples: seq<Sample>, k: nat, cutoff: int) {
    && k < |samples| && (forall j :: k < j < |samples| ==> samples[j].time > cutoff)
    && (samples[k].time <= cutoff || k == 0)
  }

  /**
   What one reading reports, in ticks of 100 ns: the use since the last sample, and since the samples right before the
   last 600 million, 3000 million and 9000 million ticks. Nothing is reported without an earlier sample, when the
   clock or the CPU time went back, and within 16 minutes of the calendar's beginning. At least one
   processor counts.
   */
  lemma ReportIsUse(samples: seq<Sample>, r: Reading) returns (k1: nat, k5: nat, k15: nat)
    ensures var u, p := Report(samples, r), if r.processors >= 1 then r.processors else 1;
            if samples == [] || r.now < samples[|samples| - 1].time || r.cpu < samples[|samples| - 1].cpu
               || r.now < 9_600_000_000
            then u == Usage(0.0, 0.0, 0.0, 0.0)
            else && IsUseSince(u.current, samples[|samples| - 1], r.now, r.cpu, p)
                 && IsBase(samples, k1, r.now - 600_000_000) && IsUseSince(u.avg1, samples[k1], r.now, r.cpu, p)
                 && IsBase(samples, k5, r.now - 3_000_000_000) && IsUseSince(u.avg5, samples[k5], r.now, r.cpu, p)
                 && IsBase(samples, k15, r.now - 9_000_000_000) && IsUseSince(u.avg15, samples[k15], r.now, r.cpu, p)
  {
    hide Percent, Base, IsUseSince;
    k1, k5, k15 := 0, 0, 0;
    if samples != [] {
      var p := Processors(r.processors);
      k1 := BaseIsRightBeforeWindow(samples, r.now - 600_000_000);
      k5 := BaseIsRightBeforeWindow(samples, r.now - 3_000_000_000);
      k15 := BaseIsRightBeforeWindow(samples, r.now - 9_000_000_000);
      PercentIsUse(samples[|samples| - 1], r.now, r.cpu, p);
      PercentIsUse(samples[k1], r.now, r.cpu, p);
      PercentIsUse(samples[k5], r.now, r.cpu, p);
      PercentIsUse(samples[k15], r.now, r.cpu, p);
    }
  }

  // ----- Pruning loses nothing -----

  lemma {:induction false} SuffixDecides(a: seq<Sample>, b: seq<Sample>, cutoff: int)
    requires LastAtOrBefore(b, cutoff).Some?
    ensures LastAtOrBefore(a + b, cutoff) == LastAtOrBefore(b, cutoff)
  {
    var s := a + b;
    assert s[|s| - 1] == b[|b| - 1];
    if b[|b| - 1].time > cutoff {
      SuffixDecides(a, b[..|b| - 1], cutoff);
      assert s[..|s| - 1] == a + b[..|b| - 1];
    }
  }

  lemma {:induction false} OldFirstIsFound(samples: seq<Sample>, cutoff: int)
    requires samples != [] && samples[0].time <= cutoff
    ensures LastAtOrBefore(samples, cutoff).Some?
  {
    if samples[|samples| - 1].time > cutoff { OldFirstIsFound(samples[..|samples| - 1], cutoff); }
  }

  /** The pruned list is a tail of the full one; what was dropped lies before an over-old sample. */
  predicate PrunedFrom(pruned: seq<Sample>, full: seq<Sample>) {
    && |pruned| <= |full| && full[|full| - |pruned|..] == pruned
    && (pruned == [] ==> full == [])
    && (|pruned| < |full| ==> pruned[0].time < pruned[|pruned| - 1].time - 16 * MINUTE)
  }

  lemma SameBase(pruned: seq<Sample>, full: seq<Sample>, now: int, cutoff: int)
    requires pruned != [] && PrunedFrom(pruned, full)
    requires pruned[|pruned| - 1].time <= now && now - 15 * MINUTE <= cutoff
    ensures Base(pruned, cutoff) == Base(full, cutoff)
  {
    if |pruned| < |full| {
      OldFirstIsFound(pruned, cutoff);
      SuffixDecides(full[..|full| - |pruned|], pruned, cutoff);
      assert full[..|full| - |pruned|] + pruned == full;
    } else {
      assert pruned == full;
    }
  }

  lemma {:induction false} PruningKeepsTail(samples: seq<Sample>, cutoff: int)
    requires |samples| >= 2
    ensures var p := Prune(samples, cutoff);
            && 2 <= |p| <= |samples| && samples[|samples| - |p|..] == p
            && (|p| < |samples| ==> p[0].time < cutoff)
            && (|p| > 2 ==> p[1].time >= cutoff)
    decreases |samples|
  {
    if |samples| > 2 && samples[1].time < cutoff {
      var rest := samples[1..];
      PruningKeepsTail(rest, cutoff);
      var p := Prune(rest, cutoff);
      assert samples[|samples| - |p|..] == rest[|rest| - |p|..];
    } else {
      assert samples[0..] == samples;
    }
  }

  lemma AppendKeepsPrunedFrom(pruned: seq<Sample>, full: seq<Sample>, x: Sample)
    requires PrunedFrom(pruned, full) && pruned != [] && pruned[|pruned| - 1].time <= x.time
    ensures PrunedFrom(pruned + [x], full + [x])
  {
    var all, whole := pruned + [x], full + [x];
    assert whole[|whole| - |all|..] == full[|full| - |pruned|..] + [x];
  }

  lemma PruneKeepsPrunedFrom(pruned: seq<Sample>, full: seq<Sample>)
    requires PrunedFrom(pruned, full) && |pruned| >= 2
    ensures PrunedFrom(Prune(pruned, pruned[|pruned| - 1].time - 16 * MINUTE), full)
  {
    var cutoff := pruned[|pruned| - 1].time - 16 * MINUTE;
    PruningKeepsTail(pruned, cutoff);
    hide Prune;
    var p := Prune(pruned, cutoff);
    assert full[|full| - |p|..] == full[|full| - |pruned|..][|pruned| - |p|..];
    assert p[|p| - 1] == pruned[|pruned| - 1];
  }

  lemma SameResets(pruned: seq<Sample>, full: seq<Sample>, r: Reading)
    requires PrunedFrom(pruned, full)
    ensures Resets(pruned, r) == Resets(full, r)
  {
    assert pruned != [] ==> full[|full| - 1] == pruned[|pruned| - 1];
  }

  lemma ReadKeepsPrunedFrom(pruned: seq<Sample>, full: seq<Sample>, r: Reading)
    requires PrunedFrom(pruned, full)
    ensures Report(pruned, r) == Report(full, r)
    ensures PrunedFrom(Record(pruned, r, true), Record(full, r, false))
  {
    hide UsageFrom, Prune;
    SameResets(pruned, full, r);
    if !Resets(pruned, r) {
      var x := Sample(r.now, r.cpu);
      SameUsage(pruned, full, r);
      AppendKeepsPrunedFrom(pruned, full, x);
      PruneKeepsPrunedFrom(pruned + [x], full + [x]);
      assert (pruned + [x])[|pruned|] == x;
      hide PrunedFrom, Resets;
    }
  }

  lemma SameUsage(pruned: seq<Sample>, full: seq<Sample>, r: Reading)
    requires PrunedFrom(pruned, full) && !Resets(pruned, r)
    ensures full != [] && UsageFrom(pruned, r) == UsageFrom(full, r)
  {
    assert full[|full| - 1] == pruned[|pruned| - 1];
    SameBase(pruned, full, r.now, r.now - 1 * MINUTE);
    SameBase(pruned, full, r.now, r.now - 5 * MINUTE);
    SameBase(pruned, full, r.now, r.now - 15 * MINUTE);
    hide Base, Percent;
  }

  /**
   For every series of readings, whatever the clock and the counters do: pruning changes no result,
   neither the current value nor any of the three averages.
   */
  lemma {:induction false} PruningChangesNothing(rs: seq<Reading>)
    ensures Reported(rs, true) == Reported(rs, false)
    ensures PrunedFrom(Recorded(rs, true), Recorded(rs, false))
  {
    if rs != [] {
      var before := rs[..|rs| - 1];
      PruningChangesNothing(before);
      ReadKeepsPrunedFrom(Recorded(before, true), Recorded(before, false), rs[|rs| - 1]);
      hide Record, Report, PrunedFrom;
    }
  }

  // ----- What the list looks like -----

  predicate Sorted(samples: seq<Sample>) {
    && (forall i, j :: 0 <= i < j < |samples| ==>
          samples[i].time <= samples[j].time && samples[i].cpu <= samples[j].cpu)
    && (forall i :: 0 <= i < |samples| ==> samples[i].time >= 0)
  }

  /** In order, not before the calendar's beginning, and all but the first within 16 minutes of the last. */
  predicate Tidy(samples: seq<Sample>) {
    && Sorted(samples)
    && (|samples| > 2 ==> samples[|samples| - 1].time - 9_600_000_000 <= samples[1].time)
  }

  /** What is left of the list with a new sample, once the first k are dropped. */
  function Kept(samples: seq<Sample>, x: Sample, k: nat): seq<Sample>
    requires k <= |samples|
  {
    (samples + [x])[k..]
  }

  /** A reading starts a new list, leaves the list as it is, or keeps a tail of it with the new sample. */
  lemma RecordIsTail(samples: seq<Sample>, r: Reading) returns (k: nat)
    ensures k <= |samples|
    ensures var x, s1 := Sample(r.now, r.cpu), Record(samples, r, true);
            if Resets(samples, r) then s1 == [x]
            else s1 == samples ||
                 (s1 == Kept(samples, x, k) && (|s1| > 2 ==> r.now - 16 * MINUTE <= s1[1].time || r.now < 16 * MINUTE))
  {
    var all := samples + [Sample(r.now, r.cpu)];
    k := 0;
    if !Resets(samples, r) && r.now >= 16 * MINUTE {
      PruningKeepsTail(all, r.now - 16 * MINUTE);
      k := |all| - |Prune(all, r.now - 16 * MINUTE)|;
    }
    assert all[0..] == all;
    hide Prune;
  }

  /**
   The list after a reading. It starts again where nothing can be reported. Within 15 minutes of the
   calendar's beginning it stays as it is, and within 16 minutes the sample is added only. After that samples
   are dropped from the front until the second one lies within 16 minutes or only two are left, and no more.
   */
  lemma RecordKeeps(samples: seq<Sample>, r: Reading) returns (k: nat)
    ensures var x, s1 := Sample(r.now, r.cpu), Record(samples, r, true);
            if samples == [] || r.now < samples[|samples| - 1].time || r.cpu < samples[|samples| - 1].cpu then s1 == [x]
            else if r.now < 9_000_000_000 then s1 == samples
            else if r.now < 9_600_000_000 then s1 == samples + [x]
            else && k < |samples| && s1 == (samples + [x])[k..]
                 && (|s1| > 2 ==> s1[1].time >= r.now - 9_600_000_000)
                 && (k > 0 ==> samples[k].time < r.now - 9_600_000_000)
  {
    var all := samples + [Sample(r.now, r.cpu)];
    k := 0;
    if !Resets(samples, r) && r.now >= 16 * MINUTE {
      PruningKeepsTail(all, r.now - 16 * MINUTE);
      k := |all| - |Prune(all, r.now - 16 * MINUTE)|;
      assert all[k..][0] == samples[k];
    }
    hide Prune;
  }

  lemma TailIsSorted(samples: seq<Sample>, x: Sample, k: nat)
    requires Sorted(samples) && k <= |samples| && x.time >= 0
    requires samples != [] ==> samples[|samples| - 1].time <= x.time && samples[|samples| - 1].cpu <= x.cpu
    ensures var tail := Kept(samples, x, k); |tail| > 0 && tail[|tail| - 1] == x && Sorted(tail)
  {
    var all := samples + [x];
    assert Sorted(all);
    var tail := all[k..];
    forall i, j | 0 <= i < j < |tail| ensures tail[i].time <= tail[j].time && tail[i].cpu <= tail[j].cpu {
      assert tail[i] == all[k + i] && tail[j] == all[k + j];
    }
  }

  lemma ReadKeepsTidy(samples: seq<Sample>, r: Reading)
    requires Tidy(samples)
    ensures Tidy(Record(samples, r, true))
  {
    hide Record, Kept;
    var x := Sample(r.now, r.cpu);
    var k := RecordIsTail(samples, r);
    if Resets(samples, r) {
      OneIsTidy(x);
    } else if Record(samples, r, true) != samples {
      TailIsSorted(samples, x, k);
      TailIsTidy(Kept(samples, x, k), x);
    }
  }

  lemma OneIsTidy(x: Sample)
    requires x.time >= 0
    ensures Tidy([x])
  {
  }

  lemma TailIsTidy(tail: seq<Sample>, x: Sample)
    requires Sorted(tail) && |tail| > 0 && tail[|tail| - 1] == x
    requires |tail| > 2 ==> x.time - 16 * MINUTE <= tail[1].time || x.time < 16 * MINUTE
    ensures Tidy(tail)
  {
  }

  lemma {:induction false} SamplesStayTidy(rs: seq<Reading>)
    ensures Tidy(Recorded(rs, true))
  {
    if rs != [] {
      SamplesStayTidy(rs[..|rs| - 1]);
      ReadKeepsTidy(Recorded(rs[..|rs| - 1], true), rs[|rs| - 1]);
      hide Record, Tidy;
    }
  }

  /** The base is the sample right before the window begins, or the first if all lie inside. */
  lemma {:induction false} BaseIsRightBeforeWindow(samples: seq<Sample>, cutoff: int) returns (k: nat)
    requires samples != []
    ensures k < |samples| && Base(samples, cutoff) == samples[k]
    ensures forall j :: k < j < |samples| ==> samples[j].time > cutoff
    ensures samples[k].time <= cutoff || (k == 0 && LastAtOrBefore(samples, cutoff).None?)
  {
    k := |samples| - 1;
    if samples[k].time > cutoff {
      var less := samples[..|samples| - 1];
      assert LastAtOrBefore(samples, cutoff) == LastAtOrBefore(less, cutoff);
      if k > 0 {
        k := BaseIsRightBeforeWindow(less, cutoff);
        assert less[0] == samples[0] && less[k] == samples[k];
      }
    }
  }

  // ----- How long the list gets -----

  predicate Spaced(samples: seq<Sample>, d: nat) {
    forall i :: 0 <= i < |samples| - 1 ==> samples[i].time + d <= samples[i + 1].time
  }

  /** Each reading resets the list or comes at least d after the last recorded one. */
  predicate Paced(rs: seq<Reading>, d: nat) {
    rs == [] ||
    (Paced(rs[..|rs| - 1], d) &&
     var samples := Recorded(rs[..|rs| - 1], true);
     Resets(samples, rs[|rs| - 1]) || samples[|samples| - 1].time + d <= rs[|rs| - 1].now)
  }

  lemma RecordKeepsSpaced(samples: seq<Sample>, r: Reading, d: nat)
    requires Spaced(samples, d) && (Resets(samples, r) || samples[|samples| - 1].time + d <= r.now)
    ensures Spaced(Record(samples, r, true), d)
  {
    hide Record, Kept, Resets;
    var k := RecordIsTail(samples, r);
    if !Resets(samples, r) { TailIsSpaced(samples, Sample(r.now, r.cpu), k, d); }
  }

  lemma TailIsSpaced(samples: seq<Sample>, x: Sample, k: nat, d: nat)
    requires Spaced(samples, d) && k <= |samples| && (samples != [] ==> samples[|samples| - 1].time + d <= x.time)
    ensures Spaced(Kept(samples, x, k), d)
  {
    var all := samples + [x];
    forall i | 0 <= i < |all| - k - 1 ensures all[k..][i].time + d <= all[k..][i + 1].time {
      assert all[k..][i] == all[k + i] && all[k..][i + 1] == all[k + i + 1];
    }
  }

  lemma {:induction false} PacedIsSpaced(rs: seq<Reading>, d: nat)
    requires Paced(rs, d)
    ensures Spaced(Recorded(rs, true), d)
  {
    hide Record, Resets;
    if rs != [] {
      PacedIsSpaced(rs[..|rs| - 1], d);
      RecordKeepsSpaced(Recorded(rs[..|rs| - 1], true), rs[|rs| - 1], d);
    }
  }

  lemma {:induction false} SpacedSpan(samples: seq<Sample>, d: nat, k: nat)
    requires Spaced(samples, d) && 1 <= k < |samples|
    ensures samples[1].time + (k - 1) * d <= samples[k].time
  {
    if k > 1 {
      SpacedSpan(samples, d, k - 1);
      assert (k - 1) * d == (k - 2) * d + d;
    }
  }

  /** With readings at least d apart, all but two samples fit 16 minutes at that distance. */
  lemma ListStaysShort(rs: seq<Reading>, d: nat)
    requires Paced(rs, d)
    ensures |Recorded(rs, true)| > 2 ==> (|Recorded(rs, true)| - 2) * d <= 9_600_000_000
  {
    var samples := Recorded(rs, true);
    SamplesStayTidy(rs);
    PacedIsSpaced(rs, d);
    hide Recorded, Paced;
    if |samples| > 2 { SpacedSpan(samples, d, |samples| - 1); }
  }

  // ----- The object -----

  class ProcessCpuReader {
    var samples: seq<Sample>

    constructor ()
      ensures samples == []
    {
      samples := [];
    }

    /** Measures from the base sample of a window; `now` lies at least the window into the calendar. */
    method CalculateAverageCpuUsage(now: int, window: int, currentCpuTime: int, processorCount: nat)
      returns (percent: real)
      requires processorCount > 0
      ensures percent == if samples == [] then 0.0
                         else Percent(Base(samples, now - window), now, currentCpuTime, processorCount)
      ensures samples != [] ==>
                exists k: nat :: IsBase(samples, k, now - window)
                  && IsUseSince(percent, samples[k], now, currentCpuTime, processorCount)
    {
      hide Share, IsUseSince;
      if |samples| > 0 {
        var k := BaseIsRightBeforeWindow(samples, now - window);
        PercentIsUse(samples[k], now, currentCpuTime, processorCount);
      }
      if |samples| == 0 { return 0.0; }
      var cutoff := now - window;
      var baseSample := samples[0];
      var i := |samples| - 1;
      assert samples[..|samples|] == samples;
      while i >= 0
        invariant -1 <= i < |samples| && baseSample == samples[0]
        invariant LastAtOrBefore(samples, cutoff) == LastAtOrBefore(samples[..i + 1], cutoff)
      {
        assert samples[..i + 1][..i] == samples[..i];
        if samples[i].time <= cutoff {
          baseSample := samples[i];
          break;
        }
        i := i - 1;
      }
      assert baseSample == Base(samples, cutoff);
      var deltaWall := now - baseSample.time;
      var deltaCpu := currentCpuTime - baseSample.cpu;
      if deltaWall <= 0 { return 0.0; }
      percent := Share(deltaCpu, deltaWall, processorCount);
    }

    method ReadProcessCpuUsage(r: Reading) returns (usage: Usage)
      modifies this
      ensures samples == Record(old(samples), r, true) && usage == Report(old(samples), r)
    {
      hide Share, IsBase, IsUseSince;
      var sample := Sample(r.now, r.cpu);
      var processorCount := Processors(r.processors);
      if |samples| == 0 || r.now < samples[|samples| - 1].time || r.cpu < samples[|samples| - 1].cpu {
        samples := [];
        samples := samples + [sample];
        assert samples == [sample];
        return ZERO;
      }
      var last := samples[|samples| - 1];
      var current := 0.0;
      if r.now - last.time > 0 {
        current := Share(r.cpu - last.cpu, r.now - last.time, processorCount);
      }
      if r.now < 15 * MINUTE { return ZERO; }  // a window would begin before the calendar does
      var avg1 := CalculateAverageCpuUsage(r.now, 1 * MINUTE, r.cpu, processorCount);
      var avg5 := CalculateAverageCpuUsage(r.now, 5 * MINUTE, r.cpu, processorCount);
      var avg15 := CalculateAverageCpuUsage(r.now, 15 * MINUTE, r.cpu, processorCount);
      samples := samples + [sample];
      if r.now < 16 * MINUTE { return ZERO; }  // likewise for the cutoff
      var pruneCutoff := r.now - 16 * MINUTE;
      ghost var all := samples;
      while |samples| > 2 && samples[1].time < pruneCutoff
        invariant Prune(samples, pruneCutoff) == Prune(all, pruneCutoff)
        decreases |samples|
      {
        samples := samples[1..];
      }
      usage := Usage(current, avg1, avg5, avg15);
    }
  }
}
