/** A clean periodic burst raises a radar event, and after how many pulses at the latest. */
module DfsCompleteness {
  import opened Basics
  import opened DfsDetector
  import opened DfsRuns

  /** The interval is one the rule looks for; a fixed-interval rule looks for its nominal one only. */
  predicate PeriodFits(r: Rule, period: nat) {
    WellFormed(r) && r.nrPri == 1 && r.priMin <= period <= r.priMax && PriToUse(r, period) == period
  }

  /** The pulse count at which the burst has been seen for certain. */
  function Needed(r: Rule): nat {
    Max(2, r.ppbThresh)
  }

  /** The queue after `n` pulses of the burst. */
  function Train(t1: nat, period: nat, n: nat): (q: seq<nat>)
    ensures |q| == n
  {
    if n == 0 then [] else [t1 + (n - 1) * period] + Train(t1, period, n - 1)
  }

  function Grown(r: Rule, t1: nat, period: nat, n: nat): Pseq
    requires WellFormed(r) && 1 <= n
  {
    Pseq(period, Duration(r, period), n, 0, t1, t1 + (n - 1) * period, t1 + Duration(r, period))
  }

  /** The whole detector after `n` pulses of the burst. */
  function Tracked(r: Rule, t1: nat, period: nat, n: nat, log: seq<Pulse>): Detector
    requires WellFormed(r) && 1 <= n
  {
    Detector(t1 + (n - 1) * period, n, Train(t1, period, n), if n < 2 then [] else [Grown(r, t1, period, n)], log)
  }

  /* ---- No second sequence appears ---- */

  lemma {:induction false} ScanBound(older: seq<nat>, fits: nat -> bool, minValid: nat, acc: Scan)
    ensures ScanOlder(older, fits, minValid, acc).count <= acc.count + |older|
  {
    if older == [] || older[0] < minValid {
    } else if fits(older[0]) {
      ScanBound(older[1..], fits, minValid, Scan(acc.count + 1, older[0], acc.falses + acc.pending, 0));
    } else {
      ScanBound(older[1..], fits, minValid, acc.(pending := acc.pending + 1));
    }
  }

  lemma BuildBound(r: Rule, pulses: seq<nat>, ts: nat)
    requires WellFormed(r) && ts < TWO32 && pulses != []
    ensures Build(r, pulses, ts).count <= |pulses| + 1
  {
    var pri := PriToUse(r, U32(ts - pulses[0]));
    DurationFits(r, pri);
    ScanBound(pulses[1..], Fits(ts, pri, r.tolerance), MinValid(ts, Duration(r, pri)), Scan(2, pulses[0], 0, 0));
  }

  lemma {:induction false} NoneBetter(r: Rule, pulses: seq<nat>, ts: nat, minCount: nat)
    requires WellFormed(r) && ts < TWO32 && |pulses| < minCount
    ensures Create(r, pulses, ts, minCount) == []
  {
    if pulses != [] {
      NoneBetter(r, pulses[1..], ts, minCount);
      BuildBound(r, pulses, ts);
    }
  }

  /* ---- One pulse of the burst ---- */

  lemma MulLess(n: nat, m: nat, x: nat)
    requires n <= m
    ensures n * x <= m * x
  {
  }

  lemma ExactPeriod(period: nat, tolerance: nat)
    requires 0 < period
    ensures Multiple(period, period, tolerance) == 1
  {
  }

  lemma GrownLives(r: Rule, t1: nat, period: nat, n: nat)
    requires PeriodFits(r, period) && 2 <= n < r.ppb && t1 + n * period < TWO32
    ensures var ts := t1 + n * period;
            var seqs := [Grown(r, t1, period, n)];
            && Extend(seqs, ts, r.tolerance) == [Grown(r, t1, period, n + 1)]
            && BestCount(seqs, ts, r.tolerance) == n + 1
  {
    var ts, g := t1 + n * period, Grown(r, t1, period, n);
    MulLess(n, r.ppb - 1, period);
    assert (r.ppb - 1) * period == period * (r.ppb - 1);
    assert ts <= g.deadlineTs;
    assert n * period == (n - 1) * period + period;
    assert U32(ts - g.lastTs) == period;
    ExactPeriod(period, r.tolerance);
    assert [g][1..] == [];
  }

  lemma FirstGrown(r: Rule, t1: nat, period: nat)
    requires PeriodFits(r, period) && t1 + period < TWO32
    ensures Create(r, [t1], t1 + period, 0) == [Grown(r, t1, period, 2)]
  {
    assert U32(t1 + period - t1) == period;
    assert [t1][1..] == [];
  }

  lemma SequencesTracked(r: Rule, t1: nat, period: nat, n: nat, log: seq<Pulse>)
    requires PeriodFits(r, period) && 1 <= n < Needed(r) && t1 + n * period < TWO32
    ensures var d := Tracked(r, t1, period, n, log);
            NewSeqs(r, d.pulses, d.seqs, t1 + n * period) == [Grown(r, t1, period, n + 1)]
  {
    var d := Tracked(r, t1, period, n, log);
    var ts := t1 + n * period;
    if n == 1 {
      assert Train(t1, period, 1) == [t1];
      FirstGrown(r, t1, period);
    } else {
      GrownLives(r, t1, period, n);
      NoneBetter(r, d.pulses, ts, n + 1);
    }
  }

  lemma {:induction false} TrainOldest(t1: nat, period: nat, n: nat)
    requires 1 <= n
    ensures Train(t1, period, n)[n - 1] == t1
  {
    if n > 1 {
      TrainOldest(t1, period, n - 1);
    }
  }

  lemma WindowHolds(r: Rule, period: nat, n: nat)
    requires PeriodFits(r, period) && n <= r.ppb
    ensures n * period <= WindowSize(r)
  {
    MulBound(n, period, r.ppb, r.priMax);
    assert r.ppb * r.priMax == r.priMax * r.ppb;
  }

  lemma QueueTracked(r: Rule, t1: nat, period: nat, n: nat)
    requires PeriodFits(r, period) && n < r.ppb
    ensures Enqueue(r, Train(t1, period, n), t1 + n * period) == Train(t1, period, n + 1)
  {
    var q := Train(t1, period, n + 1);
    TrainOldest(t1, period, n + 1);
    WindowHolds(r, period, n);
    assert [t1 + n * period] + Train(t1, period, n) == q;
    assert CheckWindow(r, q, t1 + n * period) == q;
  }

  /** Before the needed count the detector tracks the burst, and at that count it reports radar. */
  lemma {:induction false} TrackStep(r: Rule, t1: nat, period: nat, n: nat, log: seq<Pulse>, p: Pulse)
    requires PeriodFits(r, period) && 1 <= n < Needed(r)
    requires p.ts == t1 + n * period < TWO32 && Accepts(r, p)
    ensures var (d, o) := Process(r, Tracked(r, t1, period, n, log), p, false, false);
            if n + 1 == Needed(r) then o.Radar?
            else o.Taken? && d == Tracked(r, t1, period, n + 1, log + [p])
  {
    var d := Tracked(r, t1, period, n, log);
    assert n * period == (n - 1) * period + period;
    assert Eligible(r, d, p);
    SequencesTracked(r, t1, period, n, log);
    assert FirstConfident(r, [Grown(r, t1, period, n + 1)]) == if n + 1 >= r.ppbThresh then 0 else 1;
    if n + 1 < Needed(r) {
      QueueTracked(r, t1, period, n);
    }
  }

  lemma TrackFirst(r: Rule, t0: nat, p: Pulse, period: nat)
    requires WellFormed(r) && Accepts(r, p) && t0 + r.tolerance <= p.ts < TWO32
    ensures var (d, o) := Process(r, Reset(t0), p, false, false);
            o.Taken? && d == Tracked(r, p.ts, period, 1, [p])
  {
    assert Train(p.ts, period, 1) == [p.ts];
  }

  /* ---- All detectors ---- */

  /** Some pulse of `evs` raises a radar event. */
  predicate Alarms(rules: seq<Rule>, st: Dfs, evs: seq<Event>)
    requires GoodRules(rules) && |st.dets| == |rules| && GoodRun(evs)
    decreases |evs|
  {
    evs != [] &&
    (Step(rules, st, evs[0]).1.Some? || Alarms(rules, Step(rules, st, evs[0]).0, evs[1..]))
  }

  /** The events feed an exact burst that rule `i` accepts, and its allocations succeed. */
  predicate Burst(r: Rule, i: nat, evs: seq<Event>, t1: nat, period: nat) {
    forall k :: 0 <= k < |evs| ==>
                  && evs[k].Feed? && evs[k].pulse.ts == t1 + k * period && Accepts(r, evs[k].pulse)
                  && i !in evs[k].noSeq && i !in evs[k].noPulse
  }

  lemma {:induction false} SweepReaches(rules: seq<Rule>, dets: seq<Detector>, j: nat, ev: Event, i: nat)
    requires GoodRules(rules) && |dets| == |rules| && j <= i < |rules|
    requires ev.Feed? && ev.pulse.ts < TWO32
    ensures var (out, radar) := Sweep(rules, dets, j, ev);
            var (d, o) := Process(rules[i], dets[i], ev.pulse, i in ev.noSeq, i in ev.noPulse);
            radar.None? ==> !o.Radar? && out[i] == d
    decreases i - j
  {
    var (d, o) := Process(rules[j], dets[j], ev.pulse, j in ev.noSeq, j in ev.noPulse);
    if !o.Radar? {
      if j < i {
        SweepReaches(rules, dets[j := d], j + 1, ev, i);
      } else {
        SweepLeaves(rules, dets[j := d], j + 1, ev, i);
      }
    }
  }

  lemma {:induction false} SweepLeaves(rules: seq<Rule>, dets: seq<Detector>, j: nat, ev: Event, i: nat)
    requires GoodRules(rules) && |dets| == |rules| && i < j <= |rules|
    requires ev.Feed? && ev.pulse.ts < TWO32
    ensures Sweep(rules, dets, j, ev).1.None? ==> Sweep(rules, dets, j, ev).0[i] == dets[i]
    decreases |rules| - j
  {
    if j < |rules| {
      var (d, o) := Process(rules[j], dets[j], ev.pulse, j in ev.noSeq, j in ev.noPulse);
      if !o.Radar? {
        SweepLeaves(rules, dets[j := d], j + 1, ev, i);
      }
    }
  }

  /* ---- Bursts with pulses missing ---- */

  /** The interval that a rule gives a sequence: its only one, or the first distance. */
  function Interval(r: Rule, distance: nat): nat {
    if r.priMax - r.priMin == 2 * PRI_TOLERANCE then (r.priMin + r.priMax) / 2 else distance
  }

  /** How long a sequence of this interval is followed. */
  function Span(r: Rule, pri: nat): nat
    requires 1 <= r.ppb
  {
    pri * (r.ppb - 1) + 2 * PRI_TOLERANCE
  }

  lemma IntervalUsed(r: Rule, distance: nat)
    requires WellFormed(r)
    ensures PriToUse(r, distance) == Interval(r, distance)
    ensures r.priMin <= distance <= r.priMax ==> r.priMin <= Interval(r, distance) <= r.priMax
  {
  }

  /**
   Times that the rule takes for one burst: the first distance is an interval of the rule, each
   further one is near any positive number of intervals, and all lie within the span of a sequence.
   */
  ghost predicate Regular(r: Rule, times: seq<nat>)
    requires WellFormed(r)
  {
    && (|times| >= 2 ==> times[0] + r.priMin <= times[1] <= times[0] + r.priMax)
    && forall k :: 2 <= k < |times| ==> Continues(r, times[0], times[1], times[k - 1], times[k])
  }

  ghost predicate Continues(r: Rule, t1: nat, t2: nat, last: nat, ts: nat)
    requires WellFormed(r)
  {
    && t1 <= t2 && last + r.tolerance <= ts <= t1 + Span(r, Interval(r, t2 - t1))
    && NearMultiple(ts - last, Interval(r, t2 - t1), r.tolerance)
  }

  function Steady(r: Rule, t1: nat, pri: nat, n: nat, last: nat): Pseq
    requires WellFormed(r)
  {
    Pseq(pri, Span(r, pri), n, 0, t1, last, t1 + Span(r, pri))
  }

  /** The detector follows the burst: after two pulses and more with one sequence that counts them all. */
  predicate Follows(r: Rule, d: Detector, t1: nat, pri: nat, n: nat, last: nat)
    requires WellFormed(r)
  {
    && d.lastTs == last && |d.pulses| <= n
    && if n < 2 then last == t1 && d.pulses == [t1] && d.seqs == [] else d.seqs == [Steady(r, t1, pri, n, last)]
  }

  lemma SecondPulse(r: Rule, t1: nat, ts: nat)
    requires WellFormed(r) && t1 + r.priMin <= ts <= t1 + r.priMax && ts < TWO32
    ensures NewSeqs(r, [t1], [], ts) == [Steady(r, t1, Interval(r, ts - t1), 2, ts)]
  {
    Narrow(ts, t1);
    IntervalUsed(r, ts - t1);
    assert [t1][1..] == [];
    assert Build(r, [t1], ts) == Steady(r, t1, Interval(r, ts - t1), 2, ts);
    assert Create(r, [t1], ts, 0) == Create(r, [], ts, 0) + Seeded(r, [t1], ts, 0);
  }

  lemma LaterPulse(r: Rule, pulses: seq<nat>, t1: nat, pri: nat, n: nat, last: nat, ts: nat)
    requires WellFormed(r) && 0 < pri && 2 <= n && |pulses| <= n && last <= ts < TWO32
    requires ts <= t1 + Span(r, pri) && NearMultiple(ts - last, pri, r.tolerance)
    ensures NewSeqs(r, pulses, [Steady(r, t1, pri, n, last)], ts) == [Steady(r, t1, pri, n + 1, ts)]
  {
    var s := Steady(r, t1, pri, n, last);
    OneFollowed(s, ts, r.tolerance);
    NoneBetter(r, pulses, ts, n + 1);
  }

  /** A live sequence by itself that the pulse matches. */
  lemma OneFollowed(s: Pseq, ts: nat, tolerance: nat)
    requires 0 < s.pri && s.lastTs <= ts <= s.deadlineTs && ts < TWO32 && Matches(s, ts, tolerance)
    ensures Extend([s], ts, tolerance) == [s.(lastTs := ts, count := s.count + 1)]
    ensures BestCount([s], ts, tolerance) == s.count + 1
  {
    BumpFollows(s, ts, tolerance);
    BestStep([s], ts, tolerance);
    assert [s][1..] == [];
    assert [Bump(s, ts, tolerance)][0] == Bump(s, ts, tolerance) && [s][0] == s;
  }

  lemma {:induction false} AgeOutShorter(pulses: seq<nat>, minValid: nat)
    ensures |AgeOut(pulses, minValid)| <= |pulses|
  {
    if pulses != [] && pulses[|pulses| - 1] < minValid {
      AgeOutShorter(pulses[..|pulses| - 1], minValid);
    }
  }

  lemma RecordLength(r: Rule, d: Detector, p: Pulse, seqs: seq<Pseq>)
    ensures |Record(r, d, p, seqs, false).pulses| <= |d.pulses| + 1
  {
    if p.ts > WindowSize(r) {
      AgeOutShorter([p.ts] + d.pulses, p.ts - WindowSize(r));
    }
  }

  /** One sequence that counts `n` pulses and no false one is reported exactly from the threshold on. */
  lemma SteadyConfident(r: Rule, t1: nat, pri: nat, n: nat, last: nat)
    requires WellFormed(r)
    ensures FirstConfident(r, [Steady(r, t1, pri, n, last)]) == if n >= r.ppbThresh then 0 else 1
  {
    assert [Steady(r, t1, pri, n, last)][1..] == [];
  }

  /** The next pulse of the burst is counted, and at the needed count it raises radar. */
  lemma {:induction false} FollowStep(r: Rule, d: Detector, t1: nat, pri: nat, n: nat, last: nat, p: Pulse)
    requires WellFormed(r) && 1 <= n < Needed(r) && Follows(r, d, t1, pri, n, last)
    requires Accepts(r, p) && last + r.tolerance <= p.ts < TWO32
    requires n == 1 ==> t1 + r.priMin <= p.ts <= t1 + r.priMax && pri == Interval(r, p.ts - t1)
    requires n > 1 ==> 0 < pri && p.ts <= t1 + Span(r, pri) && NearMultiple(p.ts - last, pri, r.tolerance)
    ensures var (e, o) := Process(r, d, p, false, false);
            if n + 1 == Needed(r) then o.Radar? else o.Taken? && Follows(r, e, t1, pri, n + 1, p.ts)
  {
    assert Eligible(r, d, p);
    if n == 1 {
      SecondPulse(r, t1, p.ts);
    } else {
      LaterPulse(r, d.pulses, t1, pri, n, last, p.ts);
    }
    SteadyConfident(r, t1, pri, n + 1, p.ts);
    RecordLength(r, d, p, [Steady(r, t1, pri, n + 1, p.ts)]);
  }

  /** The events feed these times with pulses that rule `i` accepts, and its allocations succeed. */
  predicate Carries(r: Rule, i: nat, evs: seq<Event>, times: seq<nat>) {
    && |evs| == |times|
    && forall k :: 0 <= k < |evs| ==>
         && evs[k].Feed? && evs[k].pulse.ts == times[k] && Accepts(r, evs[k].pulse)
         && i !in evs[k].noSeq && i !in evs[k].noPulse
  }

  lemma {:induction false} KeepsFollowing(rules: seq<Rule>, i: nat, st: Dfs, evs: seq<Event>, times: seq<nat>,
                                          pri: nat, n: nat)
    requires GoodRules(rules) && |st.dets| == |rules| && GoodRun(evs) && i < |rules| && Carries(rules[i], i, evs, times)
    requires Regular(rules[i], times) && 1 <= n < |times| == Needed(rules[i])
    requires pri == Interval(rules[i], times[1] - times[0])
    requires st.active && st.lastPulseTs <= times[n - 1]
    requires Follows(rules[i], st.dets[i], times[0], pri, n, times[n - 1])
    ensures Alarms(rules, st, evs[n..])
    decreases |times| - n
  {
    var r, ev := rules[i], evs[n];
    IntervalUsed(r, times[1] - times[0]);
    assert n > 1 ==> Continues(r, times[0], times[1], times[n - 1], times[n]);
    FollowStep(r, st.dets[i], times[0], pri, n, times[n - 1], ev.pulse);
    SweepReaches(rules, st.dets, 0, ev, i);
    assert evs[n..][0] == ev && evs[n..][1..] == evs[n + 1..];
    var (st', radar) := Step(rules, st, ev);
    if radar.None? {
      KeepsFollowing(rules, i, st', evs, times, pri, n + 1);
    }
  }

  /**
   From any state in which the detector of rule `i` has just been reset: a burst of max(2, ppbThresh)
   pulses raises a radar event, even if any of the pulses after the second are missing and it is
   only roughly regular.
   */
  lemma {:induction false} GappedBurstDetected(rules: seq<Rule>, i: nat, st: Dfs, evs: seq<Event>, t0: nat,
                                               times: seq<nat>)
    requires GoodRules(rules) && |st.dets| == |rules| && GoodRun(evs) && i < |rules| && Carries(rules[i], i, evs, times)
    requires Regular(rules[i], times) && |times| == Needed(rules[i])
    requires st.active && st.dets[i] == Reset(t0) && st.lastPulseTs <= times[0] && t0 + rules[i].tolerance <= times[0]
    ensures Alarms(rules, st, evs)
  {
    var r, ev := rules[i], evs[0];
    TrackFirst(r, t0, ev.pulse, 1);
    assert Train(times[0], 1, 1) == [times[0]];
    SweepReaches(rules, st.dets, 0, ev, i);
    var (st', radar) := Step(rules, st, ev);
    if radar.None? {
      KeepsFollowing(rules, i, st', evs, times, Interval(r, times[1] - times[0]), 1);
    }
  }

  lemma ExactRegular(r: Rule, t1: nat, period: nat, n: nat, times: seq<nat>)
    requires PeriodFits(r, period) && n <= Needed(r) && |times| == n
    requires forall k :: 0 <= k < n ==> times[k] == t1 + k * period
    ensures Regular(r, times)
  {
    IntervalUsed(r, period);
    assert 0 * period == 0 && 1 * period == period;
    forall k | 2 <= k < n ensures Continues(r, times[0], times[1], times[k - 1], times[k]) {
      assert k * period == (k - 1) * period + period;
      assert Within(period, 1, period, r.tolerance);
      MulLess(k, r.ppb - 1, period);
      assert (r.ppb - 1) * period == period * (r.ppb - 1);
    }
  }

  /** In particular an exact burst does. */
  lemma {:induction false} BurstDetected(rules: seq<Rule>, i: nat, st: Dfs, evs: seq<Event>, t0: nat, t1: nat,
                                         period: nat)
    requires GoodRules(rules) && |st.dets| == |rules| && GoodRun(evs) && i < |rules|
    requires PeriodFits(rules[i], period)
    requires st.active && st.dets[i] == Reset(t0) && st.lastPulseTs <= t1 && t0 + rules[i].tolerance <= t1
    requires |evs| == Needed(rules[i]) && Burst(rules[i], i, evs, t1, period)
    ensures Alarms(rules, st, evs)
  {
    var times := seq(|evs|, k requires 0 <= k < |evs| => t1 + k * period);
    assert 0 * period == 0;
    ExactRegular(rules[i], t1, period, |evs|, times);
    GappedBurstDetected(rules, i, st, evs, t0, times);
  }
}
