/** What one pulse does to one detector and to all of them, case by case. */
module DfsExact {
  import opened Basics
  import opened DfsDetector
  import opened DfsRuns

  /* ---- The tables in numbers ---- */

  /** An interval is the period of its frequency, to the nearest microsecond. */
  lemma PeriodNearest(prf: nat)
    requires 0 < prf
    ensures 2 * prf * PrfToPri(prf) <= 2_000_000 + prf && 2_000_000 < 2 * prf * PrfToPri(prf) + prf + 2
  {
    var n := 1000000 + prf / 2;
    assert n == prf * (n / prf) + n % prf;
    assert 2 * prf * PrfToPri(prf) == 2 * (prf * PrfToPri(prf));
  }

  /** Width and interval bounds as the detector compares them, in microseconds, burst lengths and thresholds. */
  lemma EtsiValues()
    ensures EtsiRules()
         == [Rule(0, 1, 1413, 1445, 1, 18, 9, 16, false), Rule(0, 5, 984, 5016, 1, 10, 5, 16, false),
              Rule(0, 16, 609, 5016, 1, 15, 8, 16, false), Rule(0, 16, 234, 451, 1, 25, 13, 16, false),
              Rule(19, 32, 234, 516, 1, 20, 10, 16, false), Rule(0, 2, 2484, 10015, 3, 30, 5, 16, false),
              Rule(0, 2, 817, 7516, 3, 45, 8, 16, false)]
  {
  }

  lemma FccValues()
    ensures FccRules()
         == [Rule(0, 1, 1412, 1444, 1, 18, 9, 16, false), Rule(0, 1, 502, 954, 1, 57, 29, 16, false),
              Rule(0, 1, 922, 2016, 1, 27, 14, 16, false), Rule(0, 1, 1984, 3082, 1, 18, 9, 16, false),
              Rule(0, 5, 134, 246, 1, 23, 12, 16, false), Rule(6, 11, 184, 516, 1, 16, 8, 16, false),
              Rule(10, 21, 184, 516, 1, 12, 6, 16, false), Rule(48, 105, 984, 2016, 1, 1, 1, 16, true),
              Rule(0, 1, 317, 349, 1, 9, 5, 16, false)]
  {
  }

  lemma JpValues()
    ensures JpRules()
         == [Rule(0, 1, 1412, 1444, 1, 18, 5, 16, false), Rule(2, 3, 3830, 3862, 1, 18, 5, 16, false),
              Rule(0, 1, 1372, 1404, 1, 18, 9, 16, false), Rule(0, 4, 3984, 4016, 1, 18, 9, 16, false),
              Rule(0, 5, 134, 246, 1, 23, 12, 16, false), Rule(6, 11, 184, 516, 1, 16, 8, 16, false),
              Rule(10, 21, 184, 516, 1, 12, 6, 16, false), Rule(48, 105, 984, 2016, 1, 3, 2, 16, true),
              Rule(0, 1, 317, 349, 1, 9, 5, 16, false)]
  {
  }

  /* ---- The queue ---- */

  /**
   The kept queue is the newest part: everything kept is within the window, and what comes next was
   outside it or one too many.
   */
  predicate Trimmed(r: Rule, all: seq<nat>, q: seq<nat>, ts: nat) {
    var window := r.priMax * r.ppb * r.nrPri;
    && q <= all && 0 < |q| < 2 * r.ppb
    && (forall i :: 0 <= i < |q| ==> ts <= q[i] + window)
    && (|q| < |all| ==> all[|q|] + window < ts || |q| == 2 * r.ppb - 1)
  }

  lemma {:induction false} AgeOutExact(pulses: seq<nat>, minValid: nat)
    requires Spaced(pulses, 1)
    ensures var q := AgeOut(pulses, minValid);
            q <= pulses && (|q| < |pulses| ==> pulses[|q|] < minValid)
  {
    if pulses != [] && pulses[|pulses| - 1] < minValid {
      AgeOutExact(pulses[..|pulses| - 1], minValid);
    }
  }

  lemma CheckWindowExact(r: Rule, all: seq<nat>, ts: nat)
    requires Spaced(all, 1) && all != [] && all[0] == ts
    ensures var q := CheckWindow(r, all, ts);
            q <= all && (|q| < |all| ==> all[|q|] + WindowSize(r) < ts)
  {
    if |all| >= 2 && ts > WindowSize(r) {
      AgeOutExact(all, ts - WindowSize(r));
    }
  }

  lemma EnqueueExact(r: Rule, d: Detector, ts: nat)
    requires WellFormed(r) && QueueOk(r, d) && d.lastTs + r.tolerance <= ts
    ensures Trimmed(r, [ts] + d.pulses, Enqueue(r, d.pulses, ts), ts)
  {
    SpacedPush(d.pulses, ts, r.tolerance);
    WindowOk(r, [ts] + d.pulses, ts);
    CheckWindowExact(r, [ts] + d.pulses, ts);
    EnqueueOk(r, d, ts);
  }

  /* ---- One detector ---- */

  /** The pulse has the rule's width and modulation, and comes at least 16 microseconds after the last one taken. */
  predicate Passes(r: Rule, lastTs: nat, p: Pulse) {
    && r.widthMin <= p.width && p.width <= r.widthMax && (p.chirp || !r.chirp)
    && (p.ts - lastTs) % TWO64 >= PRI_TOLERANCE
  }

  /** The sequences that are to be judged: those seeded by this pulse, then the live ones. */
  function Judged(r: Rule, d: Detector, ts: nat): seq<Pseq>
    requires WellFormed(r) && ts < TWO32
  {
    CreatePlain(r, d.pulses, ts, BestCount(d.seqs, ts, PRI_TOLERANCE)) + Extend(d.seqs, ts, PRI_TOLERANCE)
  }

  /** Enough matches, and not outweighed by false pulses. */
  predicate Convinces(r: Rule, ps: Pseq) {
    r.ppbThresh <= ps.count && ps.falses <= ps.count * r.nrPri
  }

  predicate Found(r: Rule, seqs: seq<Pseq>) {
    exists i :: 0 <= i < |seqs| && Convinces(r, seqs[i])
  }

  predicate Emptied(d: Detector, ts: nat) {
    d.pulses == [] && d.seqs == [] && d.count == 0 && d.lastTs == ts
  }

  /** A queue entry refused leaves queue and last timestamp as they were; otherwise the pulse is the newest entry. */
  predicate Stored(r: Rule, d: Detector, p: Pulse, noPulse: bool, e: Detector) {
    && e.count == |e.pulses|
    && if noPulse then e.pulses == d.pulses && e.lastTs == d.lastTs
       else e.lastTs == p.ts && Trimmed(r, [p.ts] + d.pulses, e.pulses, p.ts)
  }

  /** Which of the four outcomes a pulse has, and what it leaves behind. */
  ghost predicate Handled(r: Rule, d: Detector, p: Pulse, noSeq: bool, noPulse: bool, e: Detector, o: Outcome)
    requires WellFormed(r) && p.ts < TWO32
  {
    var seqs := Judged(r, d, p.ts);
    var refused := noSeq && |seqs| > |Extend(d.seqs, p.ts, PRI_TOLERANCE)|;
    var found := Found(r, seqs);
    && (o.Ignored? <==> !Passes(r, d.lastTs, p))
    && (o.OutOfMemory? <==> Passes(r, d.lastTs, p) && refused)
    && (o.Radar? <==> Passes(r, d.lastTs, p) && !refused && found)
    && (o.Ignored? ==> e == d)
    && (o.OutOfMemory? ==> Emptied(e, p.ts))
    && (o.Taken? ==> e.seqs == seqs && Stored(r, d, p, noPulse, e))
  }

  lemma JudgedExact(r: Rule, d: Detector, p: Pulse)
    requires WellFormed(r) && DetInv(r, d, p.ts) && p.ts < TWO32
    ensures NewSeqs(r, d.pulses, d.seqs, p.ts) == Judged(r, d, p.ts)
    ensures Added(r, d.pulses, d.seqs, p.ts) != [] <==>
            |Judged(r, d, p.ts)| > |Extend(d.seqs, p.ts, PRI_TOLERANCE)|
  {
    assert AtMost(d.pulses, p.ts);
    CreateIsFilter(r, d.pulses, p.ts, BestCount(d.seqs, p.ts, r.tolerance));
  }

  lemma FoundExact(r: Rule, seqs: seq<Pseq>)
    ensures FirstConfident(r, seqs) < |seqs| <==> Found(r, seqs)
  {
    forall i | 0 <= i < |seqs| ensures Confident(r, seqs[i]) <==> Convinces(r, seqs[i]) {
    }
  }

  lemma {:induction false} ProcessExact(r: Rule, d: Detector, p: Pulse, noSeq: bool, noPulse: bool)
    requires WellFormed(r) && DetInv(r, d, p.ts) && p.ts < TWO32
    ensures var (e, o) := Process(r, d, p, noSeq, noPulse); Handled(r, d, p, noSeq, noPulse, e, o)
  {
    JudgedExact(r, d, p);
    var seqs := NewSeqs(r, d.pulses, d.seqs, p.ts);
    FoundExact(r, seqs);
    PassesExact(r, d, p);
    if Eligible(r, d, p) {
      RecordExact(r, d, p, seqs, noPulse);
    }
  }

  lemma PassesExact(r: Rule, d: Detector, p: Pulse)
    requires WellFormed(r)
    ensures Eligible(r, d, p) <==> Passes(r, d.lastTs, p)
  {
  }

  lemma RecordExact(r: Rule, d: Detector, p: Pulse, seqs: seq<Pseq>, noPulse: bool)
    requires WellFormed(r) && DetInv(r, d, p.ts) && Eligible(r, d, p)
    ensures Record(r, d, p, seqs, noPulse).seqs == seqs
    ensures Stored(r, d, p, noPulse, Record(r, d, p, seqs, noPulse))
  {
    if !noPulse {
      EnqueueExact(r, d, p.ts);
    }
  }

  /* ---- All detectors ---- */

  /** A detector's share of a pulse, with the allocations that it is refused. */
  function Share(rules: seq<Rule>, dets: seq<Detector>, i: nat, ev: Event): (Detector, Outcome)
    requires GoodRules(rules) && |dets| == |rules| && i < |rules| && ev.Feed? && ev.pulse.ts < TWO32
  {
    Process(rules[i], dets[i], ev.pulse, i in ev.noSeq, i in ev.noPulse)
  }

  /** Each detector from `i` on takes its share, up to the first that reports radar. */
  lemma {:induction false} SweepExact(rules: seq<Rule>, dets: seq<Detector>, i: nat, ev: Event)
    requires GoodRules(rules) && |dets| == |rules| && i <= |rules| && ev.Feed? && ev.pulse.ts < TWO32
    ensures var (out, radar) := Sweep(rules, dets, i, ev);
            && (radar.None? ==> forall j :: 0 <= j < |rules| ==>
                  out[j] == if j < i then dets[j] else Share(rules, dets, j, ev).0)
            && (radar.None? <==> forall j :: i <= j < |rules| ==> !Share(rules, dets, j, ev).1.Radar?)
            && (radar.Some? ==>
                  && i <= radar.value < |rules| && Share(rules, dets, radar.value, ev).1.Radar?
                  && (forall j :: i <= j < radar.value ==> !Share(rules, dets, j, ev).1.Radar?)
                  && (forall j :: 0 <= j < |rules| ==> Emptied(out[j], 0)))
    decreases |rules| - i
  {
    if i < |rules| {
      var (d, o) := Share(rules, dets, i, ev);
      if !o.Radar? {
        var next := dets[i := d];
        SweepExact(rules, next, i + 1, ev);
        assert forall j :: i < j < |rules| ==> Share(rules, next, j, ev) == Share(rules, dets, j, ev);
      }
    }
  }

  /**
   A pulse out of order empties every detector; otherwise each takes its share, and the first radar
   event empties them all and ends monitoring until it is started again.
   */
  lemma {:induction false} StepExact(rules: seq<Rule>, st: Dfs, ev: Event)
    requires GoodRules(rules) && |st.dets| == |rules| && GoodEvent(ev)
    ensures var (t, radar) := Step(rules, st, ev);
            && |t.dets| == |rules|
            && (radar.Some? <==>
                  && st.active && ev.Feed? && st.lastPulseTs <= ev.pulse.ts
                  && exists j :: 0 <= j < |rules| && Share(rules, st.dets, j, ev).1.Radar?)
            && (t.active <==> radar.None? && (st.active || ev.Restart?))
            && (radar.Some? ==>
                  forall j :: 0 <= j < |rules| ==> Emptied(t.dets[j], 0))
            && (ev.Restart? || !st.active ==> t.dets == st.dets)
            && t.lastPulseTs == (if st.active && ev.Feed? then ev.pulse.ts
                                 else if st.active || ev.Feed? then st.lastPulseTs else 0)
            && (st.active && ev.Feed? && ev.pulse.ts < st.lastPulseTs ==>
                  forall j :: 0 <= j < |rules| ==> Emptied(t.dets[j], ev.pulse.ts))
            && (st.active && ev.Feed? && st.lastPulseTs <= ev.pulse.ts && radar.None? ==>
                  forall j :: 0 <= j < |rules| ==> t.dets[j] == Share(rules, st.dets, j, ev).0)
  {
    if ev.Feed? && st.active && st.lastPulseTs <= ev.pulse.ts {
      SweepExact(rules, st.dets, 0, ev);
    }
  }
}
