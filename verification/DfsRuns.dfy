/**
 All detectors together, over whole runs of pulses: the queue invariant, soundness and
 completeness of detection.
 */
module DfsRuns {
  import opened Basics
  import opened DfsDetector

  /** `active` stands for a non-zero interface flag word. */
  datatype Dfs = Dfs(active: bool, lastPulseTs: nat, dets: seq<Detector>)

  /** The rules whose allocations are refused while this pulse is handled are part of the input. */
  datatype Event = Feed(pulse: Pulse, noSeq: set<nat>, noPulse: set<nat>) | Restart

  predicate GoodRules(rules: seq<Rule>) {
    forall i :: 0 <= i < |rules| ==> WellFormed(rules[i])
  }

  function AllReset(n: nat, ts: nat): (dets: seq<Detector>)
    ensures |dets| == n
  {
    seq(n, _ => Reset(ts))
  }

  /** Rules from `i` on see the pulse; a detection resets everything and ends the loop. */
  function Sweep(rules: seq<Rule>, dets: seq<Detector>, i: nat, ev: Event): (res: (seq<Detector>, Option<nat>))
    requires GoodRules(rules) && |dets| == |rules| && i <= |rules|
    requires ev.Feed? && ev.pulse.ts < TWO32
    ensures |res.0| == |rules|
    decreases |rules| - i
  {
    if i == |rules| then (dets, None)
    else
      var (d, o) := Process(rules[i], dets[i], ev.pulse, i in ev.noSeq, i in ev.noPulse);
      if o.Radar? then (AllReset(|rules|, 0), Some(i)) else Sweep(rules, dets[i := d], i + 1, ev)
  }

  predicate GoodEvent(ev: Event) {
    ev.Feed? ==> ev.pulse.ts < TWO32
  }

  /** One pulse, or monitoring started again after it had ended. */
  function Step(rules: seq<Rule>, st: Dfs, ev: Event): (res: (Dfs, Option<nat>))
    requires GoodRules(rules) && |st.dets| == |rules| && GoodEvent(ev)
    ensures |res.0.dets| == |rules|
  {
    if ev.Restart? then (if st.active then st else st.(active := true, lastPulseTs := 0), None)
    else if !st.active then (st, None)
    else if st.lastPulseTs > ev.pulse.ts then (Dfs(true, ev.pulse.ts, AllReset(|rules|, ev.pulse.ts)), None)
    else
      var (dets, radar) := Sweep(rules, st.dets, 0, ev);
      (Dfs(radar.None?, ev.pulse.ts, dets), radar)
  }

  function Start(rules: seq<Rule>): Dfs {
    Dfs(true, 0, AllReset(|rules|, 0))
  }

  predicate GoodRun(run: seq<Event>) {
    forall i :: 0 <= i < |run| ==> GoodEvent(run[i])
  }

  function After(rules: seq<Rule>, run: seq<Event>): (st: Dfs)
    requires GoodRules(rules) && GoodRun(run)
    ensures |st.dets| == |rules|
  {
    if run == [] then Start(rules)
    else Step(rules, After(rules, run[..|run| - 1]), run[|run| - 1]).0
  }

  /* ---- What holds of one detector ---- */

  predicate QueueOk(r: Rule, d: Detector) {
    && Spaced(d.pulses, r.tolerance)
    && d.count == |d.pulses| <= 2 * r.ppb - 1
    && (d.pulses != [] ==> d.pulses[0] == d.lastTs)
    && (forall i :: 0 <= i < |d.pulses| ==> d.lastTs <= d.pulses[i] + WindowSize(r))
  }

  /** The log holds a pulse of the rule with this timestamp. */
  ghost predicate Logged(r: Rule, log: seq<Pulse>, t: nat) {
    exists k :: 0 <= k < |log| && log[k].ts == t && Accepts(r, log[k])
  }

  ghost function Near(pri: nat, tolerance: nat): int -> bool {
    (d: int) => d >= 0 && NearMultiple(d, pri, tolerance)
  }

  /** Newer pulses near their predecessor, older ones near the one at `born`, for any notion of near. */
  ghost predicate Linked(w: seq<nat>, born: nat, near: int -> bool) {
    && born < |w|
    && (forall i :: 0 <= i < born ==> near(w[i] as int - w[i + 1]))
    && (forall j :: born < j < |w| ==> near(w[born] as int - w[j]))
  }

  /**
   `w` lists the pulses behind a sequence, newest first. The one at `born` created it: the older
   ones match it, and each newer one matches its predecessor.
   */
  ghost predicate Witness(r: Rule, ps: Pseq, w: seq<nat>, born: nat) {
    && |w| == ps.count && born + 1 < |w|
    && Spaced(w, 1)
    && w[0] == ps.lastTs && w[|w| - 1] == ps.firstTs
    && Linked(w, born, Near(ps.pri, r.tolerance))
  }

  predicate Shape(r: Rule, ps: Pseq)
    requires WellFormed(r)
  {
    && r.priMin <= ps.pri <= r.priMax
    && ps.dur == Duration(r, ps.pri)
    && ps.deadlineTs == ps.firstTs + ps.dur
    && (2 <= r.ppb ==> ps.lastTs <= ps.deadlineTs)
  }

  ghost predicate AllLogged(r: Rule, log: seq<Pulse>, w: seq<nat>) {
    forall i :: 0 <= i < |w| ==> Logged(r, log, w[i])
  }

  /**
   Entry `b` of the log created the sequence. Of the pulses logged since, `born` matched, and at
   most `falses` did not.
   */
  predicate Tallied(log: seq<Pulse>, w: seq<nat>, born: nat, b: nat, falses: nat) {
    born < |w| && b < |log| && log[b].ts == w[born] && |log| - 1 - b <= born + falses
  }

  ghost predicate Behind(r: Rule, ps: Pseq, log: seq<Pulse>, w: seq<nat>, born: nat, b: nat) {
    Witness(r, ps, w, born) && AllLogged(r, log, w) && Tallied(log, w, born, b, ps.falses)
  }

  ghost predicate Backed(r: Rule, ps: Pseq, log: seq<Pulse>)
    requires WellFormed(r)
  {
    Shape(r, ps) && exists w, born, b :: Behind(r, ps, log, w, born, b)
  }

  ghost predicate SeqsOk(r: Rule, seqs: seq<Pseq>, log: seq<Pulse>, now: nat)
    requires WellFormed(r)
  {
    forall i :: 0 <= i < |seqs| ==> Backed(r, seqs[i], log) && seqs[i].lastTs <= now
  }

  ghost predicate DetInv(r: Rule, d: Detector, now: nat)
    requires WellFormed(r)
  {
    && QueueOk(r, d)
    && d.lastTs <= now < TWO32
    && AllLogged(r, d.log, d.pulses)
    && SeqsOk(r, d.seqs, d.log, now)
  }

  /* ---- Every step keeps it ---- */

  lemma LogGrows(r: Rule, log: seq<Pulse>, p: Pulse, w: seq<nat>)
    requires AllLogged(r, log, w)
    ensures AllLogged(r, log + [p], w)
  {
    forall i | 0 <= i < |w|
      ensures Logged(r, log + [p], w[i])
    {
      var k :| 0 <= k < |log| && log[k].ts == w[i] && Accepts(r, log[k]);
      assert (log + [p])[k] == log[k];
    }
  }

  lemma NewestLogged(r: Rule, log: seq<Pulse>, p: Pulse)
    requires Accepts(r, p)
    ensures Logged(r, log + [p], p.ts)
  {
    assert (log + [p])[|log|] == p;
  }

  lemma SpacedCons(w: seq<nat>, ts: nat)
    requires Spaced(w, 1) && w != [] && w[0] < ts
    ensures Spaced([ts] + w, 1)
  {
    var v := [ts] + w;
    forall i, j | 0 <= i < j < |v| ensures v[i] >= v[j] + 1 {
      assert v[j] == w[j - 1] <= w[0];
      assert i > 0 ==> v[i] == w[i - 1];
    }
  }

  lemma LinkedCons(w: seq<nat>, born: nat, ts: nat, near: int -> bool)
    requires Linked(w, born, near) && near(ts as int - w[0])
    ensures Linked([ts] + w, born + 1, near)
  {
    var v := [ts] + w;
    forall i | 0 <= i < born + 1 ensures near(v[i] as int - v[i + 1]) {
      assert i > 0 ==> v[i] == w[i - 1] && v[i + 1] == w[i - 1 + 1];
    }
    forall j | born + 1 < j < |v| ensures near(v[born + 1] as int - v[j]) {
      assert v[j] == w[j - 1] && v[born + 1] == w[born];
    }
  }

  lemma JoinWitness(r: Rule, ps: Pseq, w: seq<nat>, born: nat, ts: nat)
    requires Witness(r, ps, w, born) && ps.lastTs < ts
    requires NearMultiple(ts - ps.lastTs, ps.pri, r.tolerance)
    ensures Witness(r, ps.(lastTs := ts, count := ps.count + 1), [ts] + w, born + 1)
  {
    SpacedCons(w, ts);
    LinkedCons(w, born, ts, Near(ps.pri, r.tolerance));
  }

  lemma BumpCases(ps: Pseq, ts: nat, tolerance: nat)
    requires ps.lastTs <= ts < TWO32 && tolerance < ps.pri
    ensures || Bump(ps, ts, tolerance) == ps.(falses := ps.falses + 1)
            || (&& Bump(ps, ts, tolerance) == ps.(lastTs := ts, count := ps.count + 1)
                && ps.lastTs < ts && NearMultiple(ts - ps.lastTs, ps.pri, tolerance))
  {
    MultipleExact(ts - ps.lastTs, ps.pri, tolerance);
    if Multiple(ts - ps.lastTs, ps.pri, tolerance) > 0 {
      NotTogether(ts - ps.lastTs, ps.pri, tolerance);
    }
  }

  lemma BumpBacked(r: Rule, ps: Pseq, log: seq<Pulse>, p: Pulse)
    requires WellFormed(r) && Backed(r, ps, log)
    requires Accepts(r, p) && ps.lastTs <= p.ts < TWO32 && p.ts <= ps.deadlineTs
    ensures Backed(r, Bump(ps, p.ts, r.tolerance), log + [p])
    ensures Bump(ps, p.ts, r.tolerance).lastTs <= p.ts
  {
    var w, born, b :| Behind(r, ps, log, w, born, b);
    BumpCases(ps, p.ts, r.tolerance);
    var v, n := BumpBehind(r, ps, log, p, w, born, b);
  }

  lemma BumpBehind(r: Rule, ps: Pseq, log: seq<Pulse>, p: Pulse, w: seq<nat>, born: nat, b: nat)
    returns (v: seq<nat>, n: nat)
    requires Behind(r, ps, log, w, born, b) && Accepts(r, p) && ps.lastTs <= p.ts < TWO32 && r.tolerance < ps.pri
    ensures Behind(r, Bump(ps, p.ts, r.tolerance), log + [p], v, n, b)
  {
    BumpCases(ps, p.ts, r.tolerance);
    if Bump(ps, p.ts, r.tolerance) == ps.(falses := ps.falses + 1) {
      BehindMissed(r, ps, log, p, w, born, b);
      v, n := w, born;
    } else {
      BehindMatched(r, ps, log, p, w, born, b);
      v, n := [p.ts] + w, born + 1;
    }
  }

  lemma BehindMissed(r: Rule, ps: Pseq, log: seq<Pulse>, p: Pulse, w: seq<nat>, born: nat, b: nat)
    requires Behind(r, ps, log, w, born, b)
    ensures Behind(r, ps.(falses := ps.falses + 1), log + [p], w, born, b)
  {
    LogGrows(r, log, p, w);
    assert Witness(r, ps.(falses := ps.falses + 1), w, born);
  }

  lemma BehindMatched(r: Rule, ps: Pseq, log: seq<Pulse>, p: Pulse, w: seq<nat>, born: nat, b: nat)
    requires Behind(r, ps, log, w, born, b) && Accepts(r, p) && ps.lastTs < p.ts
    requires NearMultiple(p.ts - ps.lastTs, ps.pri, r.tolerance)
    ensures Behind(r, ps.(lastTs := p.ts, count := ps.count + 1), log + [p], [p.ts] + w, born + 1, b)
  {
    JoinWitness(r, ps, w, born, p.ts);
    LogGrows(r, log, p, w);
    NewestLogged(r, log, p);
    assert AllLogged(r, log + [p], [p.ts] + w);
    assert Tallied(log + [p], [p.ts] + w, born + 1, b, ps.falses);
  }

  /** Equal timestamps never match: every interval is longer than the tolerance. */
  lemma NotTogether(delta: nat, pri: nat, tolerance: nat)
    requires tolerance < pri && Multiple(delta, pri, tolerance) > 0
    ensures 0 < delta
  {
  }

  lemma {:induction false} ExtendBacked(r: Rule, seqs: seq<Pseq>, log: seq<Pulse>, p: Pulse)
    requires WellFormed(r) && Accepts(r, p) && p.ts < TWO32
    requires SeqsOk(r, seqs, log, p.ts)
    ensures SeqsOk(r, Extend(seqs, p.ts, r.tolerance), log + [p], p.ts)
  {
    if seqs != [] {
      assert SeqsOk(r, seqs[1..], log, p.ts);
      ExtendBacked(r, seqs[1..], log, p);
      if p.ts <= seqs[0].deadlineTs {
        BumpBacked(r, seqs[0], log, p);
      }
    }
  }

  /** The interval of a new sequence lies in the rule's range, and its seed fits it. */
  lemma SeedFits(r: Rule, delta: nat)
    requires WellFormed(r) && r.priMin <= delta <= r.priMax
    ensures r.priMin <= PriToUse(r, delta) <= r.priMax
    ensures NearMultiple(delta, PriToUse(r, delta), r.tolerance)
    ensures 2 <= r.ppb ==> delta <= Duration(r, PriToUse(r, delta))
  {
    var pri := PriToUse(r, delta);
    assert Within(delta, 1, pri, r.tolerance);
    if 2 <= r.ppb {
      assert pri * (r.ppb - 1) == pri + pri * (r.ppb - 2);
      assert 0 <= pri * (r.ppb - 2);
    }
  }

  lemma FitsMeansNear(ts: nat, pri: nat, tolerance: nat, w: seq<nat>)
    requires 0 < pri && ts < TWO32
    requires forall i :: 0 <= i < |w| ==> w[i] <= ts && Fits(ts, pri, tolerance)(w[i])
    ensures forall i :: 0 <= i < |w| ==> NearMultiple(ts - w[i], pri, tolerance)
  {
    forall i | 0 <= i < |w|
      ensures NearMultiple(ts - w[i], pri, tolerance)
    {
      assert U32(ts - w[i]) == ts - w[i];
      MultipleExact(ts - w[i], pri, tolerance);
    }
  }

  predicate InRange(r: Rule, p: nat, ts: nat) {
    p <= ts && r.priMin <= ts - p <= r.priMax
  }

  /** The older pulses that a sequence seeded by `pulses[0]` counts. */
  function OlderHits(r: Rule, pulses: seq<nat>, ts: nat): seq<nat>
    requires pulses != [] && WellFormed(r) && ts < TWO32
  {
    var ps := Build(r, pulses, ts);
    DurationFits(r, ps.pri);
    Hits(pulses[1..], Fits(ts, ps.pri, r.tolerance), MinValid(ts, ps.dur))
  }

  lemma BuildWithFields(r: Rule, seed: nat, older: seq<nat>, ts: nat, pri: nat, dur: nat)
    requires WellFormed(r) && ts < TWO32 && pri < TWO32 && Spaced(older, 1) && dur == Duration(r, pri) < TWO64
    ensures var ps := BuildWith(r, seed, older, ts, pri);
            var h := Hits(older, Fits(ts, pri, r.tolerance), MinValid(ts, dur));
            && ps.pri == pri && ps.dur == dur && ps.count == 2 + |h| && ps.firstTs == OldestOr(h, seed)
            && ps.lastTs == ts && ps.deadlineTs == ps.firstTs + dur
  {
    ScanOlderMatches(older, Fits(ts, pri, r.tolerance), MinValid(ts, dur), Scan(2, seed, 0, 0));
  }

  lemma BuildFields(r: Rule, pulses: seq<nat>, ts: nat)
    requires WellFormed(r) && ts < TWO32 && pulses != []
    requires Spaced(pulses, 1) && InRange(r, pulses[0], ts)
    ensures var ps := Build(r, pulses, ts);
            var h := OlderHits(r, pulses, ts);
            && ps.pri == PriToUse(r, ts - pulses[0]) && ps.dur == Duration(r, ps.pri)
            && ps.count == 2 + |h| && ps.firstTs == OldestOr(h, pulses[0])
            && ps.lastTs == ts && ps.deadlineTs == ps.firstTs + ps.dur
  {
    Narrow(ts, pulses[0]);
    var pri := PriToUse(r, ts - pulses[0]);
    DurationFits(r, pri);
    BuildWithFields(r, pulses[0], pulses[1..], ts, pri, Duration(r, pri));
  }

  lemma OlderHitsIn(r: Rule, pulses: seq<nat>, ts: nat)
    requires WellFormed(r) && ts < TWO32 && pulses != [] && Spaced(pulses, 1)
    ensures var h := OlderHits(r, pulses, ts);
            && Spaced(h, 1) && AtMost(h, pulses[0] as int - 1)
            && (forall i :: 0 <= i < |h| ==> h[i] in pulses)
  {
    var ps := Build(r, pulses, ts);
    DurationFits(r, ps.pri);
    var fits, mv := Fits(ts, ps.pri, r.tolerance), MinValid(ts, ps.dur);
    HitsSpaced(pulses[1..], fits, mv, 1);
    HitsAtMost(pulses[1..], fits, mv, pulses[0] as int - 1);
    HitsMembers(pulses[1..], fits, mv);
  }

  lemma WindowHits(older: seq<nat>, ts: nat, pri: nat, tolerance: nat, dur: nat, h: seq<nat>)
    requires 0 < pri && ts < TWO32 && dur < TWO64 && AtMost(older, ts)
    requires h == Hits(older, Fits(ts, pri, tolerance), MinValid(ts, dur))
    ensures AtMost(h, ts)
    ensures forall i :: 0 <= i < |h| ==> NearMultiple(ts - h[i], pri, tolerance)
    ensures forall i :: 0 <= i < |h| ==> ts <= h[i] + dur
  {
    var fits, mv := Fits(ts, pri, tolerance), MinValid(ts, dur);
    HitsMembers(older, fits, mv);
    HitsAtMost(older, fits, mv, ts);
    assert forall i :: 0 <= i < |h| ==> fits(h[i]);
    FitsMeansNear(ts, pri, tolerance, h);
  }

  lemma OlderHitsFit(r: Rule, pulses: seq<nat>, ts: nat)
    requires WellFormed(r) && ts < TWO32 && pulses != []
    requires Spaced(pulses, 1) && InRange(r, pulses[0], ts)
    ensures var h := OlderHits(r, pulses, ts);
            var ps := Build(r, pulses, ts);
            && AtMost(h, ts)
            && (forall i :: 0 <= i < |h| ==> NearMultiple(ts - h[i], ps.pri, r.tolerance))
            && (forall i :: 0 <= i < |h| ==> ts <= h[i] + ps.dur)
  {
    var ps := Build(r, pulses, ts);
    BuildFields(r, pulses, ts);
    SeedFits(r, ts - pulses[0]);
    DurationFits(r, ps.pri);
    WindowHits(pulses[1..], ts, ps.pri, r.tolerance, ps.dur, OlderHits(r, pulses, ts));
  }

  lemma NewWitness(r: Rule, ps: Pseq, seed: nat, ts: nat, h: seq<nat>)
    requires seed < ts && Spaced(h, 1) && AtMost(h, seed as int - 1)
    requires NearMultiple(ts - seed, ps.pri, r.tolerance)
    requires forall i :: 0 <= i < |h| ==> h[i] < ts && NearMultiple(ts - h[i], ps.pri, r.tolerance)
    requires ps.count == 2 + |h| && ps.firstTs == OldestOr(h, seed) && ps.lastTs == ts
    ensures Witness(r, ps, [ts, seed] + h, 0)
  {
    var w := [ts, seed] + h;
    assert forall i :: 2 <= i < |w| ==> w[i] == h[i - 2];
  }

  lemma BuildBacked(r: Rule, pulses: seq<nat>, log: seq<Pulse>, p: Pulse)
    requires WellFormed(r) && p.ts < TWO32 && Accepts(r, p) && pulses != []
    requires Spaced(pulses, 1) && InRange(r, pulses[0], p.ts) && AllLogged(r, log, pulses)
    ensures Backed(r, Build(r, pulses, p.ts), log + [p])
  {
    var ps, h := Build(r, pulses, p.ts), OlderHits(r, pulses, p.ts);
    SeedFits(r, p.ts - pulses[0]);
    BuildFields(r, pulses, p.ts);
    OlderHitsIn(r, pulses, p.ts);
    OlderHitsFit(r, pulses, p.ts);
    NewWitness(r, ps, pulses[0], p.ts, h);
    BornBehind(r, ps, log, p, pulses, [p.ts, pulses[0]] + h);
    assert Behind(r, ps, log + [p], [p.ts, pulses[0]] + h, 0, |log|);
  }

  lemma BornBehind(r: Rule, ps: Pseq, log: seq<Pulse>, p: Pulse, pulses: seq<nat>, w: seq<nat>)
    requires AllLogged(r, log, pulses) && Accepts(r, p) && Witness(r, ps, w, 0) && w[0] == p.ts
    requires forall i :: 0 < i < |w| ==> w[i] in pulses
    ensures Behind(r, ps, log + [p], w, 0, |log|)
  {
    LogGrows(r, log, p, pulses);
    NewestLogged(r, log, p);
    assert AllLogged(r, log + [p], w);
    assert (log + [p])[|log|] == p;
  }

  lemma SeededBacked(r: Rule, pulses: seq<nat>, log: seq<Pulse>, p: Pulse, minCount: nat)
    requires WellFormed(r) && p.ts < TWO32 && Accepts(r, p) && pulses != []
    requires Spaced(pulses, 1) && InRange(r, pulses[0], p.ts) && AllLogged(r, log, pulses)
    ensures SeqsOk(r, Seeded(r, pulses, p.ts, minCount), log + [p], p.ts)
  {
    BuildBacked(r, pulses, log, p);
  }

  lemma SeqsJoin(r: Rule, a: seq<Pseq>, b: seq<Pseq>, log: seq<Pulse>, now: nat)
    requires WellFormed(r) && SeqsOk(r, a, log, now) && SeqsOk(r, b, log, now)
    ensures SeqsOk(r, a + b, log, now)
  {
  }

  lemma {:induction false} CreateBacked(r: Rule, pulses: seq<nat>, log: seq<Pulse>, p: Pulse, minCount: nat)
    requires WellFormed(r) && p.ts < TWO32 && Accepts(r, p)
    requires Spaced(pulses, 1) && AtMost(pulses, p.ts) && AllLogged(r, log, pulses)
    ensures SeqsOk(r, Create(r, pulses, p.ts, minCount), log + [p], p.ts)
  {
    if pulses != [] {
      Narrow(p.ts, pulses[0]);
      CreateBacked(r, pulses[1..], log, p, minCount);
      if InRange(r, pulses[0], p.ts) {
        SeededBacked(r, pulses, log, p, minCount);
        SeqsJoin(r, Create(r, pulses[1..], p.ts, minCount), Seeded(r, pulses, p.ts, minCount), log + [p], p.ts);
      }
    }
  }

  lemma {:induction false} AgeOutPrefix(pulses: seq<nat>, minValid: nat)
    ensures AgeOut(pulses, minValid) <= pulses
    ensures forall i :: 0 <= i < |AgeOut(pulses, minValid)| && Spaced(pulses, 1) ==>
        AgeOut(pulses, minValid)[i] >= minValid
    ensures pulses != [] && pulses[0] >= minValid ==> AgeOut(pulses, minValid) != []
  {
    if pulses == [] || pulses[|pulses| - 1] >= minValid {
    } else {
      AgeOutPrefix(pulses[..|pulses| - 1], minValid);
    }
  }

  lemma SpacedPush(pulses: seq<nat>, ts: nat, gap: nat)
    requires Spaced(pulses, gap) && (pulses != [] ==> pulses[0] + gap <= ts)
    ensures Spaced([ts] + pulses, gap)
  {
    var all := [ts] + pulses;
    forall i, j | 0 <= i < j < |all| ensures all[i] >= all[j] + gap {
      assert all[j] == pulses[j - 1] <= pulses[0];
    }
  }

  lemma WindowOk(r: Rule, all: seq<nat>, ts: nat)
    requires Spaced(all, r.tolerance) && r.tolerance >= 1 && all != [] && all[0] == ts
    requires |all| >= 2 ==> all[1] <= ts
    ensures var q := CheckWindow(r, all, ts);
            q <= all && q != [] && forall i :: 0 <= i < |q| ==> ts <= q[i] + WindowSize(r)
  {
    if |all| >= 2 && ts > WindowSize(r) {
      AgeOutPrefix(all, ts - WindowSize(r));
    }
  }

  lemma EnqueueOk(r: Rule, d: Detector, ts: nat)
    requires WellFormed(r) && QueueOk(r, d) && d.lastTs + r.tolerance <= ts
    ensures QueueOk(r, d.(lastTs := ts, count := |Enqueue(r, d.pulses, ts)|, pulses := Enqueue(r, d.pulses, ts)))
    ensures Enqueue(r, d.pulses, ts) <= [ts] + d.pulses
  {
    var all := [ts] + d.pulses;
    SpacedPush(d.pulses, ts, r.tolerance);
    WindowOk(r, all, ts);
    assert Enqueue(r, d.pulses, ts) <= CheckWindow(r, all, ts);
  }

  lemma PrefixLogged(r: Rule, log: seq<Pulse>, w: seq<nat>, v: seq<nat>)
    requires AllLogged(r, log, w) && v <= w
    ensures AllLogged(r, log, v)
  {
    forall i | 0 <= i < |v|
      ensures Logged(r, log, v[i])
    {
      assert v[i] == w[i];
    }
  }

  lemma NewSeqsBacked(r: Rule, d: Detector, p: Pulse)
    requires WellFormed(r) && DetInv(r, d, p.ts) && Eligible(r, d, p)
    ensures SeqsOk(r, NewSeqs(r, d.pulses, d.seqs, p.ts), d.log + [p], p.ts)
  {
    CreateBacked(r, d.pulses, d.log, p, BestCount(d.seqs, p.ts, r.tolerance));
    ExtendBacked(r, d.seqs, d.log, p);
  }

  lemma QueueKeeps(r: Rule, d: Detector, p: Pulse)
    requires WellFormed(r) && DetInv(r, d, p.ts) && Eligible(r, d, p)
    ensures var q := Enqueue(r, d.pulses, p.ts);
            QueueOk(r, d.(lastTs := p.ts, count := |q|, pulses := q)) && AllLogged(r, d.log + [p], q)
  {
    EnqueueOk(r, d, p.ts);
    LogGrows(r, d.log, p, d.pulses);
    NewestLogged(r, d.log, p);
    assert AllLogged(r, d.log + [p], [p.ts] + d.pulses);
    PrefixLogged(r, d.log + [p], [p.ts] + d.pulses, Enqueue(r, d.pulses, p.ts));
  }

  lemma RecordKeeps(r: Rule, d: Detector, p: Pulse, seqs: seq<Pseq>, noPulse: bool)
    requires WellFormed(r) && DetInv(r, d, p.ts) && Eligible(r, d, p) && SeqsOk(r, seqs, d.log + [p], p.ts)
    ensures DetInv(r, Record(r, d, p, seqs, noPulse), p.ts)
  {
    if noPulse {
      LogGrows(r, d.log, p, d.pulses);
    } else {
      QueueKeeps(r, d, p);
    }
  }

  lemma {:induction false} ProcessKeeps(r: Rule, d: Detector, p: Pulse, noSeq: bool, noPulse: bool)
    requires WellFormed(r) && DetInv(r, d, p.ts)
    ensures DetInv(r, Process(r, d, p, noSeq, noPulse).0, p.ts)
  {
    var e := Process(r, d, p, noSeq, noPulse).0;
    if Process(r, d, p, noSeq, noPulse).1.Taken? {
      NewSeqsBacked(r, d, p);
      RecordKeeps(r, d, p, NewSeqs(r, d.pulses, d.seqs, p.ts), noPulse);
    } else if e != d {
      ResetInv(r, p.ts, p.ts);
    }
  }

  /* ---- Soundness ---- */

  /**
   At least `ppbThresh` distinct logged pulses form one sequence of the rule, and those logged since
   it began that did not match are at most `nrPri` times as many.
   */
  ghost predicate RadarEvidence(r: Rule, log: seq<Pulse>) {
    exists ps, w, born, b :: Behind(r, ps, log, w, born, b) && Convincing(r, ps.pri, log, w, born, b)
  }

  predicate Convincing(r: Rule, pri: nat, log: seq<Pulse>, w: seq<nat>, born: nat, b: nat) {
    && |w| >= r.ppbThresh && |log| - 1 - b - born <= |w| * r.nrPri
    && r.priMin <= pri <= r.priMax
    && (2 <= r.ppb && w != [] ==> w[0] - w[|w| - 1] <= pri * (r.ppb - 1) + 2 * PRI_TOLERANCE)
  }

  lemma {:induction false} ProcessSound(r: Rule, d: Detector, p: Pulse, noSeq: bool, noPulse: bool)
    requires WellFormed(r) && DetInv(r, d, p.ts)
    requires Process(r, d, p, noSeq, noPulse).1.Radar?
    ensures RadarEvidence(r, d.log + [p])
  {
    NewSeqsBacked(r, d, p);
    var seqs := NewSeqs(r, d.pulses, d.seqs, p.ts);
    var ps := seqs[FirstConfident(r, seqs)];
    assert Backed(r, ps, d.log + [p]);
    var w, born, b :| Behind(r, ps, d.log + [p], w, born, b);
    assert Convincing(r, ps.pri, d.log + [p], w, born, b);
  }

  ghost predicate Inv(rules: seq<Rule>, st: Dfs)
    requires GoodRules(rules)
  {
    && |st.dets| == |rules|
    && st.lastPulseTs < TWO32
    && (forall i :: 0 <= i < |rules| ==> DetInv(rules[i], st.dets[i], st.lastPulseTs))
    && (!st.active ==> st.dets == AllReset(|rules|, 0))
  }

  lemma ResetInv(r: Rule, ts: nat, now: nat)
    requires WellFormed(r) && ts <= now < TWO32
    ensures DetInv(r, Reset(ts), now)
  {
  }

  ghost predicate AllInv(rules: seq<Rule>, dets: seq<Detector>, now: nat)
    requires GoodRules(rules) && |dets| == |rules|
  {
    forall k :: 0 <= k < |rules| ==> DetInv(rules[k], dets[k], now)
  }

  lemma AllResetInv(rules: seq<Rule>, ts: nat, now: nat)
    requires GoodRules(rules) && ts <= now < TWO32
    ensures AllInv(rules, AllReset(|rules|, ts), now)
  {
    forall k | 0 <= k < |rules| ensures DetInv(rules[k], AllReset(|rules|, ts)[k], now) {
      ResetInv(rules[k], ts, now);
    }
  }

  lemma OneKeeps(rules: seq<Rule>, dets: seq<Detector>, i: nat, d: Detector, now: nat)
    requires GoodRules(rules) && |dets| == |rules| && i < |rules| && AllInv(rules, dets, now)
        && DetInv(rules[i], d, now)
    ensures AllInv(rules, dets[i := d], now)
  {
  }

  lemma {:induction false} SweepKeeps(rules: seq<Rule>, dets: seq<Detector>, i: nat, ev: Event)
    requires GoodRules(rules) && |dets| == |rules| && i <= |rules|
    requires ev.Feed? && ev.pulse.ts < TWO32 && AllInv(rules, dets, ev.pulse.ts)
    ensures var (out, radar) := Sweep(rules, dets, i, ev);
            && AllInv(rules, out, ev.pulse.ts)
            && (radar.Some? ==> i <= radar.value < |rules| && out == AllReset(|rules|, 0))
            && (radar.Some? ==> RadarEvidence(rules[radar.value], dets[radar.value].log + [ev.pulse]))
    decreases |rules| - i
  {
    if i < |rules| {
      var (d, o) := Process(rules[i], dets[i], ev.pulse, i in ev.noSeq, i in ev.noPulse);
      if o.Radar? {
        ProcessSound(rules[i], dets[i], ev.pulse, i in ev.noSeq, i in ev.noPulse);
        AllResetInv(rules, 0, ev.pulse.ts);
      } else {
        ProcessKeeps(rules[i], dets[i], ev.pulse, i in ev.noSeq, i in ev.noPulse);
        OneKeeps(rules, dets, i, d, ev.pulse.ts);
        SweepKeeps(rules, dets[i := d], i + 1, ev);
      }
    }
  }

  lemma Later(r: Rule, d: Detector, now: nat, later: nat)
    requires WellFormed(r) && DetInv(r, d, now) && now <= later < TWO32
    ensures DetInv(r, d, later)
  {
  }

  lemma {:induction false} StepKeeps(rules: seq<Rule>, st: Dfs, ev: Event)
    requires GoodRules(rules) && Inv(rules, st) && GoodEvent(ev)
    ensures Inv(rules, Step(rules, st, ev).0)
    ensures var radar := Step(rules, st, ev).1;
            radar.Some? ==>
              && ev.Feed? && radar.value < |rules|
              && RadarEvidence(rules[radar.value], st.dets[radar.value].log + [ev.pulse])
  {
    var now := if ev.Feed? then ev.pulse.ts else 0;
    forall k | 0 <= k < |rules|
      ensures DetInv(rules[k], Reset(0), 0) && DetInv(rules[k], Reset(now), now)
    {
      ResetInv(rules[k], 0, 0);
      ResetInv(rules[k], now, now);
    }
    if ev.Feed? && st.active && st.lastPulseTs <= ev.pulse.ts {
      forall k | 0 <= k < |rules|
        ensures DetInv(rules[k], st.dets[k], ev.pulse.ts)
      {
        Later(rules[k], st.dets[k], st.lastPulseTs, ev.pulse.ts);
      }
      SweepKeeps(rules, st.dets, 0, ev);
    }
  }

  /** The invariant holds after every run. */
  lemma {:induction false} RunKeeps(rules: seq<Rule>, run: seq<Event>)
    requires GoodRules(rules) && GoodRun(run)
    ensures Inv(rules, After(rules, run))
  {
    if run == [] {
      forall k | 0 <= k < |rules|
        ensures DetInv(rules[k], Reset(0), 0)
      {
        ResetInv(rules[k], 0, 0);
      }
    } else {
      RunKeeps(rules, run[..|run| - 1]);
      StepKeeps(rules, After(rules, run[..|run| - 1]), run[|run| - 1]);
    }
  }

  /** On every run, the queue of every detector is ordered, spaced, recent and of the counted length. */
  lemma {:induction false} QueueInvariant(rules: seq<Rule>, run: seq<Event>, i: nat)
    requires GoodRules(rules) && GoodRun(run) && i < |rules|
    ensures QueueOk(rules[i], After(rules, run).dets[i])
  {
    RunKeeps(rules, run);
  }

  /** On every run, a radar event has evidence among the pulses taken in since the last reset. */
  lemma {:induction false} DetectionSound(rules: seq<Rule>, run: seq<Event>, ev: Event)
    requires GoodRules(rules) && GoodRun(run) && GoodEvent(ev)
    requires Step(rules, After(rules, run), ev).1.Some?
    ensures var i := Step(rules, After(rules, run), ev).1.value;
            && ev.Feed? && i < |rules|
            && RadarEvidence(rules[i], After(rules, run).dets[i].log + [ev.pulse])
  {
    RunKeeps(rules, run);
    StepKeeps(rules, After(rules, run), ev);
  }

  /** Whatever a detector has logged was fed in during the run. */
  lemma {:induction false} LogIsFed(rules: seq<Rule>, run: seq<Event>, i: nat, k: nat)
    requires GoodRules(rules) && GoodRun(run) && i < |rules|
    requires k < |After(rules, run).dets[i].log|
    ensures exists n :: 0 <= n < |run| && run[n].Feed? && run[n].pulse == After(rules, run).dets[i].log[k]
  {
    if run != [] {
      var before, ev := After(rules, run[..|run| - 1]), run[|run| - 1];
      if ev.Feed? && before.active && before.lastPulseTs <= ev.pulse.ts {
        SweepLogs(rules, before.dets, 0, ev, i);
      }
      var log := After(rules, run).dets[i].log;
      if k < |before.dets[i].log| && log[k] == before.dets[i].log[k] {
        LogIsFed(rules, run[..|run| - 1], i, k);
        var n :| 0 <= n < |run| - 1 && run[..|run| - 1][n].Feed? && run[..|run| - 1][n].pulse == log[k];
        assert run[n].Feed? && run[n].pulse == log[k];
      } else {
        assert ev.Feed? && log[k] == ev.pulse;
      }
    }
  }

  lemma {:induction false} SweepLogs(rules: seq<Rule>, dets: seq<Detector>, j: nat, ev: Event, i: nat)
    requires GoodRules(rules) && |dets| == |rules| && j <= |rules| && i < |rules|
    requires ev.Feed? && ev.pulse.ts < TWO32
    ensures var log := Sweep(rules, dets, j, ev).0[i].log;
            log == [] || log == dets[i].log || (j <= i && log == dets[i].log + [ev.pulse])
    decreases |rules| - j
  {
    if j < |rules| {
      var (d, o) := Process(rules[j], dets[j], ev.pulse, j in ev.noSeq, j in ev.noPulse);
      if !o.Radar? {
        SweepLogs(rules, dets[j := d], j + 1, ev, i);
      }
    }
  }
}
