/**
 Setting the detectors up for a channel. Set-up empties the lists but not the counters, so the
 detector is modelled here with its own pulse counter, which may be ahead of the queue.
 */
module DfsSetup {
  import opened Basics
  import opened DfsDetector
  import opened DfsRuns
  import opened DfsCompleteness
  import opened DfsDriver

  /** Channel set-up empties the lists of a detector and nothing else. */
  function ChanInit(d: Detector): Detector {
    d.(pulses := [], seqs := [])
  }

  /** Set-up keeps the queue invariant exactly when no pulse was counted. */
  lemma ChanInitExact(r: Rule, d: Detector)
    requires WellFormed(r) && QueueOk(r, d)
    ensures QueueOk(r, ChanInit(d)) <==> d.count == 0
  {
  }

  /* ---- The detector with its own counter ---- */

  /** The queue and the counter after ageing; the counter decides whether there is anything to age. */
  function Aged(r: Rule, pulses: seq<nat>, count: nat, ts: nat): (seq<nat>, int) {
    if count < 2 || ts <= WindowSize(r) then (pulses, count)
    else var q := AgeOut(pulses, ts - WindowSize(r)); (q, count - (|pulses| - |q|))
  }

  /** Queues the pulse, ages the queue and bounds the counter. */
  function Queued(r: Rule, d: Detector, ts: nat): (seq<nat>, int) {
    var (q, count) := Aged(r, [ts] + d.pulses, d.count + 1, ts);
    if count >= MaxCount(r) && q != [] then (DropLast(q), count - 1) else (q, count)
  }

  function RecordRaw(r: Rule, d: Detector, p: Pulse, seqs: seq<Pseq>): Detector {
    var (q, count) := Queued(r, d, p.ts);
    Detector(p.ts, if count < 0 then 0 else count, q, seqs, d.log + [p])
  }

  /** One pulse, with memory available. */
  function ProcessRaw(r: Rule, d: Detector, p: Pulse): (Detector, Outcome)
    requires WellFormed(r) && p.ts < TWO32
  {
    if !Eligible(r, d, p) then (d, Ignored)
    else
      var seqs := NewSeqs(r, d.pulses, d.seqs, p.ts);
      if FirstConfident(r, seqs) < |seqs| then (d, Radar) else (RecordRaw(r, d, p, seqs), Taken)
  }

  /** With a right counter this is the detector of the other modules. */
  lemma RawIsProcess(r: Rule, d: Detector, p: Pulse)
    requires WellFormed(r) && p.ts < TWO32 && d.count == |d.pulses|
    ensures ProcessRaw(r, d, p) == Process(r, d, p, false, false)
  {
    if p.ts > WindowSize(r) {
      AgeOutShorter([p.ts] + d.pulses, p.ts - WindowSize(r));
    }
  }

  /** Some of these pulses raises a radar event. */
  predicate Alarmed(r: Rule, d: Detector, ps: seq<Pulse>)
    requires WellFormed(r) && forall i :: 0 <= i < |ps| ==> ps[i].ts < TWO32
    decreases |ps|
  {
    ps != [] && (ProcessRaw(r, d, ps[0]).1.Radar? || Alarmed(r, ProcessRaw(r, d, ps[0]).0, ps[1..]))
  }

  /* ---- A full counter makes the detector blind ---- */

  predicate Blind(r: Rule, d: Detector) {
    d.pulses == [] && d.seqs == [] && d.count == MaxCount(r) - 1
  }

  lemma BlindStays(r: Rule, d: Detector, p: Pulse)
    requires WellFormed(r) && p.ts < TWO32 && Blind(r, d)
    ensures var (e, o) := ProcessRaw(r, d, p); !o.Radar? && Blind(r, e)
  {
    if Eligible(r, d, p) {
      assert NewSeqs(r, [], [], p.ts) == [];
      assert [p.ts] + [] == [p.ts];
      assert p.ts > WindowSize(r) ==> AgeOut([p.ts], p.ts - WindowSize(r)) == [p.ts];
    }
  }

  /** No pulses whatsoever raise an event again. */
  lemma {:induction false} BlindForEver(r: Rule, d: Detector, ps: seq<Pulse>)
    requires WellFormed(r) && (forall i :: 0 <= i < |ps| ==> ps[i].ts < TWO32) && Blind(r, d)
    ensures !Alarmed(r, d, ps)
    decreases |ps|
  {
    if ps != [] {
      BlindStays(r, d, ps[0]);
      BlindForEver(r, ProcessRaw(r, d, ps[0]).0, ps[1..]);
    }
  }

  /* ---- Otherwise a clean burst is still seen ---- */

  /** How many pulses a queue holds whose counter is `stale` ahead. */
  function Kept(r: Rule, stale: nat, n: nat): nat {
    if n < MaxCount(r) - 1 - stale then n else if stale < MaxCount(r) then MaxCount(r) - 1 - stale else 0
  }

  /** The detector after `n` pulses of the burst. */
  function Tracking(r: Rule, t1: nat, period: nat, n: nat, stale: nat, log: seq<Pulse>): Detector
    requires WellFormed(r) && 1 <= n
  {
    var m := Kept(r, stale, n);
    var seqs := if n < 2 then [] else [Grown(r, t1, period, n)];
    Detector(t1 + (n - 1) * period, stale + m, if m <= n then Train(t1, period, n)[..m] else [], seqs, log)
  }

  lemma TrackingSeqs(r: Rule, t1: nat, period: nat, n: nat, stale: nat, log: seq<Pulse>)
    requires PeriodFits(r, period) && 1 <= n < Needed(r) && t1 + n * period < TWO32 && stale < MaxCount(r) - 1
    ensures var d := Tracking(r, t1, period, n, stale, log);
            NewSeqs(r, d.pulses, d.seqs, t1 + n * period) == [Grown(r, t1, period, n + 1)]
  {
    var d := Tracking(r, t1, period, n, stale, log);
    if n == 1 {
      assert Train(t1, period, 1) == [t1] && d.pulses == [t1];
      FirstGrown(r, t1, period);
    } else {
      GrownLives(r, t1, period, n);
      NoneBetter(r, d.pulses, t1 + n * period, n + 1);
    }
  }

  lemma {:induction false} TrainSince(t1: nat, period: nat, n: nat, i: nat)
    requires i < n
    ensures Train(t1, period, n)[i] >= t1
  {
    if i > 0 {
      TrainSince(t1, period, n - 1, i - 1);
    }
  }

  /** Nothing ages out within one burst. */
  lemma YoungBurst(r: Rule, t1: nat, period: nat, n: nat, q: seq<nat>, count: nat)
    requires PeriodFits(r, period) && n < r.ppb && q != [] && q <= Train(t1, period, n + 1)
    ensures Aged(r, q, count, t1 + n * period) == (q, count)
  {
    TrainSince(t1, period, n + 1, |q| - 1);
    WindowHolds(r, period, n);
  }

  lemma TrackingQueue(r: Rule, t1: nat, period: nat, n: nat, stale: nat, log: seq<Pulse>)
    requires PeriodFits(r, period) && 1 <= n < r.ppb && stale < MaxCount(r) - 1
    ensures var m := Kept(r, stale, n + 1);
            m <= n + 1 && Queued(r, Tracking(r, t1, period, n, stale, log), t1 + n * period)
                       == (Train(t1, period, n + 1)[..m], stale + m)
  {
    var m, ts := Kept(r, stale, n), t1 + n * period;
    var all := Train(t1, period, n + 1);
    assert all == [ts] + Train(t1, period, n);
    var q := [ts] + Train(t1, period, n)[..m];
    assert q == all[..m + 1];
    YoungBurst(r, t1, period, n, q, stale + m + 1);
    if stale + m + 1 >= MaxCount(r) {
      assert DropLast(q) == all[..m];
    }
  }

  lemma {:induction false} TrackingStep(r: Rule, t1: nat, period: nat, n: nat, stale: nat, log: seq<Pulse>, p: Pulse)
    requires PeriodFits(r, period) && 1 <= n < Needed(r) && stale < MaxCount(r) - 1
    requires p.ts == t1 + n * period < TWO32 && Accepts(r, p)
    ensures var (d, o) := ProcessRaw(r, Tracking(r, t1, period, n, stale, log), p);
            if n + 1 == Needed(r) then o.Radar?
            else o.Taken? && d == Tracking(r, t1, period, n + 1, stale, log + [p])
  {
    var d := Tracking(r, t1, period, n, stale, log);
    assert n * period == (n - 1) * period + period;
    assert Eligible(r, d, p);
    TrackingSeqs(r, t1, period, n, stale, log);
    assert FirstConfident(r, [Grown(r, t1, period, n + 1)]) == if n + 1 >= r.ppbThresh then 0 else 1;
    if n + 1 < Needed(r) {
      TrackingQueue(r, t1, period, n, stale, log);
    }
  }

  /** The pulses form an exact burst that the rule accepts. */
  predicate CleanBurst(r: Rule, ps: seq<Pulse>, t1: nat, period: nat) {
    forall k :: 0 <= k < |ps| ==> ps[k].ts == t1 + k * period < TWO32 && Accepts(r, ps[k])
  }

  lemma CleanTail(r: Rule, ps: seq<Pulse>, t1: nat, period: nat)
    requires ps != [] && CleanBurst(r, ps, t1, period)
    ensures CleanBurst(r, ps[1..], t1 + period, period)
  {
    forall k | 0 <= k < |ps| - 1 ensures ps[1..][k] == ps[k + 1] && ps[k + 1].ts == t1 + period + k * period {
      assert (k + 1) * period == k * period + period;
    }
  }

  lemma CleanFirst(r: Rule, ps: seq<Pulse>, t1: nat, period: nat)
    requires ps != [] && CleanBurst(r, ps, t1, period)
    ensures ps[0].ts == t1 < TWO32 && Accepts(r, ps[0])
    ensures forall i :: 0 <= i < |ps| ==> ps[i].ts < TWO32
  {
    assert 0 * period == 0;
  }

  lemma {:induction false} StillTracking(r: Rule, t1: nat, period: nat, n: nat, stale: nat, log: seq<Pulse>,
                                         ps: seq<Pulse>, ts: nat)
    requires PeriodFits(r, period) && 1 <= n < Needed(r) && stale < MaxCount(r) - 1 && ts == t1 + n * period
    requires |ps| == Needed(r) - n && CleanBurst(r, ps, ts, period)
    ensures Alarmed(r, Tracking(r, t1, period, n, stale, log), ps)
    decreases |ps|
  {
    CleanFirst(r, ps, ts, period);
    TrackingStep(r, t1, period, n, stale, log, ps[0]);
    if n + 1 < Needed(r) {
      assert ProcessRaw(r, Tracking(r, t1, period, n, stale, log), ps[0]).0
          == Tracking(r, t1, period, n + 1, stale, log + [ps[0]]);
      assert ts + period == t1 + (n + 1) * period;
      CleanTail(r, ps, ts, period);
      StillTracking(r, t1, period, n + 1, stale, log + [ps[0]], ps[1..], ts + period);
    }
  }

  /** The first pulse after set-up. */
  lemma FirstTracked(r: Rule, d: Detector, p: Pulse, period: nat)
    requires WellFormed(r) && Accepts(r, p) && d.lastTs + r.tolerance <= p.ts < TWO32 && d.count < MaxCount(r) - 1
    ensures ProcessRaw(r, ChanInit(d), p) == (Tracking(r, p.ts, period, 1, d.count, d.log + [p]), Taken)
  {
    assert NewSeqs(r, [], [], p.ts) == [];
    assert [p.ts] + [] == [p.ts] == Train(p.ts, period, 1);
    assert p.ts > WindowSize(r) ==> AgeOut([p.ts], p.ts - WindowSize(r)) == [p.ts];
  }

  /**
   After set-up, a clean burst of max(2, ppbThresh) pulses is seen if and only if the counter that
   set-up left behind is below 2 * ppb - 1.
   */
  lemma {:induction false} SetupBurst(r: Rule, d: Detector, ps: seq<Pulse>, t1: nat, period: nat)
    requires PeriodFits(r, period) && d.count < MaxCount(r) && d.lastTs + r.tolerance <= t1
    requires |ps| == Needed(r) && CleanBurst(r, ps, t1, period)
    ensures Alarmed(r, ChanInit(d), ps) <==> d.count < 2 * r.ppb - 1
  {
    if d.count < 2 * r.ppb - 1 {
      CleanFirst(r, ps, t1, period);
      FirstTracked(r, d, ps[0], period);
      CleanTail(r, ps, t1, period);
      StillTracking(r, t1, period, 1, d.count, d.log + [ps[0]], ps[1..], t1 + period);
    } else {
      BlindForEver(r, ChanInit(d), ps);
    }
  }

  /* ---- Any number of set-ups ---- */

  /** What happens to one detector: a pulse, with what memory it is refused; a channel set-up; a reset. */
  datatype Happening = Hears(p: Pulse, noSeq: bool, noPulse: bool) | SetsUp | Resets(ts: nat)

  predicate Good(h: Happening) {
    h.Hears? ==> h.p.ts < TWO32
  }

  /** A refused sequence and a radar event reset the detector; a refused queue entry leaves queue and counter alone. */
  function Happen(r: Rule, d: Detector, h: Happening): Detector
    requires WellFormed(r) && Good(h)
  {
    match h
    case SetsUp => ChanInit(d)
    case Resets(ts) => Reset(ts)
    case Hears(p, noSeq, noPulse) =>
      var (e, o) := ProcessRaw(r, d, p);
      if o.Ignored? then d
      else if noSeq && Added(r, d.pulses, d.seqs, p.ts) != [] then Reset(p.ts)
      else if o.Radar? then Reset(0)
      else if noPulse then d.(seqs := e.seqs, log := e.log)
      else e
  }

  function Life(r: Rule, d: Detector, hs: seq<Happening>): Detector
    requires WellFormed(r) && forall i :: 0 <= i < |hs| ==> Good(hs[i])
    decreases |hs|
  {
    if hs == [] then d else Life(r, Happen(r, d, hs[0]), hs[1..])
  }

  /** With a right counter, what happens is what the detector of the other modules does. */
  lemma HappenIsProcess(r: Rule, d: Detector, p: Pulse, noSeq: bool, noPulse: bool)
    requires WellFormed(r) && p.ts < TWO32 && d.count == |d.pulses|
    ensures var (e, o) := Process(r, d, p, noSeq, noPulse);
            Happen(r, d, Hears(p, noSeq, noPulse)) == if o.Radar? then Reset(0) else e
  {
    RawIsProcess(r, d, p);
  }

  /** The counter covers the queue and stays below its limit. */
  predicate Counted(r: Rule, d: Detector) {
    |d.pulses| <= d.count < MaxCount(r)
  }

  lemma {:induction false} AgeOutKeeps(pulses: seq<nat>, minValid: nat)
    requires pulses != [] && pulses[0] >= minValid
    ensures AgeOut(pulses, minValid) != []
  {
    if pulses[|pulses| - 1] < minValid {
      AgeOutKeeps(pulses[..|pulses| - 1], minValid);
    }
  }

  /** The counter never runs below the queue, so the driver's counter does not wrap. */
  lemma QueuedCounted(r: Rule, d: Detector, ts: nat)
    requires Counted(r, d)
    ensures var (q, count) := Queued(r, d, ts); |q| <= count < MaxCount(r)
  {
    var all := [ts] + d.pulses;
    if ts > WindowSize(r) {
      AgeOutShorter(all, ts - WindowSize(r));
      AgeOutKeeps(all, ts - WindowSize(r));
    }
  }

  lemma HappenCounted(r: Rule, d: Detector, h: Happening)
    requires WellFormed(r) && Good(h) && Counted(r, d)
    ensures Counted(r, Happen(r, d, h))
  {
    if h.Hears? {
      QueuedCounted(r, d, h.p.ts);
    }
  }

  lemma {:induction false} LifeCounted(r: Rule, d: Detector, hs: seq<Happening>)
    requires WellFormed(r) && (forall i :: 0 <= i < |hs| ==> Good(hs[i])) && Counted(r, d)
    ensures Counted(r, Life(r, d, hs))
    decreases |hs|
  {
    if hs != [] {
      HappenCounted(r, d, hs[0]);
      LifeCounted(r, Happen(r, d, hs[0]), hs[1..]);
    }
  }

  /** The same after any pulses, resets and set-ups, and one set-up more. */
  lemma {:induction false} AnySetupBurst(
    r: Rule, hs: seq<Happening>, ps: seq<Pulse>, t1: nat, period: nat)
    requires PeriodFits(r, period) && forall i :: 0 <= i < |hs| ==> Good(hs[i])
    requires Life(r, Reset(0), hs).lastTs + r.tolerance <= t1
    requires |ps| == Needed(r) && CleanBurst(r, ps, t1, period)
    ensures var d := Life(r, Reset(0), hs);
            Alarmed(r, ChanInit(d), ps) <==> d.count < 2 * r.ppb - 1
  {
    LifeCounted(r, Reset(0), hs);
    SetupBurst(r, Life(r, Reset(0), hs), ps, t1, period);
  }

  lemma BlindHappen(r: Rule, d: Detector, h: Happening)
    requires WellFormed(r) && Good(h) && Blind(r, d) && !h.Resets?
    ensures Blind(r, Happen(r, d, h))
  {
    if h.Hears? {
      BlindStays(r, d, h.p);
      assert Added(r, [], [], h.p.ts) == [];
    }
  }

  /** Only a reset ends blindness: no pulse and no other set-up does. */
  lemma {:induction false} BlindLife(r: Rule, d: Detector, hs: seq<Happening>)
    requires WellFormed(r) && Blind(r, d) && forall i :: 0 <= i < |hs| ==> Good(hs[i]) && !hs[i].Resets?
    ensures Blind(r, Life(r, d, hs))
    decreases |hs|
  {
    if hs != [] {
      BlindHappen(r, d, hs[0]);
      BlindLife(r, Happen(r, d, hs[0]), hs[1..]);
    }
  }

  /* ---- Such counters are reached ---- */

  /** The long-pulse rule of the FCC table, whose burst is one pulse. */
  const LONG: nat := 7

  function Chirp(ts: nat): Pulse {
    Pulse(ts, 75, true)
  }

  /** One chirp, with all the memory it needs. */
  function OneChirp(ts: nat): Event {
    Feed(Chirp(ts), {}, {})
  }

  function Chirped(ts: nat): Detector {
    Detector(ts, 1, [ts], [], [Chirp(ts)])
  }

  lemma LongRule()
    ensures GoodRules(FccRules()) && |FccRules()| == 9
    ensures FccRules()[LONG] == Rule(48, 105, 984, 2016, 1, 1, 1, 16, true)
  {
    FccWellFormed();
  }

  /** No other rule of the table takes so long a pulse. */
  lemma OnlyLong(ts: nat, i: nat)
    requires i < |FccRules()| && i != LONG
    ensures !Accepts(FccRules()[i], Chirp(ts))
  {
  }

  /** If one rule takes the pulse and the others do not accept it, a sweep is that one call. */
  lemma {:induction false} SweepOne(rules: seq<Rule>, dets: seq<Detector>, i: nat, ev: Event, j: nat, d: Detector)
    requires GoodRules(rules) && |dets| == |rules| && i <= |rules| && j < |rules| && ev.Feed? && ev.pulse.ts < TWO32
    requires forall k :: 0 <= k < |rules| && k != j ==> !Accepts(rules[k], ev.pulse)
    requires ev.noSeq == {} && ev.noPulse == {} && Process(rules[j], dets[j], ev.pulse, false, false) == (d, Taken)
    ensures Sweep(rules, dets, i, ev) == (if i <= j then dets[j := d] else dets, None)
    decreases |rules| - i
  {
    if i < |rules| && i != j {
      assert dets[i := dets[i]] == dets;
      SweepOne(rules, dets, i + 1, ev, j, d);
    } else if i == j {
      SweepSkips(rules, dets[j := d], j + 1, ev);
    }
  }

  lemma {:induction false} SweepSkips(rules: seq<Rule>, dets: seq<Detector>, i: nat, ev: Event)
    requires GoodRules(rules) && |dets| == |rules| && i <= |rules| && ev.Feed? && ev.pulse.ts < TWO32
    requires forall k :: i <= k < |rules| ==> !Accepts(rules[k], ev.pulse)
    ensures Sweep(rules, dets, i, ev) == (dets, None)
    decreases |rules| - i
  {
    if i < |rules| {
      assert dets[i := dets[i]] == dets;
      SweepSkips(rules, dets, i + 1, ev);
    }
  }

  lemma ChirpTaken(r: Rule, ts: nat)
    requires WellFormed(r) && Accepts(r, Chirp(ts)) && r.ppb == 1 && 16 <= ts < TWO32
    ensures Process(r, Reset(0), Chirp(ts), false, false) == (Chirped(ts), Taken)
  {
    assert Eligible(r, Reset(0), Chirp(ts));
    assert NewSeqs(r, [], [], ts) == [];
    assert [ts] + [] == [ts];
    assert Enqueue(r, [], ts) == [ts];
    assert [] + [Chirp(ts)] == [Chirp(ts)];
  }

  lemma ChirpStep(ts: nat)
    requires 16 <= ts < TWO32
    ensures GoodRules(FccRules()) && |FccRules()| == 9
    ensures Step(FccRules(), Start(FccRules()), OneChirp(ts)).0 == Dfs(true, ts, AllReset(9, 0)[LONG := Chirped(ts)])
  {
    LongRule();
    forall k | 0 <= k < 9 && k != LONG ensures !Accepts(FccRules()[k], Chirp(ts)) {
      OnlyLong(ts, k);
    }
    ChirpTaken(FccRules()[LONG], ts);
    SweepOne(FccRules(), AllReset(9, 0), 0, OneChirp(ts), LONG, Chirped(ts));
  }

  /** One chirp before set-up blinds the long-pulse detector of the FCC table to everything after it. */
  lemma {:induction false} BlindnessHappens(ts: nat, hs: seq<Happening>, ps: seq<Pulse>)
    requires 16 <= ts < TWO32 && forall i :: 0 <= i < |ps| ==> ps[i].ts < TWO32
    requires forall i :: 0 <= i < |hs| ==> Good(hs[i]) && !hs[i].Resets?
    ensures GoodRules(FccRules()) && GoodRun([OneChirp(ts)]) && |FccRules()| == 9
    ensures var r, d := FccRules()[LONG], After(FccRules(), [OneChirp(ts)]).dets[LONG];
            && QueueOk(r, d) && !QueueOk(r, ChanInit(d))
            && !Alarmed(r, Life(r, ChanInit(d), hs), ps)
  {
    ChirpStep(ts);
    LongRule();
    var run := [OneChirp(ts)];
    assert run[..|run| - 1] == [] && After(FccRules(), []) == Start(FccRules());
    QueueInvariant(FccRules(), run, LONG);
    var r := FccRules()[LONG];
    BlindLife(r, ChanInit(Chirped(ts)), hs);
    BlindForEver(r, Life(r, ChanInit(Chirped(ts)), hs), ps);
  }

  /* ---- The first duration after a start ---- */

  /** From a reset, the first two pulses of a burst are taken and queued. */
  lemma TwoTaken(r: Rule, t1: nat, period: nat, p1: Pulse, p2: Pulse)
    requires PeriodFits(r, period) && r.ppbThresh > 2 && r.tolerance <= t1
    requires p1.ts == t1 && p2.ts == t1 + period < TWO32 && Accepts(r, p1) && Accepts(r, p2)
    ensures Process(r, Process(r, Reset(0), p1, false, false).0, p2, false, false).0.pulses == [t1 + period, t1]
  {
    TrackFirst(r, 0, p1, period);
    TrackStep(r, t1, period, 1, [p1], p2);
    TrainOfTwo(t1, period);
  }

  /**
   If the third pulse comes before one duration has passed since time zero, the sequence it builds
   on that queue misses the first pulse, which fits and is not too old.
   */
  lemma EarlyUndercount(r: Rule, t1: nat, period: nat, ts: nat)
    requires PeriodFits(r, period) && ts == t1 + 2 * period < Duration(r, period) && ts < TWO32
    ensures Build(r, [t1 + period, t1], ts).count == 2
    ensures InWindow([t1], ts, period, r.tolerance, Duration(r, period)) == [t1]
  {
    Undercount(r, t1, period, ts);
    FirstFits(r, t1, period, ts);
  }

  lemma TrainOfTwo(t1: nat, period: nat)
    ensures Train(t1, period, 2) == [t1 + period, t1]
  {
    assert Train(t1, period, 1) == [t1];
  }

  lemma Undercount(r: Rule, t1: nat, period: nat, ts: nat)
    requires PeriodFits(r, period) && ts == t1 + 2 * period < Duration(r, period) && ts < TWO32
    ensures Build(r, [t1 + period, t1], ts).count == 2
  {
    var q := [t1 + period, t1];
    Narrow(ts, t1 + period);
    BuildCountExact(r, q, ts);
  }

  lemma FirstFits(r: Rule, t1: nat, period: nat, ts: nat)
    requires PeriodFits(r, period) && ts == t1 + 2 * period < Duration(r, period) && ts < TWO32
    ensures InWindow([t1], ts, period, r.tolerance, Duration(r, period)) == [t1]
  {
    Narrow(ts, t1);
    TwoPeriods(period, r.tolerance);
    var fits := Fits(ts, period, r.tolerance);
    assert fits(t1);
    assert [t1][1..] == [] && Hits([], fits, 0) == [];
    assert Hits([t1], fits, 0) == [t1] + Hits([t1][1..], fits, 0);
  }

  lemma TwoPeriods(period: nat, tolerance: nat)
    requires 0 < period
    ensures Multiple(2 * period, period, tolerance) > 0
  {
    QuotientUnique(2 * period, period, 2, 0);
  }

  /* ---- Set-up and the pools ---- */

  /** Set-up loses no element exactly when the lists were empty. */
  lemma ChanInitLoses(pool: seq<nat>, bags: seq<multiset<nat>>, made: nat, empty: seq<multiset<nat>>)
    requires Conserved(pool, bags, made)
    requires |empty| == |bags| && forall i :: 0 <= i < |empty| ==> empty[i] == multiset{}
    ensures Conserved(pool, empty, made) <==> bags == empty
  {
    EmptySum(empty);
    if Conserved(pool, empty, made) {
      assert |Sum(bags)| == 0 by {
        assert |multiset(pool) + Sum(bags)| == |multiset(pool)| + |Sum(bags)|;
      }
      AllEmpty(bags);
    }
  }

  lemma {:induction false} AllEmpty(bags: seq<multiset<nat>>)
    requires |Sum(bags)| == 0
    ensures forall i :: 0 <= i < |bags| ==> bags[i] == multiset{}
  {
    if bags != [] {
      assert |Sum(bags)| == |bags[0]| + |Sum(bags[1..])|;
      AllEmpty(bags[1..]);
      assert forall i :: 0 < i < |bags| ==> bags[i] == bags[1..][i - 1];
    }
  }

  lemma BagHolds(q: seq<PulseElem>)
    requires q != []
    ensures PulseBag(q) != multiset{}
  {
    PulseBagSplit(q, 0);
  }

  lemma OnlyEvent(p: Pulse, ev: Event, refuse: (nat, nat) -> bool)
    requires ev.Feed? && ev.pulse == p && Radar.Refused(ev.noSeq, refuse) && ev.noPulse <= {}
    requires forall j, k :: !refuse(j, k)
    ensures ev == Feed(p, {}, {})
  {
    assert ev.noSeq == {};
  }

  /** One chirp on the whole FCC table, and then set-up: its element is in no list and in no pool. */
  method SetUpLoses(empty: seq<multiset<nat>>) returns (radar: Radar)
    requires |empty| == |FccRules()| && forall i :: 0 <= i < |empty| ==> empty[i] == multiset{}
    ensures radar.Valid() && radar.rules == FccRules()
    ensures !Conserved(radar.pools.pulses, empty, radar.pools.pulsesMade)
  {
    LongRule();
    radar := new Radar(FccRules());
    var refuse := (j: nat, k: nat) => false;
    var found;
    ghost var ev;
    found, ev := radar.AddPulse(Chirp(20), refuse, {});
    OnlyEvent(Chirp(20), ev, refuse);
    ChirpStep(20);
    assert radar.ds[LONG] == Chirped(20);
    assert radar.Holds(LONG);
    BagHolds(radar.dets[LONG].pulses);
    ChanInitLoses(radar.pools.pulses, radar.ps, radar.pools.pulsesMade, empty);
  }
}
