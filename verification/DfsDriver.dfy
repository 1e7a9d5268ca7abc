/**
 The detectors as the driver keeps them: lists edited in place, elements drawn from and given
 back to two shared pools. An element is told apart by its `id`; what the elements hold is
 proved equal to DfsDetector, and no element is ever lost or in two places.
 */
module DfsDriver {
  import opened Basics
  import opened DfsDetector
  import opened DfsRuns

  datatype PulseElem = PulseElem(id: nat, ts: nat)
  datatype PseqElem = PseqElem(id: nat, ps: Pseq)

  function Stamps(q: seq<PulseElem>): (s: seq<nat>)
    ensures |s| == |q|
  {
    seq(|q|, i requires 0 <= i < |q| => q[i].ts)
  }

  function Values(q: seq<PseqElem>): (s: seq<Pseq>)
    ensures |s| == |q|
  {
    seq(|q|, i requires 0 <= i < |q| => q[i].ps)
  }

  function PulseBag(q: seq<PulseElem>): multiset<nat> {
    multiset(seq(|q|, i requires 0 <= i < |q| => q[i].id))
  }

  function PseqBag(q: seq<PseqElem>): multiset<nat> {
    multiset(seq(|q|, i requires 0 <= i < |q| => q[i].id))
  }

  lemma PulseBagJoin(a: seq<PulseElem>, b: seq<PulseElem>)
    ensures PulseBag(a + b) == PulseBag(a) + PulseBag(b)
  {
    var f := (q: seq<PulseElem>) => seq(|q|, i requires 0 <= i < |q| => q[i].id);
    assert f(a + b) == f(a) + f(b);
  }

  lemma PseqBagJoin(a: seq<PseqElem>, b: seq<PseqElem>)
    ensures PseqBag(a + b) == PseqBag(a) + PseqBag(b)
  {
    var f := (q: seq<PseqElem>) => seq(|q|, i requires 0 <= i < |q| => q[i].id);
    assert f(a + b) == f(a) + f(b);
  }

  lemma PulseBagCons(e: PulseElem, q: seq<PulseElem>)
    ensures PulseBag([e] + q) == multiset{e.id} + PulseBag(q)
  {
    PulseBagJoin([e], q);
  }

  lemma PseqBagCons(e: PseqElem, q: seq<PseqElem>)
    ensures PseqBag([e] + q) == multiset{e.id} + PseqBag(q)
  {
    PseqBagJoin([e], q);
  }

  lemma PulseBagSplit(q: seq<PulseElem>, k: nat)
    requires k < |q|
    ensures PulseBag(q) == PulseBag(q[..k] + q[k + 1..]) + multiset{q[k].id}
  {
    PulseBagJoin(q[..k], q[k + 1..]);
    PulseBagJoin(q[..k], [q[k]]);
    PulseBagJoin(q[..k] + [q[k]], q[k + 1..]);
    assert q == q[..k] + [q[k]] + q[k + 1..];
  }

  lemma PseqBagSplit(q: seq<PseqElem>, k: nat)
    requires k < |q|
    ensures PseqBag(q) == PseqBag(q[..k] + q[k + 1..]) + multiset{q[k].id}
  {
    PseqBagJoin(q[..k], q[k + 1..]);
    PseqBagJoin(q[..k], [q[k]]);
    PseqBagJoin(q[..k] + [q[k]], q[k + 1..]);
    assert q == q[..k] + [q[k]] + q[k + 1..];
  }

  /** One of each element ever allocated. */
  function Made(n: nat): multiset<nat> {
    if n == 0 then multiset{} else Made(n - 1) + multiset{n - 1}
  }

  /** Between two moments, the elements held grew by exactly those that were made. */
  ghost predicate Even(now: multiset<nat>, made: nat, before: multiset<nat>, madeBefore: nat) {
    now + Made(madeBefore) == before + Made(made)
  }

  lemma BalanceJoin(p: multiset<nat>, p': multiset<nat>, x: multiset<nat>, b: multiset<nat>, m: multiset<nat>,
      m': multiset<nat>)
    requires p' + x + m == p + m'
    ensures p' + (x + b) + m == p + b + m'
  {
    forall e
      ensures (p' + (x + b) + m)[e] == (p + b + m')[e]
    {
      assert (p' + x + m)[e] == (p + m')[e];
    }
  }

  lemma BalanceChain(h0: multiset<nat>, h1: multiset<nat>, h2: multiset<nat>, m0: multiset<nat>,
      m1: multiset<nat>, m2: multiset<nat>)
    requires h1 + m0 == h0 + m1 && h2 + m1 == h1 + m2
    ensures h2 + m0 == h0 + m2
  {
    forall e
      ensures (h2 + m0)[e] == (h0 + m2)[e]
    {
      assert (h1 + m0)[e] == (h0 + m1)[e] && (h2 + m1)[e] == (h1 + m2)[e];
    }
  }

  /** The two free pools and how many elements were ever allocated. */
  class Pools {
    var pulses: seq<nat>
    var pseqs: seq<nat>
    var pulsesMade: nat
    var pseqsMade: nat

    constructor ()
      ensures pulses == [] && pseqs == [] && pulsesMade == 0 && pseqsMade == 0
    {
      pulses, pseqs, pulsesMade, pseqsMade := [], [], 0, 0;
    }

    method PutPulse(id: nat)
      modifies this`pulses
      ensures multiset(pulses) == old(multiset(pulses)) + multiset{id}
    {
      pulses := [id] + pulses;
    }

    method PutPseq(id: nat)
      modifies this`pseqs
      ensures multiset(pseqs) == old(multiset(pseqs)) + multiset{id}
    {
      pseqs := [id] + pseqs;
    }

    /** An element from the pool, or a new one unless memory is refused. */
    method GetPulse(refuse: bool) returns (id: Option<nat>)
      modifies this`pulses, this`pulsesMade
      ensures id.None? ==> refuse && pulses == old(pulses) && pulsesMade == old(pulsesMade)
      ensures id.Some? ==>
                multiset(pulses) + multiset{id.value} + Made(old(pulsesMade))
                == multiset(old(pulses)) + Made(pulsesMade)
    {
      if pulses != [] {
        id := Some(pulses[0]);
        assert pulses == [pulses[0]] + pulses[1..];
        pulses := pulses[1..];
      } else if refuse {
        id := None;
      } else {
        id := Some(pulsesMade);
        pulsesMade := pulsesMade + 1;
      }
    }

    method GetPseq(refuse: bool) returns (id: Option<nat>)
      modifies this`pseqs, this`pseqsMade
      ensures id.None? ==> refuse && pseqs == old(pseqs) && pseqsMade == old(pseqsMade)
      ensures id.Some? ==>
                multiset(pseqs) + multiset{id.value} + Made(old(pseqsMade)) == multiset(old(pseqs)) + Made(pseqsMade)
    {
      if pseqs != [] {
        id := Some(pseqs[0]);
        assert pseqs == [pseqs[0]] + pseqs[1..];
        pseqs := pseqs[1..];
      } else if refuse {
        id := None;
      } else {
        id := Some(pseqsMade);
        pseqsMade := pseqsMade + 1;
      }
    }
  }

  /** Process, case by case. */
  ghost predicate Did(r: Rule, d: Detector, p: Pulse, noSeq: bool, noPulse: bool, o: Outcome, d': Detector)
    requires WellFormed(r) && p.ts < TWO32
  {
    if o.Ignored? then !Eligible(r, d, p) && d' == d
    else
      && Eligible(r, d, p)
      && var seqs := NewSeqs(r, d.pulses, d.seqs, p.ts);
         if o.OutOfMemory? then noSeq && Added(r, d.pulses, d.seqs, p.ts) != [] && d' == Reset(p.ts)
         else if o.Radar? then !noSeq && FirstConfident(r, seqs) < |seqs|
         else !noSeq && FirstConfident(r, seqs) == |seqs| && d' == Record(r, d, p, seqs, noPulse)
  }

  lemma DidIsProcess(r: Rule, d: Detector, p: Pulse, noSeq: bool, noPulse: bool, o: Outcome, d': Detector)
    requires WellFormed(r) && p.ts < TWO32 && Did(r, d, p, noSeq, noPulse, o, d')
    ensures o == Process(r, d, p, noSeq, noPulse).1
    ensures !o.Radar? ==> d' == Process(r, d, p, noSeq, noPulse).0
  {
  }

  /**
   One rule and its detector. The ghost fields say what the lists stand for and which elements
   they hold.
   */
  class PriDetector {
    const rule: Rule
    var lastTs: nat
    var count: nat
    var pulses: seq<PulseElem>
    var seqs: seq<PseqElem>
    ghost var d: Detector
    ghost var pulseBag: multiset<nat>
    ghost var pseqBag: multiset<nat>

    ghost predicate Ok()
      reads this
    {
      WellFormed(rule) && count == |pulses|
    }

    ghost predicate Valid()
      reads this
    {
      && Ok() && pulseBag == PulseBag(pulses) && pseqBag == PseqBag(seqs)
      && d == Detector(lastTs, count, Stamps(pulses), Values(seqs), d.log)
    }

    constructor (rule: Rule)
      requires WellFormed(rule)
      ensures Valid() && this.rule == rule && d == Reset(0) && pulseBag == multiset{} && pseqBag == multiset{}
    {
      this.rule := rule;
      lastTs, count, pulses, seqs := 0, 0, [], [];
      d, pulseBag, pseqBag := Reset(0), multiset{}, multiset{};
    }

    /** Takes the oldest pulse off the queue and gives it back to the pool. */
    method Dequeue(pools: Pools)
      requires Ok()
      modifies this`pulses, this`count, pools`pulses
      ensures Ok() && Stamps(pulses) == DropLast(old(Stamps(pulses)))
      ensures multiset(pools.pulses) + PulseBag(pulses) == old(multiset(pools.pulses) + PulseBag(pulses))
    {
      if pulses != [] {
        var last := |pulses| - 1;
        var p := pulses[last];
        PulseBagSplit(pulses, last);
        assert pulses[..last] + pulses[last + 1..] == pulses[..last];
        pulses := pulses[..last];
        count := count - 1;
        pools.PutPulse(p.id);
      }
    }

    /** Drops the pulses that are older than the window. */
    method CheckWindow(pools: Pools)
      requires Ok()
      modifies this`pulses, this`count, pools`pulses
      ensures Ok() && Stamps(pulses) == DfsDetector.CheckWindow(rule, old(Stamps(pulses)), lastTs)
      ensures multiset(pools.pulses) + PulseBag(pulses) == old(multiset(pools.pulses) + PulseBag(pulses))
    {
      if count < 2 || lastTs <= WindowSize(rule) {
        return;
      }
      var minValid := lastTs - WindowSize(rule);
      while pulses != []
        invariant Ok()
        invariant AgeOut(old(Stamps(pulses)), minValid) == AgeOut(Stamps(pulses), minValid)
        invariant multiset(pools.pulses) + PulseBag(pulses) == old(multiset(pools.pulses) + PulseBag(pulses))
        decreases |pulses|
      {
        if pulses[|pulses| - 1].ts >= minValid {
          return;
        }
        Dequeue(pools);
      }
    }

    method PushPulse(pools: Pools, ts: nat, refuse: bool) returns (ok: bool)
      requires Ok()
      modifies this`pulses, this`count, this`lastTs, pools`pulses, pools`pulsesMade
      ensures Ok()
      ensures !ok ==> refuse && pulses == old(pulses) && lastTs == old(lastTs)
      ensures ok ==> Stamps(pulses) == [ts] + old(Stamps(pulses)) && lastTs == ts
      ensures Even(multiset(pools.pulses) + PulseBag(pulses), pools.pulsesMade,
                   old(multiset(pools.pulses) + PulseBag(pulses)), old(pools.pulsesMade))
    {
      var id := pools.GetPulse(refuse);
      if id.None? {
        return false;
      }
      PulseBagCons(PulseElem(id.value, ts), pulses);
      BalanceJoin(old(multiset(pools.pulses)), multiset(pools.pulses), multiset{id.value}, PulseBag(pulses),
          Made(old(pools.pulsesMade)), Made(pools.pulsesMade));
      pulses := [PulseElem(id.value, ts)] + pulses;
      count := count + 1;
      lastTs := ts;
      return true;
    }

    /** Queues the pulse, ages the queue and bounds its length. */
    method EnqueuePulse(pools: Pools, ts: nat, refuse: bool) returns (ok: bool)
      requires Ok()
      modifies this`pulses, this`count, this`lastTs, pools`pulses, pools`pulsesMade
      ensures Ok()
      ensures !ok ==> refuse && pulses == old(pulses) && lastTs == old(lastTs)
      ensures ok ==> Stamps(pulses) == Enqueue(rule, old(Stamps(pulses)), ts) && lastTs == ts
      ensures Even(multiset(pools.pulses) + PulseBag(pulses), pools.pulsesMade,
                   old(multiset(pools.pulses) + PulseBag(pulses)), old(pools.pulsesMade))
    {
      ok := PushPulse(pools, ts, refuse);
      if ok {
        CheckWindow(pools);
        if count >= MaxCount(rule) {
          Dequeue(pools);
        }
      }
    }

    method DropSeq(pools: Pools, j: nat)
      requires j < |seqs|
      modifies this`seqs, pools`pseqs
      ensures Values(seqs) == old(Values(seqs))[..j] + old(Values(seqs))[j + 1..]
      ensures multiset(pools.pseqs) + PseqBag(seqs) == old(multiset(pools.pseqs) + PseqBag(seqs))
    {
      var id := seqs[j].id;
      PseqBagSplit(seqs, j);
      seqs := seqs[..j] + seqs[j + 1..];
      pools.PutPseq(id);
    }

    method SetSeq(j: nat, ps: Pseq)
      requires j < |seqs|
      modifies this`seqs
      ensures Values(seqs) == old(Values(seqs))[j := ps]
      ensures PseqBag(seqs) == old(PseqBag(seqs))
    {
      var seqs' := seqs[j := PseqElem(seqs[j].id, ps)];
      PseqBagSplit(seqs, j);
      PseqBagSplit(seqs', j);
      assert seqs'[..j] + seqs'[j + 1..] == seqs[..j] + seqs[j + 1..];
      seqs := seqs';
    }

    method PushSeq(pools: Pools, ps: Pseq, refuse: bool) returns (ok: bool)
      modifies this`seqs, pools`pseqs, pools`pseqsMade
      ensures !ok ==> refuse && seqs == old(seqs)
      ensures ok ==> Values(seqs) == [ps] + old(Values(seqs))
      ensures Even(multiset(pools.pseqs) + PseqBag(seqs), pools.pseqsMade,
                   old(multiset(pools.pseqs) + PseqBag(seqs)), old(pools.pseqsMade))
    {
      var id := pools.GetPseq(refuse);
      if id.None? {
        return false;
      }
      PseqBagCons(PseqElem(id.value, ps), seqs);
      BalanceJoin(old(multiset(pools.pseqs)), multiset(pools.pseqs), multiset{id.value}, PseqBag(seqs),
          Made(old(pools.pseqsMade)), Made(pools.pseqsMade));
      seqs := [PseqElem(id.value, ps)] + seqs;
      return true;
    }

    /** An expired sequence goes back to the pool; any other counts the pulse. */
    method TouchSeq(pools: Pools, j: nat, ts: nat, maxCount: nat) returns (kept: bool, maxCount': nat)
      requires j < |seqs|
      modifies this`seqs, pools`pseqs
      ensures kept <==> ts <= old(seqs)[j].ps.deadlineTs
      ensures Values(seqs) == Touched(old(Values(seqs)), j, ts, rule.tolerance)
      ensures maxCount' == Max(maxCount, BestCount([old(seqs)[j].ps], ts, rule.tolerance))
      ensures multiset(pools.pseqs) + PseqBag(seqs) == old(multiset(pools.pseqs) + PseqBag(seqs))
    {
      maxCount' := maxCount;
      var ps := seqs[j].ps;
      kept := ts <= ps.deadlineTs;
      if !kept {
        DropSeq(pools, j);
      } else {
        if Multiple(U32(ts - ps.lastTs), ps.pri, rule.tolerance) > 0 {
          ps := ps.(lastTs := ts, count := ps.count + 1);
          if maxCount < ps.count {
            maxCount' := ps.count;
          }
        } else {
          ps := ps.(falses := ps.falses + 1);
        }
        SetSeq(j, ps);
      }
    }

    /** The list after the sequence at position `j` has seen the pulse. */
    static function Touched(seqs: seq<Pseq>, j: nat, ts: nat, tolerance: nat): seq<Pseq>
      requires j < |seqs|
    {
      if ts > seqs[j].deadlineTs then seqs[..j] + seqs[j + 1..] else seqs[j := Bump(seqs[j], ts, tolerance)]
    }

    static lemma TouchedExtends(all: seq<Pseq>, seqs: seq<Pseq>, j: nat, ts: nat, tolerance: nat)
      requires j < |seqs|
      requires Extend(all, ts, tolerance) == seqs[..j] + Extend(seqs[j..], ts, tolerance)
      ensures var t := Touched(seqs, j, ts, tolerance);
              var n := if ts > seqs[j].deadlineTs then j else j + 1;
              && n <= |t| && t[n..] == seqs[j + 1..]
              && Extend(all, ts, tolerance) == t[..n] + Extend(t[n..], ts, tolerance)
    {
      assert seqs[j..][1..] == seqs[j + 1..] && seqs[j..][0] == seqs[j];
    }

    static lemma BestSplit(seqs: seq<Pseq>, j: nat, ts: nat, tolerance: nat)
      requires j < |seqs|
      ensures BestCount(seqs[j..], ts, tolerance)
           == Max(BestCount([seqs[j]], ts, tolerance), BestCount(seqs[j + 1..], ts, tolerance))
    {
      assert seqs[j..][1..] == seqs[j + 1..] && seqs[j..][0] == seqs[j];
      assert [seqs[j]][1..] == [];
    }

    /** The loop over the sequences. */
    method TouchAll(pools: Pools, ts: nat) returns (maxCount: nat)
      modifies this`seqs, pools`pseqs
      ensures Values(seqs) == Extend(old(Values(seqs)), ts, rule.tolerance)
      ensures maxCount == BestCount(old(Values(seqs)), ts, rule.tolerance)
      ensures multiset(pools.pseqs) + PseqBag(seqs) == old(multiset(pools.pseqs) + PseqBag(seqs))
    {
      maxCount := 0;
      ghost var all := Values(seqs);
      var j := 0;
      while j < |seqs|
        invariant j <= |seqs|
        invariant Extend(all, ts, rule.tolerance) == Values(seqs)[..j] + Extend(Values(seqs)[j..], ts, rule.tolerance)
        invariant BestCount(all, ts, rule.tolerance) == Max(maxCount, BestCount(Values(seqs)[j..], ts, rule.tolerance))
        invariant multiset(pools.pseqs) + PseqBag(seqs) == old(multiset(pools.pseqs) + PseqBag(seqs))
        decreases |seqs| - j
      {
        TouchedExtends(all, Values(seqs), j, ts, rule.tolerance);
        BestSplit(Values(seqs), j, ts, rule.tolerance);
        var kept;
        kept, maxCount := TouchSeq(pools, j, ts, maxCount);
        if kept {
          j := j + 1;
        }
      }
    }

    /** All live sequences see the pulse, and each one counts it as a match exactly if it fits. */
    method AddToExisting(pools: Pools, ts: nat) returns (maxCount: nat)
      modifies this`seqs, pools`pseqs
      ensures Current(old(Values(seqs)), ts) && ts < TWO32 ==>
                && Followed(Live(old(Values(seqs)), ts), Values(seqs), ts, rule.tolerance)
                && Largest(Live(old(Values(seqs)), ts), ts, rule.tolerance, maxCount)
      ensures Values(seqs) == Extend(old(Values(seqs)), ts, rule.tolerance)
      ensures maxCount == BestCount(old(Values(seqs)), ts, rule.tolerance)
      ensures multiset(pools.pseqs) + PseqBag(seqs) == old(multiset(pools.pseqs) + PseqBag(seqs))
    {
      if Current(Values(seqs), ts) && ts < TWO32 {
        ExtendExact(Values(seqs), ts, rule.tolerance);
      }
      maxCount := TouchAll(pools, ts);
    }

    /** The inner scan: counts and stops at the window border. */
    method ScanBack(k: nat, ts: nat, pri: nat, minValid: nat) returns (s: Scan)
      requires k < |pulses|
      ensures s == ScanOlder(Stamps(pulses)[k + 1..], Fits(ts, pri, rule.tolerance), minValid,
          Scan(2, pulses[k].ts, 0, 0))
    {
      ghost var fits, stamps := Fits(ts, pri, rule.tolerance), Stamps(pulses);
      s := Scan(2, pulses[k].ts, 0, 0);
      var n := k + 1;
      while n < |pulses|
        invariant k < n <= |pulses|
        invariant ScanOlder(stamps[k + 1..], fits, minValid, Scan(2, pulses[k].ts, 0, 0))
            == ScanOlder(stamps[n..], fits, minValid, s)
      {
        assert stamps[n..][1..] == stamps[n + 1..] && stamps[n..][0] == pulses[n].ts;
        if pulses[n].ts < minValid {
          return;
        }
        if Multiple(U32(ts - pulses[n].ts), pri, rule.tolerance) > 0 {
          s := Scan(s.count + 1, pulses[n].ts, s.falses + s.pending, 0);
        } else {
          s := s.(pending := s.pending + 1);
        }
        n := n + 1;
      }
    }

    /** The sequence seeded by the pulse at position `k`. */
    method BuildSequence(k: nat, ts: nat) returns (ps: Pseq)
      requires Ok() && k < |pulses| && ts < TWO32
      ensures ps == Build(rule, Stamps(pulses)[k..], ts)
    {
      assert Stamps(pulses)[k..][0] == pulses[k].ts && Stamps(pulses)[k..][1..] == Stamps(pulses)[k + 1..];
      var pri := PriToUse(rule, U32(ts - pulses[k].ts));
      ps := BuildAt(k, ts, pri);
    }

    method BuildAt(k: nat, ts: nat, pri: nat) returns (ps: Pseq)
      requires Ok() && k < |pulses| && ts < TWO32 && pri < TWO32
      ensures ps == BuildWith(rule, pulses[k].ts, Stamps(pulses)[k + 1..], ts, pri)
    {
      DurationFits(rule, pri);
      var dur := Duration(rule, pri);
      var s := ScanBack(k, ts, pri, MinValid(ts, dur));
      ps := Sequence(pri, dur, s, ts);
    }

    /** A new sequence joins in front if it counts more pulses than `minCount`. */
    method TrySeed(pools: Pools, k: nat, ts: nat, minCount: nat, refuse: bool) returns (ok: bool)
      requires Ok() && k < |pulses| && ts < TWO32
      modifies this`seqs, pools`pseqs, pools`pseqsMade
      ensures !ok ==> refuse && Build(rule, Stamps(pulses)[k..], ts).count > minCount
      ensures ok ==> Values(seqs) == Seeded(rule, Stamps(pulses)[k..], ts, minCount) + old(Values(seqs))
      ensures Even(multiset(pools.pseqs) + PseqBag(seqs), pools.pseqsMade,
                   old(multiset(pools.pseqs) + PseqBag(seqs)), old(pools.pseqsMade))
    {
      var ps := BuildSequence(k, ts);
      ok := true;
      if ps.count > minCount {
        ok := PushSeq(pools, ps, refuse);
      }
    }

    static lemma CreateStep(r: Rule, stamps: seq<nat>, k: nat, ts: nat, minCount: nat)
      requires WellFormed(r) && ts < TWO32 && k < |stamps|
      ensures var delta := U32(ts - stamps[k]);
              var rest := Create(r, stamps[k + 1..], ts, minCount);
              Create(r, stamps[k..], ts, minCount)
              == if delta > r.priMax then [] else if delta < r.priMin then rest
                 else rest + Seeded(r, stamps[k..], ts, minCount)
    {
      assert stamps[k..][1..] == stamps[k + 1..] && stamps[k..][0] == stamps[k];
    }

    /** One round of the outer scan: too close, too far away, or a seed. */
    method SeedAt(pools: Pools, k: nat, ts: nat, minCount: nat, refuse: bool)
        returns (stop: bool, ok: bool, ghost added: seq<Pseq>)
      requires Ok() && k < |pulses| && ts < TWO32
      modifies this`seqs, pools`pseqs, pools`pseqsMade
      ensures !ok ==> refuse && Create(rule, Stamps(pulses)[k..], ts, minCount) != []
      ensures stop ==> ok && added == [] && Create(rule, Stamps(pulses)[k..], ts, minCount) == []
      ensures ok ==> Values(seqs) == added + old(Values(seqs))
      ensures ok && !stop ==>
                Create(rule, Stamps(pulses)[k..], ts, minCount)
                == Create(rule, Stamps(pulses)[k + 1..], ts, minCount) + added
      ensures Even(multiset(pools.pseqs) + PseqBag(seqs), pools.pseqsMade,
                   old(multiset(pools.pseqs) + PseqBag(seqs)), old(pools.pseqsMade))
    {
      CreateStep(rule, Stamps(pulses), k, ts, minCount);
      var delta := U32(ts - pulses[k].ts);
      stop, ok, added := delta > rule.priMax, true, [];
      if rule.priMin <= delta <= rule.priMax {
        added := Seeded(rule, Stamps(pulses)[k..], ts, minCount);
        ok := TrySeed(pools, k, ts, minCount, refuse);
      }
    }

    /** The outer scan: every new sequence goes in front; `refuse(k)` says that memory for the k-th seed is refused. */
    method CreateSequences(pools: Pools, ts: nat, minCount: nat, refuse: nat -> bool) returns (ok: bool)
      requires Ok() && ts < TWO32
      modifies this`seqs, pools`pseqs, pools`pseqsMade
      ensures ok ==> Values(seqs) == Create(rule, Stamps(pulses), ts, minCount) + old(Values(seqs))
      ensures !ok ==> (exists k: nat :: refuse(k)) && Create(rule, Stamps(pulses), ts, minCount) != []
      ensures Even(multiset(pools.pseqs) + PseqBag(seqs), pools.pseqsMade,
                   old(multiset(pools.pseqs) + PseqBag(seqs)), old(pools.pseqsMade))
    {
      ghost var stamps, before := Stamps(pulses), Values(seqs);
      ghost var h0, m0 := multiset(pools.pseqs) + PseqBag(seqs), Made(pools.pseqsMade);
      ghost var goal := Create(rule, stamps, ts, minCount) + before;
      assert stamps[0..] == stamps;
      var k := 0;
      while k < |pulses|
        invariant k <= |pulses| && |before| <= |Values(seqs)|
        invariant Create(rule, stamps[k..], ts, minCount) + Values(seqs) == goal
        invariant multiset(pools.pseqs) + PseqBag(seqs) + m0 == h0 + Made(pools.pseqsMade)
      {
        ghost var h1, m1, v1 := multiset(pools.pseqs) + PseqBag(seqs), Made(pools.pseqsMade), Values(seqs);
        var stop, got;
        ghost var added;
        stop, got, added := SeedAt(pools, k, ts, minCount, refuse(k));
        BalanceChain(h0, h1, multiset(pools.pseqs) + PseqBag(seqs), m0, m1, Made(pools.pseqsMade));
        if !got {
          return false;
        }
        if stop {
          return true;
        }
        Reassociate(Create(rule, stamps[k + 1..], ts, minCount), added, v1);
        k := k + 1;
      }
      assert stamps[k..] == [];
      return true;
    }

    static lemma Reassociate(a: seq<Pseq>, b: seq<Pseq>, c: seq<Pseq>)
      ensures (a + b) + c == a + (b + c)
    {
    }

    method EmptySeqs(pools: Pools)
      modifies this`seqs, pools`pseqs
      ensures seqs == []
      ensures multiset(pools.pseqs) + PseqBag(seqs) == old(multiset(pools.pseqs) + PseqBag(seqs))
    {
      while seqs != []
        invariant multiset(pools.pseqs) + PseqBag(seqs) == old(multiset(pools.pseqs) + PseqBag(seqs))
        decreases |seqs|
      {
        DropSeq(pools, 0);
      }
    }

    method EmptyPulses(pools: Pools)
      requires Ok()
      modifies this`count, this`pulses, pools`pulses
      ensures Ok() && pulses == []
      ensures multiset(pools.pulses) + PulseBag(pulses) == old(multiset(pools.pulses) + PulseBag(pulses))
    {
      while pulses != []
        invariant multiset(pools.pulses) + PulseBag(pulses) == old(multiset(pools.pulses) + PulseBag(pulses))
        invariant Ok()
        decreases |pulses|
      {
        PulseBagSplit(pulses, 0);
        assert pulses[..0] + pulses[1..] == pulses[1..];
        pools.PutPulse(pulses[0].id);
        pulses := pulses[1..];
        count := count - 1;
      }
      count := 0;
    }

    /** Empties both lists into the pools. */
    method EmptyLists(pools: Pools, ts: nat)
      requires Ok()
      modifies this`lastTs, this`count, this`pulses, this`seqs, pools`pulses, pools`pseqs
      ensures Ok() && pulses == [] && seqs == [] && lastTs == ts
      ensures multiset(pools.pulses) + PulseBag(pulses) == old(multiset(pools.pulses) + PulseBag(pulses))
      ensures multiset(pools.pseqs) + PseqBag(seqs) == old(multiset(pools.pseqs) + PseqBag(seqs))
    {
      EmptySeqs(pools);
      EmptyPulses(pools);
      lastTs := ts;
    }

    /** The first sequence with enough pulses and more matches than false ones. */
    method CheckDetection() returns (n: nat)
      ensures n == FirstConfident(rule, Values(seqs))
    {
      n := 0;
      while n < |seqs|
        invariant n <= |seqs|
        invariant FirstConfident(rule, Values(seqs)) == n + FirstConfident(rule, Values(seqs)[n..])
      {
        assert Values(seqs)[n..][1..] == Values(seqs)[n + 1..] && Values(seqs)[n..][0] == seqs[n].ps;
        if seqs[n].ps.count >= rule.ppbThresh && seqs[n].ps.count * rule.nrPri >= seqs[n].ps.falses {
          return;
        }
        n := n + 1;
      }
    }

    /** Old sequences first, then new ones in front of them. */
    method RenewSequences(pools: Pools, ts: nat, refuse: nat -> bool) returns (ok: bool)
      requires Ok() && ts < TWO32
      modifies this`seqs, pools`pseqs, pools`pseqsMade
      ensures ok ==> Values(seqs) == NewSeqs(rule, Stamps(pulses), old(Values(seqs)), ts)
      ensures !ok ==> (exists k: nat :: refuse(k)) && Added(rule, Stamps(pulses), old(Values(seqs)), ts) != []
      ensures Even(multiset(pools.pseqs) + PseqBag(seqs), pools.pseqsMade,
                   old(multiset(pools.pseqs) + PseqBag(seqs)), old(pools.pseqsMade))
    {
      var best := AddToExisting(pools, ts);
      ok := CreateSequences(pools, ts, best, refuse);
    }

    ghost method Retie(log: seq<Pulse>)
      requires Ok()
      modifies this`d, this`pulseBag, this`pseqBag
      ensures Valid() && d == Detector(lastTs, count, Stamps(pulses), Values(seqs), log)
    {
      pulseBag, pseqBag := PulseBag(pulses), PseqBag(seqs);
      d := Detector(lastTs, count, Stamps(pulses), Values(seqs), log);
    }

    method ResetDetector(pools: Pools, ts: nat)
      requires Valid()
      modifies this, pools
      ensures Valid() && d == Reset(ts)
      ensures Even(multiset(pools.pulses) + pulseBag, pools.pulsesMade,
                   old(multiset(pools.pulses) + pulseBag), old(pools.pulsesMade))
      ensures Even(multiset(pools.pseqs) + pseqBag, pools.pseqsMade,
                   old(multiset(pools.pseqs) + pseqBag), old(pools.pseqsMade))
    {
      EmptyLists(pools, ts);
      Retie([]);
    }

    /** The filters of the rule and the distance to the last pulse. */
    method Filter(p: Pulse) returns (pass: bool)
      ensures pass <==> Accepts(rule, p) && (p.ts - lastTs) % TWO64 >= rule.tolerance
    {
      if rule.widthMin > p.width || rule.widthMax < p.width {
        return false;
      }
      if rule.chirp && rule.chirp != p.chirp {
        return false;
      }
      return (p.ts - lastTs) % TWO64 >= rule.tolerance;
    }

    /** Brings the sequences up to date and looks for radar; without memory the detector starts afresh. */
    method JudgePulse(pools: Pools, ts: nat, refuse: nat -> bool) returns (o: Outcome)
      requires Ok() && ts < TWO32
      modifies this`lastTs, this`count, this`pulses, this`seqs, pools`pulses, pools`pseqs, pools`pseqsMade
      ensures Ok() && !o.Ignored?
      ensures o.OutOfMemory? ==> pulses == [] && seqs == [] && lastTs == ts
      ensures o.OutOfMemory? ==> Added(rule, old(Stamps(pulses)), old(Values(seqs)), ts) != []
      ensures !o.OutOfMemory? ==> Values(seqs) == NewSeqs(rule, old(Stamps(pulses)), old(Values(seqs)), ts)
      ensures !o.OutOfMemory? ==> pulses == old(pulses) && lastTs == old(lastTs)
      ensures o.Radar? ==> FirstConfident(rule, Values(seqs)) < |seqs|
      ensures o.Taken? ==> FirstConfident(rule, Values(seqs)) == |seqs|
      ensures o.OutOfMemory? ==> exists k: nat :: refuse(k)
      ensures multiset(pools.pulses) + PulseBag(pulses) == old(multiset(pools.pulses) + PulseBag(pulses))
      ensures Even(multiset(pools.pseqs) + PseqBag(seqs), pools.pseqsMade,
                   old(multiset(pools.pseqs) + PseqBag(seqs)), old(pools.pseqsMade))
    {
      var renewed := RenewSequences(pools, ts, refuse);
      if !renewed {
        ghost var held := multiset(pools.pseqs) + PseqBag(seqs);
        EmptyLists(pools, ts);
        assert multiset(pools.pseqs) + PseqBag(seqs) == held;
        return OutOfMemory;
      }
      var n := CheckDetection();
      o := if n < |seqs| then Radar else Taken;
    }

    /** A pulse that has passed the filters. */
    method TakePulse(pools: Pools, ts: nat, refuseSeq: nat -> bool, refusePulse: bool)
        returns (o: Outcome, ghost noPulse: bool)
      requires Ok() && ts < TWO32
      modifies this`lastTs, this`count, this`pulses, this`seqs, pools
      ensures Ok() && !o.Ignored?
      ensures o.OutOfMemory? ==> pulses == [] && seqs == [] && lastTs == ts
      ensures o.OutOfMemory? ==> Added(rule, old(Stamps(pulses)), old(Values(seqs)), ts) != []
      ensures !o.OutOfMemory? ==> Values(seqs) == NewSeqs(rule, old(Stamps(pulses)), old(Values(seqs)), ts)
      ensures o.Radar? ==> FirstConfident(rule, Values(seqs)) < |seqs|
      ensures o.Taken? ==> FirstConfident(rule, Values(seqs)) == |seqs|
      ensures o.Taken? ==>
                Stamps(pulses) == if noPulse then old(Stamps(pulses)) else Enqueue(rule, old(Stamps(pulses)), ts)
      ensures o.Taken? ==> lastTs == if noPulse then old(lastTs) else ts
      ensures (o.OutOfMemory? ==> exists k: nat :: refuseSeq(k)) && (noPulse ==> refusePulse)
      ensures Even(multiset(pools.pulses) + PulseBag(pulses), pools.pulsesMade,
                   old(multiset(pools.pulses) + PulseBag(pulses)), old(pools.pulsesMade))
      ensures Even(multiset(pools.pseqs) + PseqBag(seqs), pools.pseqsMade,
                   old(multiset(pools.pseqs) + PseqBag(seqs)), old(pools.pseqsMade))
    {
      noPulse := false;
      ghost var held, made := multiset(pools.pulses) + PulseBag(pulses), pools.pulsesMade;
      o := JudgePulse(pools, ts, refuseSeq);
      assert Even(multiset(pools.pulses) + PulseBag(pulses), pools.pulsesMade, held, made);
      if o.Taken? {
        var queued := EnqueuePulse(pools, ts, refusePulse);
        noPulse := !queued;
      }
    }

    /** One pulse on this detector. */
    method ProcessPulse(pools: Pools, p: Pulse, refuseSeq: nat -> bool, refusePulse: bool)
      returns (o: Outcome, ghost noSeq: bool, ghost noPulse: bool)
      requires Valid() && p.ts < TWO32
      modifies this, pools
      ensures Valid() && Did(rule, old(d), p, noSeq, noPulse, o, d)
      ensures (noSeq ==> exists k: nat :: refuseSeq(k)) && (noPulse ==> refusePulse)
      ensures Even(multiset(pools.pulses) + pulseBag, pools.pulsesMade,
                   old(multiset(pools.pulses) + pulseBag), old(pools.pulsesMade))
      ensures Even(multiset(pools.pseqs) + pseqBag, pools.pseqsMade,
                   old(multiset(pools.pseqs) + pseqBag), old(pools.pseqsMade))
    {
      var pass := Filter(p);
      if pass {
        o, noPulse := TakePulse(pools, p.ts, refuseSeq, refusePulse);
        noSeq := o.OutOfMemory?;
        Retie(if o.Taken? then d.log + [p] else []);
      } else {
        o, noSeq, noPulse := Ignored, false, false;
      }
    }
  }

  /* ---- All detectors over one pair of pools ---- */

  function Sum(bags: seq<multiset<nat>>): multiset<nat> {
    if bags == [] then multiset{} else bags[0] + Sum(bags[1..])
  }

  /** Every element ever allocated is in the pool or in one detector's list, exactly once. */
  ghost predicate Conserved(pool: seq<nat>, bags: seq<multiset<nat>>, made: nat) {
    multiset(pool) + Sum(bags) == Made(made)
  }

  lemma {:induction false} SumUpdate(bags: seq<multiset<nat>>, i: nat, b: multiset<nat>, e: nat)
    requires i < |bags|
    ensures Sum(bags[i := b])[e] + bags[i][e] == Sum(bags)[e] + b[e]
  {
    if i > 0 {
      SumUpdate(bags[1..], i - 1, b, e);
      assert bags[i := b][1..] == bags[1..][i - 1 := b];
    } else {
      assert bags[i := b][1..] == bags[1..];
    }
  }

  /** Elements that move between the pool and one list, and new ones, keep the account balanced. */
  lemma Move(pool: seq<nat>, bags: seq<multiset<nat>>, made: nat, pool': seq<nat>, i: nat, b: multiset<nat>, made': nat)
    requires i < |bags| && Conserved(pool, bags, made)
    requires multiset(pool') + b + Made(made) == multiset(pool) + bags[i] + Made(made')
    ensures Conserved(pool', bags[i := b], made')
  {
    forall e
      ensures (multiset(pool') + Sum(bags[i := b]))[e] == Made(made')[e]
    {
      SumUpdate(bags, i, b, e);
      assert (multiset(pool) + Sum(bags))[e] == Made(made)[e];
      assert (multiset(pool') + b + Made(made))[e] == (multiset(pool) + bags[i] + Made(made'))[e];
    }
  }

  lemma {:induction false} EmptySum(bags: seq<multiset<nat>>)
    requires forall i :: 0 <= i < |bags| ==> bags[i] == multiset{}
    ensures Sum(bags) == multiset{}
  {
    if bags != [] {
      EmptySum(bags[1..]);
    }
  }

  class Radar {
    const pools: Pools
    const dets: seq<PriDetector>
    const rules: seq<Rule>
    var active: bool
    var lastPulseTs: nat
    ghost var ds: seq<Detector>             // what the detectors stand for
    ghost var ps: seq<multiset<nat>>        // the pulse elements that they hold
    ghost var qs: seq<multiset<nat>>        // the sequence elements that they hold

    ghost predicate Tied()
      reads this`ds, this`ps, this`qs, dets
    {
      && GoodRules(rules) && |dets| == |rules| == |ds| == |ps| == |qs|
      && (forall i, j :: 0 <= i < j < |dets| ==> dets[i] != dets[j])
      && (forall i :: 0 <= i < |dets| ==> Holds(i))
    }

    ghost predicate Holds(i: nat)
      reads this`ds, this`ps, this`qs, dets
      requires i < |dets| == |rules| == |ds| == |ps| == |qs|
    {
      && dets[i].Valid() && dets[i].rule == rules[i]
      && dets[i].d == ds[i] && dets[i].pulseBag == ps[i] && dets[i].pseqBag == qs[i]
    }

    ghost predicate Valid()
      reads this`ds, this`ps, this`qs, dets, pools
    {
      && Tied()
      && Conserved(pools.pulses, ps, pools.pulsesMade)
      && Conserved(pools.pseqs, qs, pools.pseqsMade)
    }

    ghost function State(): Dfs
      reads this
    {
      Dfs(active, lastPulseTs, ds)
    }

    /** A detector of the rule that has seen nothing. */
    static ghost predicate Idle(det: PriDetector, rule: Rule)
      reads det
    {
      && det.Valid() && det.rule == rule && det.d == Reset(0)
      && det.pulseBag == multiset{} && det.pseqBag == multiset{}
    }

    static method MakeDetectors(rules: seq<Rule>) returns (made: seq<PriDetector>)
      requires GoodRules(rules)
      ensures |made| == |rules| && fresh(made)
      ensures forall i, j :: 0 <= i < j < |made| ==> made[i] != made[j]
      ensures forall i :: 0 <= i < |made| ==> Idle(made[i], rules[i])
    {
      made := [];
      while |made| < |rules|
        invariant |made| <= |rules| && fresh(made)
        invariant forall i, j :: 0 <= i < j < |made| ==> made[i] != made[j]
        invariant forall i :: 0 <= i < |made| ==> Idle(made[i], rules[i])
      {
        var det := new PriDetector(rules[|made|]);
        assert Idle(det, rules[|made|]);
        made := made + [det];
      }
    }

    constructor (rules: seq<Rule>)
      requires GoodRules(rules)
      ensures Valid() && this.rules == rules && State() == Start(rules) && fresh(pools) && fresh(dets)
    {
      var made := MakeDetectors(rules);
      this.rules := rules;
      dets := made;
      pools := new Pools();
      active, lastPulseTs := true, 0;
      ds := AllReset(|rules|, 0);
      ps, qs := seq(|rules|, _ => multiset{}), seq(|rules|, _ => multiset{});
      new;
      EmptySum(ps);
      EmptySum(qs);
    }

    /** Writes down what detector `j` stands for and holds now. */
    ghost method Note(j: nat)
      requires GoodRules(rules) && j < |dets| == |rules| == |ds| == |ps| == |qs|
      requires forall i, k :: 0 <= i < k < |dets| ==> dets[i] != dets[k]
      requires forall i :: 0 <= i < |dets| && i != j ==> Holds(i)
      requires dets[j].Valid() && dets[j].rule == rules[j]
      modifies this`ds, this`ps, this`qs
      ensures Tied() && ds == old(ds)[j := dets[j].d]
      ensures ps == old(ps)[j := dets[j].pulseBag] && qs == old(qs)[j := dets[j].pseqBag]
    {
      ds, ps, qs := ds[j := dets[j].d], ps[j := dets[j].pulseBag], qs[j := dets[j].pseqBag];
      assert forall i :: 0 <= i < |dets| && i != j ==> old(Holds(i)) && Holds(i);
    }

    /** After a step of detector `j` the books are closed again. */
    ghost method Close(j: nat, pp: seq<nat>, qp: seq<nat>, pm: nat, qm: nat)
      requires GoodRules(rules) && j < |dets| == |rules| == |ds| == |ps| == |qs|
      requires forall i, k :: 0 <= i < k < |dets| ==> dets[i] != dets[k]
      requires forall i :: 0 <= i < |dets| && i != j ==> Holds(i)
      requires dets[j].Valid() && dets[j].rule == rules[j]
      requires Conserved(pp, ps, pm) && Conserved(qp, qs, qm)
      requires multiset(pools.pulses) + dets[j].pulseBag + Made(pm) == multiset(pp) + ps[j] + Made(pools.pulsesMade)
      requires multiset(pools.pseqs) + dets[j].pseqBag + Made(qm) == multiset(qp) + qs[j] + Made(pools.pseqsMade)
      modifies this`ds, this`ps, this`qs
      ensures Valid() && ds == old(ds)[j := dets[j].d]
    {
      Move(pp, ps, pm, pools.pulses, j, dets[j].pulseBag, pools.pulsesMade);
      Move(qp, qs, qm, pools.pseqs, j, dets[j].pseqBag, pools.pseqsMade);
      Note(j);
    }

    /** One pulse on the detector of rule `j`; the others stay as they are. */
    method ProcessAt(j: nat, p: Pulse, refuseSeq: nat -> bool, refusePulse: bool)
      returns (o: Outcome, ghost noSeq: bool, ghost noPulse: bool)
      requires Valid() && j < |dets| && p.ts < TWO32
      modifies this`ds, this`ps, this`qs, dets[j], pools
      ensures Valid() && |ds| == |old(ds)|
      ensures (noSeq ==> exists k: nat :: refuseSeq(k)) && (noPulse ==> refusePulse)
      ensures o == Process(rules[j], old(ds)[j], p, noSeq, noPulse).1
      ensures !o.Radar? ==> ds == old(ds)[j := Process(rules[j], old(ds)[j], p, noSeq, noPulse).0]
    {
      ghost var pp, qp, pm, qm := pools.pulses, pools.pseqs, pools.pulsesMade, pools.pseqsMade;
      assert Holds(j);
      o, noSeq, noPulse := dets[j].ProcessPulse(pools, p, refuseSeq, refusePulse);
      assert forall i :: 0 <= i < |dets| && i != j ==> old(Holds(i)) && Holds(i);
      Close(j, pp, qp, pm, qm);
      DidIsProcess(rules[j], old(ds)[j], p, noSeq, noPulse, o, ds[j]);
    }

    method ResetAt(j: nat, ts: nat)
      requires Valid() && j < |dets|
      modifies this`ds, this`ps, this`qs, dets[j], pools
      ensures Valid() && ds == old(ds)[j := Reset(ts)]
    {
      ghost var pp, qp, pm, qm := pools.pulses, pools.pseqs, pools.pulsesMade, pools.pseqsMade;
      assert Holds(j);
      dets[j].ResetDetector(pools, ts);
      assert forall i :: 0 <= i < |dets| && i != j ==> old(Holds(i)) && Holds(i);
      Close(j, pp, qp, pm, qm);
    }

    method ResetAll(ts: nat)
      requires Valid()
      modifies this`ds, this`ps, this`qs, dets, pools
      ensures Valid() && ds == AllReset(|rules|, ts)
    {
      var i := 0;
      while i < |dets|
        invariant i <= |dets| && Valid()
        invariant forall k :: 0 <= k < i ==> ds[k] == Reset(ts)
      {
        ResetAt(i, ts);
        i := i + 1;
      }
    }

    /** Events that agree with what has been refused by the first `j` rules. */
    static ghost predicate Agrees(ev: Event, p: Pulse, j: nat, noSeq: set<nat>, noPulse: set<nat>) {
      && ev.Feed? && ev.pulse == p
      && (forall k: nat :: k < j ==> (k in ev.noSeq <==> k in noSeq))
      && (forall k: nat :: k < j ==> (k in ev.noPulse <==> k in noPulse))
    }

    static function With(s: set<nat>, j: nat, yes: bool): set<nat> {
      if yes then s + {j} else s - {j}
    }

    /** Every event that agrees so far is at rule `j` with the detectors `ds`. */
    static ghost predicate Reached(rules: seq<Rule>, start: seq<Detector>, p: Pulse, j: nat, noSeq: set<nat>,
        noPulse: set<nat>, ds: seq<Detector>)
      requires GoodRules(rules) && |start| == |rules| == |ds| && j <= |rules| && p.ts < TWO32
    {
      forall e :: Agrees(e, p, j, noSeq, noPulse) ==> Sweep(rules, start, 0, e) == Sweep(rules, ds, j, e)
    }

    /** Every event that agrees so far is radar for rule `i`. */
    static ghost predicate Caught(rules: seq<Rule>, start: seq<Detector>, p: Pulse, j: nat, noSeq: set<nat>,
        noPulse: set<nat>, i: nat)
      requires GoodRules(rules) && |start| == |rules| && p.ts < TWO32
    {
      forall e :: Agrees(e, p, j, noSeq, noPulse) ==> Sweep(rules, start, 0, e) == (AllReset(|rules|, 0), Some(i))
    }

    static lemma ReachNext(rules: seq<Rule>, start: seq<Detector>, p: Pulse, j: nat, noSeq: set<nat>,
        noPulse: set<nat>, ds: seq<Detector>, s: bool, q: bool)
      requires GoodRules(rules) && |start| == |rules| == |ds| && j < |rules| && p.ts < TWO32
      requires Reached(rules, start, p, j, noSeq, noPulse, ds)
      ensures var (d, o) := Process(rules[j], ds[j], p, s, q);
              && (!o.Radar? ==> Reached(rules, start, p, j + 1, With(noSeq, j, s), With(noPulse, j, q), ds[j := d]))
              && (o.Radar? ==> Caught(rules, start, p, j + 1, With(noSeq, j, s), With(noPulse, j, q), j))
    {
      var (d, o) := Process(rules[j], ds[j], p, s, q);
      forall e | Agrees(e, p, j + 1, With(noSeq, j, s), With(noPulse, j, q))
        ensures Sweep(rules, start, 0, e) == if o.Radar? then (AllReset(|rules|, 0), Some(j))
            else Sweep(rules, ds[j := d], j + 1, e)
      {
        assert Agrees(e, p, j, noSeq, noPulse);
      }
    }

    /** Only rules for which some allocation was refused are in `noSeq`. */
    static ghost predicate Refused(noSeq: set<nat>, refuseSeq: (nat, nat) -> bool) {
      forall j :: j in noSeq ==> exists k: nat :: refuseSeq(j, k)
    }

    /** Rule `j` sees the pulse. */
    method SweepOne(p: Pulse, j: nat, refuseSeq: nat -> bool, refusePulse: bool,
                    ghost start: seq<Detector>, ghost noSeq: set<nat>, ghost noPulse: set<nat>)
      returns (caught: bool, ghost noSeq': set<nat>, ghost noPulse': set<nat>)
      requires Valid() && p.ts < TWO32 && j < |dets| && |start| == |rules|
      requires Reached(rules, start, p, j, noSeq, noPulse, ds)
      modifies this`ds, this`ps, this`qs, dets[j], pools
      ensures Valid()
      ensures !caught ==> Reached(rules, start, p, j + 1, noSeq', noPulse', ds)
      ensures caught ==> Caught(rules, start, p, j + 1, noSeq', noPulse', j)
      ensures noSeq' <= noSeq + {j} && (j in noSeq' ==> j in noSeq || exists k: nat :: refuseSeq(k))
      ensures noPulse' <= noPulse + {j} && (j in noPulse' ==> j in noPulse || refusePulse)
    {
      ghost var before := ds;
      var o;
      ghost var s, q;
      o, s, q := ProcessAt(j, p, refuseSeq, refusePulse);
      ReachNext(rules, start, p, j, noSeq, noPulse, before, s, q);
      noSeq', noPulse' := With(noSeq, j, s), With(noPulse, j, q);
      caught := o.Radar?;
    }

    /** Every rule in turn sees the pulse until one of them reports radar. */
    method SweepRules(p: Pulse, refuseSeq: (nat, nat) -> bool, refusePulse: set<nat>)
      returns (radar: Option<nat>, ghost ev: Event)
      requires Valid() && p.ts < TWO32
      modifies this`ds, this`ps, this`qs, dets, pools
      ensures Valid() && ev.Feed? && ev.pulse == p
      ensures Refused(ev.noSeq, refuseSeq) && ev.noPulse <= refusePulse
      ensures radar == Sweep(rules, old(ds), 0, ev).1
      ensures Sweep(rules, old(ds), 0, ev).0 == if radar.Some? then AllReset(|rules|, 0) else ds
    {
      ghost var noSeq: set<nat>, noPulse: set<nat> := {}, {};
      radar := None;
      var j := 0;
      while j < |dets| && radar.None?
        invariant j <= |dets| && Valid()
        invariant radar.None? ==> Reached(rules, old(ds), p, j, noSeq, noPulse, ds)
        invariant radar.Some? ==> Caught(rules, old(ds), p, j, noSeq, noPulse, radar.value)
        invariant Refused(noSeq, refuseSeq) && noPulse <= refusePulse
      {
        var caught;
        caught, noSeq, noPulse :=
          SweepOne(p, j, (k: nat) => refuseSeq(j, k), j in refusePulse, old(ds), noSeq, noPulse);
        if caught {
          radar := Some(j);
        }
        j := j + 1;
      }
      ev := Feed(p, noSeq, noPulse);
      assert Agrees(ev, p, j, noSeq, noPulse);
    }

    /** A detection resets every detector. */
    method SweepAndClear(p: Pulse, refuseSeq: (nat, nat) -> bool, refusePulse: set<nat>)
        returns (radar: Option<nat>, ghost ev: Event)
      requires Valid() && p.ts < TWO32
      modifies this`ds, this`ps, this`qs, dets, pools
      ensures Valid() && ev.Feed? && ev.pulse == p
      ensures Refused(ev.noSeq, refuseSeq) && ev.noPulse <= refusePulse
      ensures (ds, radar) == Sweep(rules, old(ds), 0, ev)
    {
      radar, ev := SweepRules(p, refuseSeq, refusePulse);
      if radar.Some? {
        ResetAll(0);
      }
    }

    /** A pulse on a channel that is watched: time running backwards starts all over. */
    method Feeds(p: Pulse, refuseSeq: (nat, nat) -> bool, refusePulse: set<nat>)
        returns (radar: Option<nat>, ghost ev: Event)
      requires Valid() && p.ts < TWO32
      modifies this`ds, this`ps, this`qs, dets, pools
      ensures Valid() && ev.Feed? && ev.pulse == p
      ensures Refused(ev.noSeq, refuseSeq) && ev.noPulse <= refusePulse
      ensures (ds, radar) == if lastPulseTs > p.ts then (AllReset(|rules|, p.ts), None)
          else Sweep(rules, old(ds), 0, ev)
    {
      radar, ev := None, Feed(p, {}, {});
      if lastPulseTs > p.ts {
        ResetAll(p.ts);
      } else {
        radar, ev := SweepAndClear(p, refuseSeq, refusePulse);
      }
    }

    /**
     The entry point: one pulse on all detectors, with any pattern of refused memory: for each seed
     of each rule, and for its queue.
     */
    method AddPulse(p: Pulse, refuseSeq: (nat, nat) -> bool, refusePulse: set<nat>)
        returns (radar: Option<nat>, ghost ev: Event)
      requires Valid() && p.ts < TWO32
      modifies this, dets, pools
      ensures Valid() && ev.Feed? && ev.pulse == p
      ensures Refused(ev.noSeq, refuseSeq) && ev.noPulse <= refusePulse
      ensures (State(), radar) == Step(rules, old(State()), ev)
    {
      radar, ev := None, Feed(p, {}, {});
      if active {
        radar, ev := Feeds(p, refuseSeq, refusePulse);
        lastPulseTs := p.ts;
        active := radar.None?;
      }
    }
  }
}
