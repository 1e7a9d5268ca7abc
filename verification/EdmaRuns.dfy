/** Whole runs of a ring: the order of consumption, where every node is, and how long a ring lives. */
module EdmaRuns {
  import opened Basics
  import opened EdmaRing

  datatype Event = Poll(quota: nat, envs: seq<Env>) | Submit(ok: bool)

  /** The data channels are opened: all consumed nodes go back. */
  function GiveBack(r: Ring, ok: bool): Ring {
    r.(rx := 0, place := Return(r.place, ok))
  }

  lemma GiveBackInv(r: Ring, ok: bool)
    requires Inv(r)
    ensures Inv(GiveBack(r, ok))
  {
    ReturnCount(r.place, ok, r.max);
  }

  ghost predicate Sound(r: Ring) {
    Inv(r) || Broken(r)
  }

  /** Nothing gets past a lock that is never released. */
  ghost function Step(r: Ring, e: Event): Ring
    requires Sound(r)
  {
    if r.locked then r
    else match e
      case Poll(quota, envs) => PollFrom(r, r.tail, quota, 0, envs, 0).ring
      case Submit(ok) => GiveBack(r, ok)
  }

  lemma StepKeeps(r: Ring, e: Event)
    requires Sound(r)
    ensures Sound(Step(r, e)) && Step(r, e).max == r.max && Step(r, e).filter == r.filter
  {
    if !r.locked {
      match e
      case Poll(quota, envs) => PollKeeps(r, r.tail, quota, 0, envs, 0);
      case Submit(ok) => GiveBackInv(r, ok);
    }
  }

  ghost function Run(r: Ring, evs: seq<Event>): (s: Ring)
    requires Sound(r)
    ensures Sound(s) && s.max == r.max && s.filter == r.filter
    decreases |evs|
  {
    if evs == [] then r else
      StepKeeps(r, evs[0]);
      Run(Step(r, evs[0]), evs[1..])
  }

  ghost function RunFromStart(max: nat, filter: bool, submitted: bool, evs: seq<Event>): (s: Ring)
    requires max > 0 && max % 256 != 0
    ensures Sound(s) && s.max == max
  {
    CreatedInv(max, filter, submitted);
    Run(Created(max, filter, submitted), evs)
  }

  /**
   On every run of a ring that leaves room in its pages: the k-th header ever consumed is number
   k modulo the ring size, what waits is as much as the driver counts and is what was consumed
   last, and the three cursors agree exactly as long as no allocation has failed.
   */
  lemma {:induction false} RunOrder(max: nat, filter: bool, submitted: bool, evs: seq<Event>)
    requires max > 1 && max % 256 != 0
    ensures var r := RunFromStart(max, filter, submitted, evs);
            && (forall k :: 0 <= k < |r.log| ==> r.log[k] == k % max)
            && |r.place| == max && Count(r.place, Waiting, max) == r.rx <= |r.log|
            && (forall i :: 0 <= i < max ==> (r.place[i].Waiting? <==> i in r.log[|r.log| - r.rx..]))
            && (r.tail == r.node <==> !r.locked)
            && (!r.locked ==> r.tail == |r.log| % max && r.rx < max && Matched(r) && Exclusive(r))
  {
    var r := RunFromStart(max, filter, submitted, evs);
    forall k | 0 <= k < |r.log| ensures r.log[k] == k % max {
      SlotModulo(k, max);
    }
    SlotModulo(|r.log|, max);
    CountFull(r.place, Waiting, max);
    forall i | 0 <= i < max ensures r.place[i].Waiting? <==> i in r.log[|r.log| - r.rx..] {
      LastConsumed(r, i);
    }
  }

  /** Without memory for its first packet, a filter ring stops for good with its tail one ahead. */
  lemma LockHappens()
    ensures var r := RunFromStart(8, true, true, [Poll(1, [Env(map[0 := 8], false, true)])]);
            r.locked && r.tail == 1 && r.node == 0 && r.rx == 1
  {
    CreatedInv(8, true, true);
    var r := Created(8, true, true);
    var envs := [Env(map[0 := 8], false, true)];
    assert r.place[0].Owned?;
    assert Arrive(r, envs[0].arrivals).hdrs[0] == Hdr(true, 8, r.hdrs[0].addr);
    var c, ok, q, sum := Unfold(r, 0, 1, 0, envs, 0);
    var evs := [Poll(1, envs)];
    assert evs[1..] == [];
  }

  /* ---- Where the nodes are ---- */

  lemma {:induction false} CountAll(place: seq<Place>, n: nat)
    requires n <= |place|
    ensures Count(place, Owned, n) + Count(place, Waiting, n) + Count(place, Lost, n) == n
    ensures (forall i :: 0 <= i < n ==> !place[i].Lost?) ==> Count(place, Lost, n) == 0
  {
    if n > 0 {
      CountAll(place, n - 1);
    }
  }

  predicate NoneLost(r: Ring) {
    forall i :: 0 <= i < |r.place| ==> !r.place[i].Lost?
  }

  predicate Submits(e: Event) {
    match e
    case Poll(_, envs) => forall i :: 0 <= i < |envs| ==> envs[i].submit
    case Submit(ok) => ok
  }

  lemma SafeNext(r: Ring, p: nat, quota: nat, env: Env)
    requires Inv(r) && NoneLost(r) && Points(r, p) && env.submit && Advance(r, p, quota, env).Some?
    ensures NoneLost(Advance(r, p, quota, env).value.0)
  {
    PlaceAfter(r, p, quota, env);
  }

  /** What an iteration does to the places: the hardware's node waits, and all waiting ones may go back. */
  lemma PlaceAfter(r: Ring, p: nat, quota: nat, env: Env)
    requires Inv(r) && Points(r, p) && Advance(r, p, quota, env).Some?
    ensures var c := Advance(r, p, quota, env).value.0;
            var taken := r.place[r.tail := Waiting];
            && p == r.tail < r.max && Has(r, r.tail) && c.log == r.log + [r.tail]
            && c.place == if r.rx + 1 < r.max || (r.filter && !env.alloc) then taken else Return(taken, env.submit)
  {
    ArriveInv(r, env.arrivals);
    AdvanceSized(r, p, quota, env);
    assert Has(Arrive(r, env.arrivals), p);
  }

  lemma {:induction false} StepSafe(r: Ring, e: Event)
    requires Sound(r) && NoneLost(r) && Submits(e)
    ensures NoneLost(Step(r, e))
  {
    if !r.locked && e.Poll? {
      var tame := (env: Env) => env.submit;
      forall s, u, q, env | Inv(s) && Points(s, u) && NoneLost(s) && tame(env)
        ensures CarriedAt(NoneLost, s, u, q, env)
      {
        if Advance(s, u, q, env).Some? {
          SafeNext(s, u, q, env);
        }
      }
      PollCarries(NoneLost, tame, r, r.tail, e.quota, 0, e.envs, 0, PollFrom(r, r.tail, e.quota, 0, e.envs, 0));
    }
  }

  lemma {:induction false} RunSafe(r: Ring, evs: seq<Event>)
    requires Sound(r) && NoneLost(r) && forall i :: 0 <= i < |evs| ==> Submits(evs[i])
    ensures NoneLost(Run(r, evs))
    decreases |evs|
  {
    if evs != [] {
      StepKeeps(r, evs[0]);
      StepSafe(r, evs[0]);
      RunSafe(Step(r, evs[0]), evs[1..]);
    }
  }

  /**
   Conservation: with submissions going through, the nodes that the hardware owns and the driver's
   count of the others are exactly the ring, and the count is below its size between steps.
   */
  lemma {:induction false} Conservation(max: nat, filter: bool, evs: seq<Event>)
    requires max > 1 && max % 256 != 0 && forall i :: 0 <= i < |evs| ==> Submits(evs[i])
    ensures var r := RunFromStart(max, filter, true, evs);
            |r.place| == max && NoneLost(r) && Count(r.place, Owned, max) + r.rx == max && (!r.locked ==> r.rx < max)
  {
    var r := RunFromStart(max, filter, true, evs);
    CreatedInv(max, filter, true);
    RunSafe(Created(max, filter, true), evs);
    assert Accounted(r);
    CountAll(r.place, max);
  }

  /* ---- How long a ring lives ---- */

  /** A lost node stands at place `far` of the consumption order, and has not been reached. */
  predicate Blocked(r: Ring, far: nat) {
    |r.place| == r.max && |r.log| <= far && Slot(far, r.max) < r.max && r.place[Slot(far, r.max)].Lost?
  }

  ghost function BlockedAt(far: nat): Ring -> bool {
    (r: Ring) => Blocked(r, far)
  }

  lemma BlockedNext(r: Ring, p: nat, quota: nat, env: Env, far: nat)
    requires Inv(r) && Blocked(r, far) && Points(r, p) && Advance(r, p, quota, env).Some?
    ensures Blocked(Advance(r, p, quota, env).value.0, far)
  {
    AdvanceSized(r, p, quota, env);
    PlaceAfter(r, p, quota, env);
  }

  lemma {:induction false} StepBlocked(r: Ring, e: Event, far: nat)
    requires Sound(r) && Blocked(r, far)
    ensures Blocked(Step(r, e), far)
  {
    if !r.locked && e.Poll? {
      var extra, tame := BlockedAt(far), (env: Env) => true;
      forall s, u, q, env | Inv(s) && Points(s, u) && extra(s) && tame(env) ensures CarriedAt(extra, s, u, q, env) {
        assert Blocked(Arrive(s, env.arrivals), far);
        if Advance(s, u, q, env).Some? {
          BlockedNext(s, u, q, env, far);
        }
      }
      PollCarries(extra, tame, r, r.tail, e.quota, 0, e.envs, 0, PollFrom(r, r.tail, e.quota, 0, e.envs, 0));
    }
  }

  /** No run ever gets past a lost node. */
  lemma {:induction false} RunBlocked(r: Ring, evs: seq<Event>, far: nat)
    requires Sound(r) && Blocked(r, far)
    ensures |Run(r, evs).log| <= far
    decreases |evs|
  {
    if evs != [] {
      StepKeeps(r, evs[0]);
      StepBlocked(r, evs[0], far);
      RunBlocked(Step(r, evs[0]), evs[1..], far);
    }
  }

  /** The header consumed `d` before the last one lies `d` places behind the tail. */
  lemma SlotBehind(k: nat, d: nat, m: nat)
    requires d < k && d < m
    ensures Slot(k, m) < m && Slot(k - 1 - d, m) < m && Behind(Slot(k - 1 - d, m), Slot(k, m), m) == d
  {
    SlotAdd(k - 1 - d, d + 1, m);
    SlotAdd(k, 0, m);
  }

  /** Places that come round within the lap after the last ones consumed are not among those waiting. */
  lemma NotWaiting(r: Ring, j: nat)
    requires Inv(r) && |r.log| <= j < |r.log| - r.rx + r.max
    ensures Slot(j, r.max) < r.max && !r.place[Slot(j, r.max)].Waiting?
  {
    SlotAdd(j, 0, r.max);
    SlotAdd(|r.log|, j - |r.log|, r.max);
  }

  /** The waiting nodes are the last ones consumed. */
  lemma LastConsumed(r: Ring, i: nat)
    requires Accounted(r) && InOrder(r) && r.tail == Slot(|r.log|, r.max) && r.rx <= r.max && i < r.max
    ensures r.place[i].Waiting? <==> i in r.log[|r.log| - r.rx..]
  {
    SlotAdd(|r.log|, 0, r.max);
    if r.place[i].Waiting? {
      var d := Behind(i, r.tail, r.max);
      SlotBehind(|r.log|, d, r.max);
      assert r.log[|r.log| - 1 - d] == i;
      assert r.log[|r.log| - r.rx..][r.rx - 1 - d] == i;
    }
    if i in r.log[|r.log| - r.rx..] {
      var k :| |r.log| - r.rx <= k < |r.log| && r.log[k] == i;
      SlotBehind(|r.log|, |r.log| - 1 - k, r.max);
    }
  }

  /** The next header's node is the hardware's, unless it is lost. */
  lemma TailOwned(r: Ring)
    requires Inv(r)
    ensures Has(r, r.tail) <==> !r.place[r.tail].Lost?
  {
    NotWaiting(r, |r.log|);
  }

  /** One packet that arrives for the next header. */
  function Packet(r: Ring): Event {
    Poll(1, [Env(map[r.tail := 8], true, true)])
  }

  /** It is consumed if the hardware owns the node, and the lost nodes stay the same. */
  lemma {:induction false} PacketConsumed(r: Ring)
    requires Inv(r) && Has(r, r.tail)
    ensures var s := Step(r, Packet(r));
            && s.log == r.log + [r.tail] && !s.locked && |s.place| == |r.place|
            && forall i :: 0 <= i < |r.place| ==> (s.place[i].Lost? <==> r.place[i].Lost?)
  {
    var envs := Packet(r).envs;
    assert Arrive(r, envs[0].arrivals).hdrs[r.tail] == Hdr(true, 8, r.hdrs[r.tail].addr);
    assert Advance(r, r.tail, 1, envs[0]).Some?;
    PlaceAfter(r, r.tail, 1, envs[0]);
    var c, ok, q, sum := Unfold(r, r.tail, 1, 0, envs, 0);
    assert q == 0;
    assert PollFrom(c, r.tail + 1, 0, sum, envs, 1) == Polled(Arrive(c, map[]), 0, sum, true);
  }

  /** Packets for the next `n` headers, as long as none of their nodes is lost. */
  lemma {:induction false} Reach(r: Ring, n: nat) returns (evs: seq<Event>)
    requires Inv(r)
    requires forall j :: |r.log| <= j < |r.log| + n ==> Slot(j, r.max) < r.max && !r.place[Slot(j, r.max)].Lost?
    ensures |Run(r, evs).log| == |r.log| + n
    decreases n
  {
    evs := [];
    if n > 0 {
      TailOwned(r);
      PacketConsumed(r);
      StepKeeps(r, Packet(r));
      var rest := Reach(Step(r, Packet(r)), n - 1);
      evs := [Packet(r)] + rest;
      assert evs[1..] == rest;
    }
  }

  /** From here `n` more headers can be consumed, by some run. */
  ghost predicate Reachable(r: Ring, n: nat)
    requires Sound(r)
  {
    exists evs :: |Run(r, evs).log| >= |r.log| + n
  }

  /** How far a ring can go, exactly: up to the first lost node, and without end if there is none. */
  lemma {:induction false} LifetimeExact(r: Ring, n: nat)
    requires Inv(r)
    ensures Reachable(r, n)
       <==> forall j :: |r.log| <= j < |r.log| + n ==> Slot(j, r.max) < r.max && !r.place[Slot(j, r.max)].Lost?
  {
    if j :| |r.log| <= j < |r.log| + n && !(Slot(j, r.max) < r.max && !r.place[Slot(j, r.max)].Lost?) {
      SlotAdd(j, 0, r.max);
      forall evs ensures |Run(r, evs).log| < |r.log| + n {
        RunBlocked(r, evs, j);
      }
    } else {
      var evs := Reach(r, n);
    }
  }

  lemma {:induction false} CountFull(place: seq<Place>, x: Place, n: nat)
    requires n <= |place|
    ensures Count(place, x, n) <= n
    ensures Count(place, x, n) == n ==> forall i :: 0 <= i < n ==> place[i] == x
  {
    if n > 0 {
      CountFull(place, x, n - 1);
    }
  }

  /**
   After a header is consumed, the next one can still be served exactly if the ring was not handed
   in whole by then, or was taken back. A refusal leaves every node lost.
   */
  lemma {:induction false} RefusalExact(r: Ring, quota: nat, env: Env)
    requires Inv(r) && NoneLost(r) && Advance(r, r.tail, quota, env).Some? && Advance(r, r.tail, quota, env).value.1
    ensures var c := Advance(r, r.tail, quota, env).value.0;
            && Inv(c) && (Has(c, c.tail) <==> r.rx + 1 < r.max || env.submit)
            && (r.rx + 1 == r.max && !env.submit ==> forall i :: 0 <= i < c.max ==> c.place[i].Lost?)
  {
    Turn(r, r.tail, env);
    PlaceAfter(r, r.tail, quota, env);
    TailOwned(Advance(r, r.tail, quota, env).value.0);
    var taken := r.place[r.tail := Waiting];
    forall i | 0 <= i < r.max && r.rx + 1 == r.max ensures taken[i].Waiting? {
      LastWaits(r, i);
    }
  }

  /** With the last node consumed, the whole ring waits. */
  lemma LastWaits(r: Ring, i: nat)
    requires Inv(r) && Has(r, r.tail) && r.rx + 1 == r.max && i < r.max
    ensures r.place[r.tail := Waiting][i].Waiting?
  {
    CountUpdate(r.place, r.tail, Waiting, Waiting, r.max);
    CountFull(r.place[r.tail := Waiting], Waiting, r.max);
  }

  lemma OldestWaits(r: Ring)
    requires Inv(r) && r.rx > 0
    ensures var i := Slot(|r.log| - r.rx + r.max, r.max); i < r.max && r.place[i].Waiting?
  {
    var first := |r.log| - r.rx;
    SlotAdd(first, r.max, r.max);
    SlotBehind(|r.log|, r.rx - 1, r.max);
  }

  /** Opening the data channels with a refused submission leaves exactly the nodes that did not wait to be used up. */
  lemma {:induction false} OpenRefused(r: Ring, n: nat)
    requires Inv(r) && NoneLost(r) && r.rx > 0
    ensures Inv(GiveBack(r, false)) && (Reachable(GiveBack(r, false), n) <==> n <= r.max - r.rx)
  {
    GiveBackInv(r, false);
    LifetimeExact(GiveBack(r, false), n);
    OldestWaits(r);
    forall j | |r.log| <= j < |r.log| - r.rx + r.max
      ensures Slot(j, r.max) < r.max && !GiveBack(r, false).place[Slot(j, r.max)].Lost?
    {
      NotWaiting(r, j);
    }
  }

  /** A ring whose first submission is refused never delivers anything. */
  lemma UnsubmittedDead(max: nat, filter: bool)
    requires max > 0 && max % 256 != 0
    ensures Inv(Created(max, filter, false)) && !Reachable(Created(max, filter, false), 1)
  {
    CreatedInv(max, filter, false);
    LifetimeExact(Created(max, filter, false), 1);
    assert Slot(0, max) == 0;
  }
}
