/** Where a poll of the ring stops, what it consumes and what it leaves of the quota. */
module EdmaPoll {
  import opened Basics
  import opened EdmaRing

  /** What an iteration finds: a complete header or not, its packets, and a new buffer if one is needed. */
  datatype Look = Look(done: bool, packets: nat, buffer: bool)

  /**
   Node `i` is the hardware's at iteration `t + k` of a poll that has not consumed it: it was from the
   start, or it waited and the one resubmission that a poll can reach has gone through by then.
   */
  predicate Mine(r: Ring, envs: seq<Env>, t: nat, k: nat, i: nat)
    requires r.rx < r.max
  {
    Has(r, i) || (k >= r.max - r.rx && i < |r.place| && r.place[i].Waiting? && At(envs, t + r.max - r.rx - 1).submit)
  }

  /** Header `i` as iteration `t + k` finds it, if only the hardware touched it since iteration `t`. */
  function SeenAt(r: Ring, i: nat, envs: seq<Env>, t: nat, k: nat): Hdr
    requires r.rx < r.max && i < |r.hdrs|
  {
    var h := if k == 0 then r.hdrs[i] else SeenAt(r, i, envs, t, k - 1);
    if Mine(r, envs, t, k, i) then Land(h, i, At(envs, t + k).arrivals) else h
  }

  function LookAt(r: Ring, p: nat, envs: seq<Env>, t: nat, k: nat): Look
    requires r.rx < r.max && p + k < |r.hdrs|
  {
    var h := SeenAt(r, p + k, envs, t, k);
    Look(h.done, h.len / 8, !r.filter || At(envs, t + k).alloc)
  }

  /** The headers from `p` to the end of the ring, each as its iteration would find it. */
  function Looks(r: Ring, p: nat, envs: seq<Env>, t: nat): (s: seq<Look>)
    requires r.rx < r.max && p <= r.max <= |r.hdrs|
    ensures |s| == r.max - p
  {
    seq(r.max - p, k requires 0 <= k < r.max - p => LookAt(r, p, envs, t, k))
  }

  datatype Plan = Plan(taken: nat, quota: nat, count: nat, ok: bool)

  /** The same loop over these observations alone. */
  function Walk(looks: seq<Look>, quota: nat, count: nat): Plan
    decreases |looks|
  {
    if looks == [] || !looks[0].done || quota == 0 then Plan(0, quota, count, true)
    else
      var sum := count + looks[0].packets;
      if !looks[0].buffer then Plan(1, Left(quota, sum), sum, false)
      else var rest := Walk(looks[1..], Left(quota, sum), sum); rest.(taken := rest.taken + 1)
  }

  function From(p: nat, n: nat): seq<nat>
    decreases n
  {
    if n == 0 then [] else [p] + From(p + 1, n - 1)
  }

  /* ---- The poll follows the walk ---- */

  /** An iteration that goes on leaves the other headers as it found them. */
  lemma OthersKept(r: Ring, p: nat, quota: nat, env: Env, i: nat)
    requires Padded(r) && Sized(r) && p < r.max && i < |r.hdrs| && i != p
    requires Advance(r, p, quota, env).Some? && Advance(r, p, quota, env).value.1
    ensures var c := Advance(r, p, quota, env).value.0;
            |c.hdrs| == |r.hdrs| && c.hdrs[i] == Arrive(r, env.arrivals).hdrs[i] && c.filter == r.filter
  {
  }

  /** Who owns the others later on does not change either: this is where a resubmission falls due. */
  lemma MineKept(r: Ring, p: nat, quota: nat, envs: seq<Env>, t: nat, k: nat, i: nat)
    requires Padded(r) && Sized(r) && p < r.max && i != p
    requires Advance(r, p, quota, At(envs, t)).Some? && Advance(r, p, quota, At(envs, t)).value.1
    ensures var c := Advance(r, p, quota, At(envs, t)).value.0;
            c.rx < c.max && (Mine(c, envs, t + 1, k, i) <==> Mine(r, envs, t, k + 1, i))
  {
    var c := Advance(r, p, quota, At(envs, t)).value.0;
    AdvanceSized(r, p, quota, At(envs, t));
    if r.rx + 1 == r.max {
      assert c.place == Return(r.place[p := Waiting], At(envs, t).submit);
    } else {
      assert c.place == r.place[p := Waiting] && c.rx == r.rx + 1;
    }
  }

  lemma {:induction false} PeelSeen(r: Ring, p: nat, quota: nat, envs: seq<Env>, t: nat, k: nat, i: nat)
    requires Padded(r) && Sized(r) && p < r.max && i < r.max && i != p
    requires Advance(r, p, quota, At(envs, t)).Some? && Advance(r, p, quota, At(envs, t)).value.1
    ensures var c := Advance(r, p, quota, At(envs, t)).value.0;
            c.rx < c.max && |c.hdrs| == |r.hdrs| && SeenAt(c, i, envs, t + 1, k) == SeenAt(r, i, envs, t, k + 1)
  {
    OthersKept(r, p, quota, At(envs, t), i);
    MineKept(r, p, quota, envs, t, k, i);
    if k > 0 {
      PeelSeen(r, p, quota, envs, t, k - 1, i);
    }
  }

  lemma PeelAt(r: Ring, p: nat, quota: nat, envs: seq<Env>, t: nat, k: nat)
    requires Padded(r) && Sized(r) && p + k + 1 < r.max
    requires Advance(r, p, quota, At(envs, t)).Some? && Advance(r, p, quota, At(envs, t)).value.1
    ensures var c := Advance(r, p, quota, At(envs, t)).value.0;
            c.rx < c.max && |c.hdrs| == |r.hdrs| && LookAt(c, p + 1, envs, t + 1, k) == LookAt(r, p, envs, t, k + 1)
  {
    PeelSeen(r, p, quota, envs, t, k, p + k + 1);
    OthersKept(r, p, quota, At(envs, t), p + k + 1);
  }

  /** What the loop will find from the next header on. */
  lemma Peel(r: Ring, p: nat, quota: nat, envs: seq<Env>, t: nat, c: Ring)
    requires Padded(r) && Sized(r) && p < r.max && Advance(r, p, quota, At(envs, t)) == Some((c, true))
    ensures Padded(c) && Sized(c) && c.max == r.max
    ensures Looks(c, p + 1, envs, t + 1) == Looks(r, p, envs, t)[1..]
  {
    AdvanceSized(r, p, quota, At(envs, t));
    var a, b := Looks(c, p + 1, envs, t + 1), Looks(r, p, envs, t)[1..];
    forall k | 0 <= k < |a| ensures a[k] == b[k] {
      PeelAt(r, p, quota, envs, t, k);
    }
  }

  lemma FirstLook(r: Ring, p: nat, quota: nat, count: nat, envs: seq<Env>, t: nat)
    requires Padded(r) && Sized(r) && p <= r.max
    ensures var looks := Looks(r, p, envs, t);
            && (Advance(r, p, quota, At(envs, t)).Some? <==> looks != [] && looks[0].done && quota > 0)
            && (looks != [] ==> Sum(r, p, count, At(envs, t)) == count + looks[0].packets)
            && (Advance(r, p, quota, At(envs, t)).Some? ==>
                  looks != [] && Advance(r, p, quota, At(envs, t)).value.1 == looks[0].buffer)
  {
  }

  predicate Follows(r: Ring, p: nat, res: Polled, w: Plan) {
    res.quota == w.quota && res.count == w.count && res.ok == w.ok && res.ring.log == r.log + From(p, w.taken)
  }

  lemma FollowsMore(r: Ring, c: Ring, p: nat, res: Polled, w: Plan)
    requires c.log == r.log + [p] && Follows(c, p + 1, res, w)
    ensures Follows(r, p, res, w.(taken := w.taken + 1))
  {
    assert r.log + [p] + From(p + 1, w.taken) == r.log + From(p, w.taken + 1);
  }

  lemma FollowsEnd(r: Ring, p: nat, res: Polled, c: Ring, q: nat, sum: nat)
    requires c.log == r.log + [p] && res == Polled(c, q, sum, false)
    ensures Follows(r, p, res, Plan(1, q, sum, false))
  {
    assert From(p, 1) == [p];
  }

  lemma WalkGoesOn(looks: seq<Look>, quota: nat, count: nat)
    requires looks != [] && looks[0].done && quota > 0
    ensures var sum := count + looks[0].packets;
            var rest := Walk(looks[1..], Left(quota, sum), sum);
            Walk(looks, quota, count)
            == if looks[0].buffer then rest.(taken := rest.taken + 1) else Plan(1, Left(quota, sum), sum, false)
  {
  }

  /** The loop and the walk stop together. */
  lemma StopTogether(r: Ring, p: nat, quota: nat, count: nat, envs: seq<Env>, t: nat)
    requires Padded(r) && Sized(r) && p <= r.max && Advance(r, p, quota, At(envs, t)).None?
    ensures Follows(r, p, PollFrom(r, p, quota, count, envs, t), Walk(Looks(r, p, envs, t), quota, count))
  {
    FirstLook(r, p, quota, count, envs, t);
    assert r.log + From(p, 0) == r.log;
  }

  /** They fail together, or go on together. */
  lemma TurnTogether(r: Ring, p: nat, quota: nat, count: nat, envs: seq<Env>, t: nat, looks: seq<Look>,
                     c: Ring, ok: bool, q: nat, sum: nat)
    requires Padded(r) && Sized(r) && p <= r.max && looks == Looks(r, p, envs, t)
    requires Advance(r, p, quota, At(envs, t)) == Some((c, ok))
    requires sum == Sum(r, p, count, At(envs, t)) && q == Left(quota, sum)
    ensures looks != []
    ensures Walk(looks, quota, count)
         == if ok then var w := Walk(looks[1..], q, sum); w.(taken := w.taken + 1) else Plan(1, q, sum, false)
  {
    FirstLook(r, p, quota, count, envs, t);
    WalkGoesOn(looks, quota, count);
  }

  /** The poll follows the walk, and consumes headers from the pointer on. */
  lemma {:induction false} PollWalks(r: Ring, p: nat, quota: nat, count: nat, envs: seq<Env>, t: nat, res: Polled)
    requires Padded(r) && Sized(r) && p <= r.max && res == PollFrom(r, p, quota, count, envs, t)
    ensures Follows(r, p, res, Walk(Looks(r, p, envs, t), quota, count))
    decreases r.max - p
  {
    if Advance(r, p, quota, At(envs, t)).None? {
      StopTogether(r, p, quota, count, envs, t);
    } else {
      var looks := Looks(r, p, envs, t);
      var c, ok, q, sum := Unfold(r, p, quota, count, envs, t);
      TurnTogether(r, p, quota, count, envs, t, looks, c, ok, q, sum);
      if ok {
        Peel(r, p, quota, envs, t, c);
        PollWalks(c, p + 1, q, sum, envs, t + 1, res);
        FollowsMore(r, c, p, res, Walk(looks[1..], q, sum));
      } else {
        FollowsEnd(r, p, res, c, q, sum);
      }
    }
  }

  /* ---- Where the walk stops ---- */

  function Total(looks: seq<Look>): nat {
    if looks == [] then 0 else looks[0].packets + Total(looks[1..])
  }

  /** What the quota pays for these headers: after each one, everything counted so far. */
  function Spent(count: nat, looks: seq<Look>): nat
    decreases |looks|
  {
    if looks == [] then 0 else count + looks[0].packets + Spent(count + looks[0].packets, looks[1..])
  }

  /** The loop goes on past header `k`: it is complete and the quota is not spent. */
  predicate Passes(looks: seq<Look>, quota: nat, count: nat, k: nat)
    requires k < |looks|
  {
    looks[k].done && Spent(count, looks[..k]) < quota
  }

  lemma SpentFirst(count: nat, looks: seq<Look>, k: nat)
    requires 1 <= k <= |looks|
    ensures var sum := count + looks[0].packets;
            && Spent(count, looks[..k]) == sum + Spent(sum, looks[1..][..k - 1])
            && Total(looks[..k]) == looks[0].packets + Total(looks[1..][..k - 1])
  {
    assert looks[..k][1..] == looks[1..][..k - 1];
  }

  lemma {:induction false} WalkCounts(looks: seq<Look>, quota: nat, count: nat)
    ensures var w := Walk(looks, quota, count);
            && w.taken <= |looks|
            && w.count == count + Total(looks[..w.taken])
            && w.quota == Left(quota, Spent(count, looks[..w.taken]))
    decreases |looks|
  {
    if looks != [] && looks[0].done && quota > 0 {
      var sum := count + looks[0].packets;
      SpentFirst(count, looks, 1);
      if looks[0].buffer {
        WalkCounts(looks[1..], Left(quota, sum), sum);
        SpentFirst(count, looks, Walk(looks, quota, count).taken);
      }
    }
  }

  lemma {:induction false} WalkTakes(looks: seq<Look>, quota: nat, count: nat, k: nat)
    requires k < Walk(looks, quota, count).taken
    ensures k < |looks| && Passes(looks, quota, count, k)
    ensures k + 1 < Walk(looks, quota, count).taken ==> looks[k].buffer
    decreases |looks|
  {
    if k > 0 {
      var sum := count + looks[0].packets;
      WalkTakes(looks[1..], Left(quota, sum), sum, k - 1);
      SpentFirst(count, looks, k);
    }
  }

  lemma {:induction false} WalkStops(looks: seq<Look>, quota: nat, count: nat, n: nat)
    requires n == Walk(looks, quota, count).taken
    ensures if Walk(looks, quota, count).ok
            then (n == 0 || (n <= |looks| && looks[n - 1].buffer)) && (n < |looks| ==> !Passes(looks, quota, count, n))
            else 0 < n <= |looks| && !looks[n - 1].buffer
    decreases |looks|
  {
    if looks != [] && looks[0].done && quota > 0 && looks[0].buffer {
      var sum := count + looks[0].packets;
      WalkStops(looks[1..], Left(quota, sum), sum, n - 1);
      if n < |looks| {
        SpentFirst(count, looks, n);
      }
    }
  }

  /** `n` headers are taken: all before the first that does not pass, or up to the first without a new buffer. */
  predicate Taken(looks: seq<Look>, quota: nat, n: nat, ok: bool) {
    && n <= |looks|
    && (forall k :: 0 <= k < n ==> Passes(looks, quota, 0, k))
    && (forall k :: 0 <= k < n - 1 ==> looks[k].buffer)
    && (if ok then (n == 0 || looks[n - 1].buffer) && (n == |looks| || !Passes(looks, quota, 0, n))
        else n > 0 && !looks[n - 1].buffer)
  }

  /** Exactly those are taken, and the quota pays the cumulative count each time. */
  lemma {:induction false} WalkExact(looks: seq<Look>, quota: nat)
    ensures var w := Walk(looks, quota, 0);
            && Taken(looks, quota, w.taken, w.ok)
            && w.count == Total(looks[..w.taken])
            && w.quota == Left(quota, Spent(0, looks[..w.taken]))
  {
    var w := Walk(looks, quota, 0);
    WalkCounts(looks, quota, 0);
    WalkStops(looks, quota, 0, w.taken);
    forall k | 0 <= k < w.taken ensures Passes(looks, quota, 0, k) && (k + 1 < w.taken ==> looks[k].buffer) {
      WalkTakes(looks, quota, 0, k);
    }
  }

  /** Every poll, in these terms. */
  lemma {:induction false} PollExact(r: Ring, quota: nat, envs: seq<Env>)
    requires Inv(r)
    ensures var res := PollFrom(r, r.tail, quota, 0, envs, 0);
            var looks := Looks(r, r.tail, envs, 0);
            exists n :: 0 <= n <= |looks| && Taken(looks, quota, n, res.ok)
                     && res.ring.log == r.log + From(r.tail, n)
                     && res.count == Total(looks[..n])
                     && res.quota == Left(quota, Spent(0, looks[..n]))
  {
    PollWalks(r, r.tail, quota, 0, envs, 0, PollFrom(r, r.tail, quota, 0, envs, 0));
    WalkExact(Looks(r, r.tail, envs, 0), quota);
  }
}
