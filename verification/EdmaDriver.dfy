/** The receive ring as the driver keeps it: cursors and headers updated in place by the poll loop. */
module EdmaDriver {
  import opened Basics
  import opened EdmaRing
  import opened EdmaRuns

  /** From here the loop ends in `goal`. */
  ghost predicate Heads(s: Ring, p: nat, left: nat, count: nat, envs: seq<Env>, t: nat, goal: Polled) {
    Inv(s) && Points(s, p) && PollFrom(s, p, left, count, envs, t) == goal
  }

  lemma HeadsOn(s: Ring, p: nat, left: nat, count: nat, envs: seq<Env>, t: nat, goal: Polled)
    returns (c: Ring, ok: bool, q: nat, sum: nat)
    requires Heads(s, p, left, count, envs, t, goal)
    requires Arrive(s, At(envs, t).arrivals).hdrs[p].done && left > 0
    ensures p < s.max && s.tail < s.max && |s.bufs| == |s.place| == s.max && s.node < s.max
    ensures (c, ok) == Consume(Arrive(s, At(envs, t).arrivals), p, At(envs, t))
    ensures sum == count + Arrive(s, At(envs, t).arrivals).hdrs[p].len / 8 && q == Left(left, sum)
    ensures ok ==> Heads(c, p + 1, q, sum, envs, t + 1, goal)
    ensures !ok ==> goal == Polled(c, q, sum, false)
  {
    Turn(s, p, At(envs, t));
    c, ok, q, sum := Unfold(s, p, left, count, envs, t);
  }

  lemma HeadsEnd(s: Ring, p: nat, left: nat, count: nat, envs: seq<Env>, t: nat, goal: Polled)
    requires Heads(s, p, left, count, envs, t, goal)
    requires !Arrive(s, At(envs, t).arrivals).hdrs[p].done || left == 0
    ensures goal == Polled(Arrive(s, At(envs, t).arrivals), left, count, true)
  {
  }

  class Channel {
    const max: nat
    const filter: bool
    const hdr: array<Hdr>
    const bufs: array<nat>
    var tail: nat
    var node: nat
    var rx: nat
    var next: nat
    var locked: bool
    const place: array<Place>   // where each node is; the hardware writes only headers that it owns
    ghost var log: seq<nat>
    ghost var handed: seq<nat>

    ghost function View(): Ring
      reads this, hdr, bufs, place
    {
      Ring(max, filter, hdr[..], bufs[..], tail, node, rx, place[..], next, log, handed, locked)
    }

    constructor (max: nat, filter: bool, submitted: bool)
      requires max > 0
      ensures fresh(hdr) && fresh(bufs) && fresh(place) && View() == Created(max, filter, submitted)
    {
      this.max, this.filter := max, filter;
      hdr := new Hdr[Room(max)](i requires 0 <= i < Room(max) => FirstHdr(max, i));
      bufs := new nat[max](i requires 0 <= i => i);
      tail, node, rx, next, locked := 0, 0, 0, max, false;
      log, handed := [], [];
      place := new Place[max](_ => if submitted then Owned else Lost);
    }

    /** The hardware writes the headers. */
    method Hardware(arrivals: map<nat, nat>)
      requires max <= hdr.Length
      modifies hdr
      ensures View() == Arrive(old(View()), arrivals)
    {
      forall i | 0 <= i < max && i < place.Length && place[i].Owned? {
        hdr[i] := Land(hdr[i], i, arrivals);
      }
      assert hdr[..] == Arrive(old(View()), arrivals).hdrs;
    }

    method Hand(p: nat)
      requires p < hdr.Length && tail < max && p < place.Length
      modifies this, place
      ensures View() == PassUp(old(View()), p)
    {
      NextModulo(tail, max);
      QuotientUnique(tail, max, 0, tail);
      tail := (tail + 1) % max;
      rx := rx + 1;
      place[p] := Waiting;
      log, handed := log + [p], handed + [hdr[p].addr];
    }

    method Renew(p: nat)
      requires p < hdr.Length && node < bufs.Length && filter
      modifies this`next, hdr, bufs
      ensures View() == Replace(old(View()), p)
    {
      hdr[p] := hdr[p].(addr := next);
      bufs[node] := next;
      next := next + 1;
    }

    /** The hardware takes the waiting nodes, or they are lost. */
    method Submission(ok: bool)
      modifies this`rx, place
      ensures View() == GiveBack(old(View()), ok)
    {
      forall i | 0 <= i < place.Length && place[i].Waiting? {
        place[i] := if ok then Owned else Lost;
      }
      rx := 0;
      assert place[..] == Return(old(place[..]), ok);
    }

    method SubmitFull(ok: bool)
      modifies this`rx, place
      ensures View() == EdmaRing.Resubmit(old(View()), ok)
    {
      if rx == max {
        Submission(ok);
      }
    }

    method Finish(p: nat)
      requires p < hdr.Length && max > 0
      modifies this`node, hdr
      ensures View() == Clear(old(View()), p)
    {
      hdr[p] := hdr[p].(done := false);
      if node + 1 == max {
        node := 0;
      } else {
        node := node + 1;
      }
    }

    method TakeOne(p: nat, env: Env) returns (ok: bool)
      requires p < hdr.Length && tail < max && node < bufs.Length && p < place.Length
      modifies this, hdr, bufs, place
      ensures (View(), ok) == Consume(old(View()), p, env)
    {
      Hand(p);
      if filter {
        if !env.alloc {
          locked := true;
          return false;
        }
        Renew(p);
      }
      SubmitFull(env.submit);
      Finish(p);
      return true;
    }

    method Iterate(ghost s: Ring, p: nat, quota: nat, counted: nat, ghost envs: seq<Env>, ghost t: nat, env: Env,
                   ghost goal: Polled)
      returns (left: nat, count: nat, ok: bool)
      requires p < hdr.Length && Heads(s, p, quota, counted, envs, t, goal) && env == At(envs, t)
      requires View() == Arrive(s, env.arrivals) && hdr[p].done && quota > 0
      modifies this, hdr, bufs, place
      ensures p < max
      ensures ok ==> Heads(View(), p + 1, left, count, envs, t + 1, goal)
      ensures !ok ==> goal == Polled(View(), left, count, false)
    {
      ghost var c, went, q, sum := HeadsOn(s, p, quota, counted, envs, t, goal);
      count := counted + hdr[p].len / 8;
      left := if quota >= count then quota - count else 0;
      ok := TakeOne(p, env);
      assert View() == c && ok == went && left == q && count == sum;
    }

    method PollLoop(quota: nat, envs: seq<Env>, ghost goal: Polled) returns (left: nat, count: nat, ok: bool)
      requires max < hdr.Length && tail <= max && Heads(View(), tail, quota, 0, envs, 0, goal)
      modifies this, hdr, bufs, place
      ensures Polled(View(), left, count, ok) == goal
    {
      left, count, ok := quota, 0, true;
      var p, t := tail, 0;
      ghost var s := View();
      Hardware(At(envs, t).arrivals);
      while hdr[p].done && left > 0
        invariant p <= max < hdr.Length && Heads(s, p, left, count, envs, t, goal)
        invariant View() == Arrive(s, At(envs, t).arrivals)
        decreases max - p
      {
        left, count, ok := Iterate(s, p, left, count, envs, t, At(envs, t), goal);
        if !ok {
          return;
        }
        s := View();
        p, t := p + 1, t + 1;
        Hardware(At(envs, t).arrivals);
      }
      HeadsEnd(s, p, left, count, envs, t, goal);
    }

    /** Polls the ring: what is left of the quota, the packets counted, and false if memory ran out. */
    method Poll(quota: nat, envs: seq<Env>) returns (left: nat, count: nat, ok: bool)
      requires Inv(View())
      modifies this, hdr, bufs, place
      ensures Polled(View(), left, count, ok) == PollFrom(old(View()), old(tail), quota, 0, envs, 0)
      ensures if ok then Inv(View()) else Broken(View())
    {
      PollKeeps(View(), tail, quota, 0, envs, 0);
      left, count, ok := PollLoop(quota, envs, PollFrom(View(), tail, quota, 0, envs, 0));
    }

    /**
     All consumed nodes go back when the data channels are opened; as many as the driver counts are
     waiting for it.
     */
    method OpenData(submitted: bool)
      requires Inv(View())
      modifies this`rx, place
      ensures View() == GiveBack(old(View()), submitted) && Inv(View()) && rx == 0
      ensures old(Count(place[..], Waiting, max)) == old(rx) && Count(place[..], Waiting, max) == 0
    {
      GiveBackInv(View(), submitted);
      Submission(submitted);
    }
  }
}
