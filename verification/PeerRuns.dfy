/** What the peer contexts hold after any orderly run, told from the calls alone. */
module PeerRuns {
  import opened Basics
  import opened PeerCtx

  /** The table before call `k`. */
  function At(t: Table, evs: seq<Event>, k: nat): (u: Table)
    requires Inv(t) && Tidy(t, evs) && k <= |evs|
    ensures Inv(u)
    decreases k
  {
    if k == 0 then t
    else
      StepExact(t, evs[0]);
      At(Step(t, evs[0]), evs[1..], k - 1)
  }

  lemma {:induction false} AtRun(t: Table, evs: seq<Event>)
    requires Inv(t) && Tidy(t, evs)
    ensures At(t, evs, |evs|) == Run(t, evs)
    decreases |evs|
  {
    if evs != [] {
      StepExact(t, evs[0]);
      AtRun(Step(t, evs[0]), evs[1..]);
    }
  }

  lemma {:induction false} AtNext(t: Table, evs: seq<Event>, k: nat)
    requires Inv(t) && Tidy(t, evs) && k < |evs|
    ensures var u := At(t, evs, k);
            && Callable(u, evs[k]) && (evs[k].Binds? ==> Clean(u, evs[k].i, evs[k].c))
            && At(t, evs, k + 1) == Step(u, evs[k])
    decreases k
  {
    StepExact(t, evs[0]);
    if k > 0 {
      AtNext(Step(t, evs[0]), evs[1..], k - 1);
    } else {
      assert At(Step(t, evs[0]), evs[1..], 0) == Step(t, evs[0]);
    }
  }

  /* ---- Who is published ---- */

  /** Call `k` enables a context whose peer is not flagged, and no later one before `n` disables it. */
  predicate Enabled(t: Table, evs: seq<Event>, k: nat, n: nat, c: nat)
    requires Inv(t) && Tidy(t, evs) && k < n <= |evs|
  {
    && evs[k] == Enables(c) && c < |At(t, evs, k).ctxs| && Willing(At(t, evs, k), c)
    && forall j :: k < j < n ==> evs[j] != Disables(c)
  }

  lemma BindEntry(t: Table, i: nat, c: nat, who: Option<nat>, d: nat)
    requires Inv(t) && Unbound(t, who) && i < |t.ifaces| && c < |t.ctxs| && d < |t.ctxs|
    ensures var u := Bind(t, i, c, who);
            |u.ctxs| == |t.ctxs| && u.ctxs[d].entry == t.ctxs[d].entry
                && u.ctxs[d].peer == if d == c then who else t.ctxs[d].peer
  {
    BindParts(t, i, c, who, d);
  }

  lemma StepEntry(t: Table, e: Event, c: nat)
    requires Inv(t) && Callable(t, e) && c < |t.ctxs|
    ensures var u := Step(t, e);
            |u.ctxs| == |t.ctxs|
            && (u.ctxs[c].entry.Some? <==>
                  (e == Enables(c) && Willing(t, c)) || (t.ctxs[c].entry.Some? && e != Disables(c)))
  {
    assert Bound(t, c);
    match e
    case Enables(d) => TransmitsExact(t, d);
    case Disables(d) => TransmitsExact(t, d);
    case Binds(i, d, who) => BindEntry(t, i, d, who, c);
    case _ =>
  }

  /**
   After any orderly run from a table that publishes nothing there, a context publishes its peer if
   and only if some call enabled it while its peer was not flagged and none has disabled it since.
   */
  lemma {:induction false} PublishedExact(t: Table, evs: seq<Event>, n: nat, c: nat)
    requires Inv(t) && Tidy(t, evs) && n <= |evs| && c < |t.ctxs| && t.ctxs[c].entry == None
    ensures |At(t, evs, n).ctxs| == |t.ctxs|
    ensures At(t, evs, n).ctxs[c].entry.Some? <==> exists k :: 0 <= k < n && Enabled(t, evs, k, n, c)
  {
    if n > 0 {
      var s, e := At(t, evs, n - 1), evs[n - 1];
      AtNext(t, evs, n - 1);
      PublishedExact(t, evs, n - 1, c);
      StepEntry(s, e, c);
      if e == Enables(c) && Willing(s, c) {
        assert Enabled(t, evs, n - 1, n, c);
      } else if s.ctxs[c].entry.Some? && e != Disables(c) {
        var k :| 0 <= k < n - 1 && Enabled(t, evs, k, n - 1, c);
        assert Enabled(t, evs, k, n, c);
      }
      if k :| 0 <= k < n && Enabled(t, evs, k, n, c) && k < n - 1 {
        assert Enabled(t, evs, k, n - 1, c);
      }
    }
  }

  /* ---- Who is bound, freed and flagged ---- */

  /** Whom the last binding of context `c` bound; nobody, without one. */
  function LastBound(evs: seq<Event>, n: nat, c: nat): Option<nat>
    requires n <= |evs|
  {
    if n == 0 then None
    else if evs[n - 1].Binds? && evs[n - 1].c == c then evs[n - 1].who
    else LastBound(evs, n - 1, c)
  }

  lemma StepPeer(t: Table, e: Event, c: nat)
    requires Inv(t) && Callable(t, e) && c < |t.ctxs|
    ensures var u := Step(t, e);
            |u.ctxs| == |t.ctxs| && u.ctxs[c].peer == if e.Binds? && e.c == c then e.who else t.ctxs[c].peer
  {
    match e
    case Enables(d) => TransmitsExact(t, d);
    case Disables(d) => TransmitsExact(t, d);
    case Binds(i, d, who) => BindEntry(t, i, d, who, c);
    case _ =>
  }

  /** A context holds whom it was last given, and by the invariant publishes nobody else. */
  lemma {:induction false} BoundExact(t: Table, evs: seq<Event>, n: nat, c: nat)
    requires Inv(t) && Tidy(t, evs) && n <= |evs| && c < |t.ctxs| && t.ctxs[c].peer == None
    ensures |At(t, evs, n).ctxs| == |t.ctxs|
    ensures At(t, evs, n).ctxs[c].peer == LastBound(evs, n, c)
    ensures At(t, evs, n).ctxs[c].entry in {None, LastBound(evs, n, c)}
  {
    if n > 0 {
      AtNext(t, evs, n - 1);
      BoundExact(t, evs, n - 1, c);
      StepPeer(At(t, evs, n - 1), evs[n - 1], c);
    }
    assert Bound(At(t, evs, n), c);
  }

  /** Call `k` takes peer `p` out of its context. */
  predicate Replaces(t: Table, evs: seq<Event>, k: nat, p: nat)
    requires Inv(t) && Tidy(t, evs) && k < |evs|
  {
    var s := At(t, evs, k);
    evs[k].Binds? && evs[k].c < |s.ctxs| && s.ctxs[evs[k].c].peer == Some(p)
  }

  lemma StepFreed(t: Table, e: Event, p: nat)
    requires Inv(t) && Callable(t, e) && p < |t.peers|
    ensures var u := Step(t, e);
            && p < |u.peers| && u.peers[p].addr == t.peers[p].addr
            && (u.peers[p].freed <==> t.peers[p].freed || (e.Binds? && t.ctxs[e.c].peer == Some(p)))
            && (u.peers[p].marked <==> t.peers[p].marked || e == Marks(p))
  {
  }

  /** A new peer has the address and the flags that it was allocated with. */
  lemma StepAlloc(t: Table, e: Event)
    requires Inv(t) && Callable(t, e)
    ensures var u := Step(t, e);
            if e.Allocs? then
              && |u.peers| == |t.peers| + 1 && !u.peers[|t.peers|].freed && !u.peers[|t.peers|].active
              && u.peers[|t.peers|].addr == e.addr && u.peers[|t.peers|].marked == e.marked
            else |u.peers| == |t.peers|
  {
  }

  /** Peers that were there at the start: freed exactly if a binding has replaced them. */
  lemma {:induction false} FreedExact(t: Table, evs: seq<Event>, n: nat, p: nat)
    requires Inv(t) && Tidy(t, evs) && n <= |evs| && p < |t.peers| && !t.peers[p].freed
    ensures p < |At(t, evs, n).peers|
    ensures At(t, evs, n).peers[p].freed <==> exists k :: 0 <= k < n && Replaces(t, evs, k, p)
    ensures At(t, evs, n).peers[p].marked <==> t.peers[p].marked || exists k :: 0 <= k < n && evs[k] == Marks(p)
    ensures At(t, evs, n).peers[p].addr == t.peers[p].addr
  {
    if n > 0 {
      AtNext(t, evs, n - 1);
      FreedExact(t, evs, n - 1, p);
      StepFreed(At(t, evs, n - 1), evs[n - 1], p);
      if Replaces(t, evs, n - 1, p) {
        assert At(t, evs, n).peers[p].freed;
      }
    }
  }
}
