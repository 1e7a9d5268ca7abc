/**
 Recovery after a firmware crash. A round saves the bound peers, reopens every interface, reports
 the saved peers as gone and frees them; it may be cut short anywhere and started again.
 */
module Recovery {
  import opened Basics

  const PEERS: nat := 32

  datatype Kind = Sta | LegacyP2p | P2pDevice | Client | Ap | Adhoc | OtherKind

  datatype Iface = Iface(kind: Kind, lmac: nat, up: bool, bits: seq<bool>)

  /** `reports` and `frees` count what happened to a peer. */
  datatype Peer = Peer(deauthed: bool, reports: nat, frees: nat)

  /**
   `ctx` holds the bound peers of all contexts, `saved` those put aside, `maps` the peer maps put
   aside; `log` is who was opened this round.
   */
  datatype Core = Core(peers: seq<Peer>, ctx: seq<Option<nat>>, saved: seq<Option<nat>>, ifaces: seq<Option<Iface>>,
                       maps: seq<seq<bool>>, recovering: bool, openCount: nat, log: seq<nat>)

  /**
   What happens to one interface: an assertion seen before it, its open command, its access point's
   restart, and after how many stations an assertion cuts the flush short.
   */
  datatype Outcome = Outcome(asserted: bool, open: bool, restart: bool, stop: nat)

  datatype Env = Env(chip: bool, calib: bool, outs: seq<Outcome>)

  function Out(env: Env, i: nat): Outcome {
    if i < |env.outs| then env.outs[i] else Outcome(true, false, false, 0)
  }

  /* ---- The round ---- */

  function Nobody(n: nat): (r: seq<Option<nat>>)
    ensures |r| == n && forall i :: 0 <= i < n ==> r[i] == None
  {
    seq(n, _ => None)
  }

  function Unmapped(x: Option<Iface>): Option<Iface> {
    match x
    case None => None
    case Some(f) => Some(f.(bits := seq(|f.bits|, _ => false)))
  }

  function Closed(x: Option<Iface>): Option<Iface> {
    match x
    case None => None
    case Some(f) => Some(f.(up := false))
  }

  /** Puts the peers aside; a second time, it drops what is bound by then. */
  function Prepare(s: Core): Core
    requires |s.maps| == |s.ifaces|
  {
    var cleared := seq(|s.ifaces|, i requires 0 <= i < |s.ifaces| => Unmapped(s.ifaces[i]));
    if s.recovering then s.(ctx := Nobody(|s.ctx|), ifaces := cleared)
    else
      var kept := seq(|s.maps|, i requires 0 <= i < |s.maps| => if s.ifaces[i].Some? then s.ifaces[i].value.bits
          else s.maps[i]);
      s.(recovering := true, saved := s.ctx, ctx := Nobody(|s.ctx|), maps := kept, ifaces := cleared)
  }

  function CloseAll(s: Core): Core {
    s.(openCount := 0, log := [], ifaces := seq(|s.ifaces|, i requires 0 <= i < |s.ifaces| => Closed(s.ifaces[i])))
  }

  /** A peer after a report, if there is one: a marked peer is not reported again. */
  function Reported(x: Peer, report: bool): Peer {
    if report && !x.deauthed then Peer(true, x.reports + 1, x.frees) else x
  }

  function Report(peers: seq<Peer>, p: nat): seq<Peer>
    requires p < |peers|
  {
    if peers[p].deauthed then peers else peers[p := Reported(peers[p], true)]
  }

  predicate Refers(places: seq<Option<nat>>, n: nat) {
    forall i :: 0 <= i < |places| && places[i].Some? ==> places[i].value < n
  }

  /** Walks the set bits of a saved map from `k` on and reports the peers saved for them, at most `stop` bits. */
  function ReportAll(peers: seq<Peer>, saved: seq<Option<nat>>, base: nat, bits: seq<bool>, k: nat,
      stop: nat): (r: seq<Peer>)
    requires Refers(saved, |peers|) && base + |bits| <= |saved| && k <= |bits|
    ensures |r| == |peers|
    decreases |bits| - k
  {
    if k == |bits| then peers
    else if !bits[k] then ReportAll(peers, saved, base, bits, k + 1, stop)
    else if stop == 0 then peers
    else
      var next := if saved[base + k].Some? then Report(peers, saved[base + k].value) else peers;
      ReportAll(next, saved, base, bits, k + 1, stop - 1)
  }

  /** Numbers refer to what exists. */
  predicate Shaped(s: Core) {
    && |s.ctx| == |s.saved| && |s.maps| == |s.ifaces|
    && Refers(s.ctx, |s.peers|) && Refers(s.saved, |s.peers|)
    && (forall i :: 0 <= i < |s.maps| ==> |s.maps[i]| <= PEERS)
    && (forall i :: 0 <= i < |s.ifaces| && s.ifaces[i].Some? ==> Fits(s.ifaces[i].value, |s.saved|))
  }

  predicate Fits(f: Iface, slots: nat) {
    |f.bits| <= PEERS && f.lmac * PEERS + PEERS <= slots
  }

  /** What an interface does with its saved peers, by its kind. */
  function Restore(s: Core, i: nat, o: Outcome): Core
    requires Shaped(s) && i < |s.ifaces| && s.ifaces[i].Some?
  {
    var f := s.ifaces[i].value;
    assert Fits(f, |s.saved|);
    match f.kind
    case Sta => s.(peers := ReportAll(s.peers, s.saved, f.lmac * PEERS, s.maps[i], 0, PEERS))
    case Client => s.(peers := ReportAll(s.peers, s.saved, f.lmac * PEERS, s.maps[i], 0, PEERS))
    case Ap => if o.restart then s.(peers := ReportAll(s.peers, s.saved, f.lmac * PEERS, s.maps[i], 0, o.stop)) else s
    case _ => s
  }

  function MarkOpen(s: Core, i: nat): Core
    requires i < |s.ifaces| && s.ifaces[i].Some?
  {
    s.(openCount := s.openCount + 1, log := s.log + [i], ifaces := s.ifaces[i := Some(s.ifaces[i].value.(up := true))])
  }

  /** One interface; false ends the round. */
  function Reopen(s: Core, i: nat, o: Outcome): (Core, bool)
    requires Shaped(s) && i < |s.ifaces|
  {
    if s.ifaces[i].None? then (s, true)
    else if o.asserted || !o.open then (s, false)
    else (MarkOpen(Restore(s, i, o), i), true)
  }

  /** Stations and P2P devices come first. */
  predicate Early(k: Kind) {
    k.Sta? || k.LegacyP2p? || k.P2pDevice?
  }

  predicate Due(s: Core, i: nat, early: bool)
    requires i < |s.ifaces|
  {
    s.ifaces[i].Some? && Early(s.ifaces[i].value.kind) == early
  }

  lemma ReopenShaped(s: Core, i: nat, o: Outcome)
    requires Shaped(s) && i < |s.ifaces|
    ensures var (r, ok) := Reopen(s, i, o);
            && Shaped(r) && |r.ifaces| == |s.ifaces| && |r.peers| == |s.peers| && r.saved == s.saved && r.ctx == s.ctx
            && r.maps == s.maps && r.recovering == s.recovering
            && r.ifaces == (if ok && s.ifaces[i].Some? then s.ifaces[i := Some(s.ifaces[i].value.(up := true))]
                else s.ifaces)
  {
  }

  /** One pass over the interfaces from `k` on. */
  function Pass(s: Core, k: nat, early: bool, env: Env): (Core, bool)
    requires Shaped(s) && k <= |s.ifaces|
    decreases |s.ifaces| - k
  {
    if k == |s.ifaces| then (s, true)
    else if !Due(s, k, early) then Pass(s, k + 1, early, env)
    else
      ReopenShaped(s, k, Out(env, k));
      var (r, ok) := Reopen(s, k, Out(env, k));
      if ok then Pass(r, k + 1, early, env) else (r, false)
  }

  function Freed(peers: seq<Peer>, p: nat): seq<Peer>
    requires p < |peers|
  {
    peers[p := peers[p].(frees := peers[p].frees + 1)]
  }

  function FreeAll(peers: seq<Peer>, saved: seq<Option<nat>>, k: nat): (r: seq<Peer>)
    requires Refers(saved, |peers|) && k <= |saved|
    ensures |r| == |peers|
    decreases |saved| - k
  {
    if k == |saved| then peers
    else
      var next := if saved[k].Some? then Freed(peers, saved[k].value) else peers;
      FreeAll(next, saved, k + 1)
  }

  /** Frees the peers put aside. */
  function Drop(s: Core): Core
    requires Shaped(s)
  {
    s.(peers := FreeAll(s.peers, s.saved, 0), saved := Nobody(|s.saved|))
  }

  function Finish(s: Core): Core
    requires Shaped(s)
  {
    Drop(s).(recovering := false)
  }

  lemma PrepareShaped(s: Core)
    requires Shaped(s)
    ensures Shaped(CloseAll(Prepare(s)))
    ensures |Prepare(s).ifaces| == |s.ifaces|
  {
    var a := CloseAll(Prepare(s));
    forall i | 0 <= i < |a.ifaces| && a.ifaces[i].Some? ensures Fits(a.ifaces[i].value, |a.saved|) {
      assert Fits(s.ifaces[i].value, |s.saved|);
    }
  }

  lemma {:induction false} PassShaped(s: Core, k: nat, early: bool, env: Env)
    requires Shaped(s) && k <= |s.ifaces|
    ensures Shaped(Pass(s, k, early, env).0)
    ensures |Pass(s, k, early, env).0.ifaces| == |s.ifaces|
    decreases |s.ifaces| - k
  {
    if k < |s.ifaces| {
      if Due(s, k, early) {
        ReopenShaped(s, k, Out(env, k));
        var (r, ok) := Reopen(s, k, Out(env, k));
        if ok {
          PassShaped(r, k + 1, early, env);
        }
      } else {
        PassShaped(s, k + 1, early, env);
      }
    }
  }

  /** A whole round; true if it completes. */
  function Round(s: Core, env: Env): (Core, bool)
    requires Shaped(s)
  {
    PrepareShaped(s);
    var a := CloseAll(Prepare(s));
    if !env.chip || !env.calib then (a, false)
    else
      PassShaped(a, 0, true, env);
      var (b, ok) := Pass(a, 0, true, env);
      if !ok then (b, false)
      else
        PassShaped(b, 0, false, env);
        var (c, done) := Pass(b, 0, false, env);
        if done then (Finish(c), true) else (c, false)
  }

  /* ---- Peers ---- */

  predicate PeerOk(x: Peer) {
    x.frees <= 1 && x.reports <= 1 && (x.reports == 1 ==> x.deauthed)
  }

  predicate NoDup(q: seq<Option<nat>>) {
    forall i, j :: 0 <= i < j < |q| && q[i].Some? ==> q[i] != q[j]
  }

  predicate Apart(q: seq<Option<nat>>, r: seq<Option<nat>>) {
    forall i, j :: 0 <= i < |q| && 0 <= j < |r| && q[i].Some? ==> q[i] != r[j]
  }

  predicate Live(peers: seq<Peer>, q: seq<Option<nat>>)
    requires Refers(q, |peers|)
  {
    forall i :: 0 <= i < |q| && q[i].Some? ==> peers[q[i].value].frees == 0
  }

  /**
   Peers are held in one place and alive there, reported and freed at most once, and put aside only
   during recovery.
   */
  predicate Inv(s: Core) {
    && Shaped(s)
    && NoDup(s.ctx) && NoDup(s.saved) && Apart(s.ctx, s.saved)
    && Live(s.peers, s.ctx) && Live(s.peers, s.saved)
    && (forall p :: 0 <= p < |s.peers| ==> PeerOk(s.peers[p]))
    && (!s.recovering ==> s.saved == Nobody(|s.saved|))
  }

  /** Reporting: a peer is marked by exactly one report, or nothing happens to it. */
  predicate Told(x: Peer, y: Peer) {
    y == x || y == Reported(x, true)
  }

  predicate AllTold(peers: seq<Peer>, r: seq<Peer>) {
    |r| == |peers| && forall p :: 0 <= p < |peers| ==> Told(peers[p], r[p])
  }

  lemma AllToldTrans(a: seq<Peer>, b: seq<Peer>, c: seq<Peer>)
    requires AllTold(a, b) && AllTold(b, c)
    ensures AllTold(a, c)
  {
    forall p | 0 <= p < |a| ensures Told(a[p], c[p]) {
      assert Told(a[p], b[p]) && Told(b[p], c[p]);
    }
  }

  lemma {:induction false} ReportAllTold(peers: seq<Peer>, saved: seq<Option<nat>>, base: nat, bits: seq<bool>,
      k: nat, stop: nat)
    requires Refers(saved, |peers|) && base + |bits| <= |saved| && k <= |bits|
    ensures AllTold(peers, ReportAll(peers, saved, base, bits, k, stop))
    decreases |bits| - k
  {
    if k < |bits| {
      if !bits[k] {
        ReportAllTold(peers, saved, base, bits, k + 1, stop);
      } else if stop > 0 {
        var next := if saved[base + k].Some? then Report(peers, saved[base + k].value) else peers;
        assert AllTold(peers, next);
        ReportAllTold(next, saved, base, bits, k + 1, stop - 1);
        AllToldTrans(peers, next, ReportAll(next, saved, base, bits, k + 1, stop - 1));
      }
    }
  }

  /** Without a cut, every peer saved for a set bit ends up reported. */
  lemma {:induction false} ReportAllMarks(peers: seq<Peer>, saved: seq<Option<nat>>, base: nat, bits: seq<bool>,
      k: nat, stop: nat, b: nat)
    requires Refers(saved, |peers|) && base + |bits| <= |saved| && k <= b < |bits| && bits[b] && saved[base + b].Some?
    requires stop >= |bits| - k
    ensures ReportAll(peers, saved, base, bits, k, stop)[saved[base + b].value].deauthed
    decreases |bits| - k
  {
    if !bits[k] {
      ReportAllMarks(peers, saved, base, bits, k + 1, stop, b);
    } else {
      var next := if saved[base + k].Some? then Report(peers, saved[base + k].value) else peers;
      if k < b {
        ReportAllMarks(next, saved, base, bits, k + 1, stop - 1, b);
      } else {
        var p := saved[base + b].value;
        ReportAllTold(next, saved, base, bits, k + 1, stop - 1);
        assert Told(next[p], ReportAll(next, saved, base, bits, k + 1, stop - 1)[p]);
      }
    }
  }

  /** A pass only reports peers. */
  predicate Kept(s: Core, r: Core) {
    && r.ctx == s.ctx && r.saved == s.saved && r.maps == s.maps && r.recovering == s.recovering
    && |r.ifaces| == |s.ifaces| && AllTold(s.peers, r.peers)
  }

  lemma KeptTrans(a: Core, b: Core, c: Core)
    requires Kept(a, b) && Kept(b, c)
    ensures Kept(a, c)
  {
    AllToldTrans(a.peers, b.peers, c.peers);
  }

  lemma ReopenKept(s: Core, i: nat, o: Outcome)
    requires Shaped(s) && i < |s.ifaces|
    ensures Kept(s, Reopen(s, i, o).0)
  {
    ReopenShaped(s, i, o);
    if s.ifaces[i].Some? {
      var f := s.ifaces[i].value;
      assert Fits(f, |s.saved|);
      ReportAllTold(s.peers, s.saved, f.lmac * PEERS, s.maps[i], 0, if f.kind.Ap? then o.stop else PEERS);
    }
  }

  lemma {:induction false} PassKept(s: Core, k: nat, early: bool, env: Env)
    requires Shaped(s) && k <= |s.ifaces|
    ensures Kept(s, Pass(s, k, early, env).0)
    decreases |s.ifaces| - k
  {
    if k < |s.ifaces| {
      if Due(s, k, early) {
        ReopenShaped(s, k, Out(env, k));
        ReopenKept(s, k, Out(env, k));
        var (r, ok) := Reopen(s, k, Out(env, k));
        if ok {
          PassKept(r, k + 1, early, env);
          KeptTrans(s, r, Pass(r, k + 1, early, env).0);
        }
      } else {
        PassKept(s, k + 1, early, env);
      }
    }
  }

  lemma KeptInv(s: Core, r: Core)
    requires Inv(s) && Kept(s, r) && Shaped(r)
    ensures Inv(r)
  {
    forall p | 0 <= p < |r.peers| ensures PeerOk(r.peers[p]) && r.peers[p].frees == s.peers[p].frees {
      assert Told(s.peers[p], r.peers[p]) && PeerOk(s.peers[p]);
    }
  }

  lemma PrepareInv(s: Core)
    requires Inv(s)
    ensures Inv(CloseAll(Prepare(s)))
  {
    PrepareShaped(s);
  }

  lemma {:induction false} FreeAllExact(peers: seq<Peer>, saved: seq<Option<nat>>, k: nat, p: nat)
    requires Refers(saved, |peers|) && k <= |saved| && p < |peers| && NoDup(saved)
    ensures FreeAll(peers, saved, k)[p] == peers[p].(frees := peers[p].frees + if Some(p) in saved[k..] then 1 else 0)
    decreases |saved| - k
  {
    if k < |saved| {
      var next := if saved[k].Some? then Freed(peers, saved[k].value) else peers;
      FreeAllExact(next, saved, k + 1, p);
      assert saved[k..] == [saved[k]] + saved[k + 1..];
      assert saved[k] == Some(p) ==> Some(p) !in saved[k + 1..];
    }
  }

  lemma DropInv(s: Core)
    requires Inv(s)
    ensures Inv(Drop(s)) && Inv(Finish(s))
    ensures forall p :: 0 <= p < |s.peers| ==>
              Drop(s).peers[p] == s.peers[p].(frees := if Some(p) in s.saved then 1 else s.peers[p].frees)
  {
    var r := Drop(s);
    forall p | 0 <= p < |s.peers|
      ensures r.peers[p] == s.peers[p].(frees := if Some(p) in s.saved then 1 else s.peers[p].frees)
          && PeerOk(r.peers[p])
    {
      FreeAllExact(s.peers, s.saved, 0, p);
      assert s.saved[0..] == s.saved;
      assert PeerOk(s.peers[p]);
    }
    assert Shaped(r);
    forall i | 0 <= i < |s.ctx| && s.ctx[i].Some? ensures r.peers[s.ctx[i].value].frees == 0 {
      assert s.ctx[i] !in s.saved;
    }
  }

  /** What a round comes to: `c` is where its passes ended. */
  lemma RoundParts(s: Core, env: Env) returns (c: Core)
    requires Inv(s)
    ensures Inv(c) && Kept(CloseAll(Prepare(s)), c)
    ensures Round(s, env) == if Round(s, env).1 then (Finish(c), true) else (c, false)
    ensures Round(s, env).1 ==>
              var a := CloseAll(Prepare(s));
              && Shaped(a) && Pass(a, 0, true, env).1
              && var b := Pass(a, 0, true, env).0;
                 Shaped(b) && Pass(b, 0, false, env) == (c, true)
  {
    PrepareShaped(s);
    PrepareInv(s);
    c := CloseAll(Prepare(s));
    AllToldSame(c.peers);
    if env.chip && env.calib {
      PassShaped(c, 0, true, env);
      PassKept(c, 0, true, env);
      var (b, ok) := Pass(c, 0, true, env);
      KeptInv(c, b);
      if ok {
        PassShaped(b, 0, false, env);
        PassKept(b, 0, false, env);
        var d := Pass(b, 0, false, env).0;
        KeptInv(b, d);
        KeptTrans(c, b, d);
        c := d;
      } else {
        c := b;
      }
    }
  }

  lemma AllToldSame(peers: seq<Peer>)
    ensures AllTold(peers, peers)
  {
    assert forall p :: 0 <= p < |peers| ==> Told(peers[p], peers[p]);
  }

  lemma {:induction false} RoundInv(s: Core, env: Env)
    requires Inv(s)
    ensures Inv(Round(s, env).0)
  {
    var c := RoundParts(s, env);
    DropInv(c);
  }

  /** Who is put aside in a round: those bound, or those already put aside when a round before it was cut short. */
  function Aside(s: Core): seq<Option<nat>> {
    if s.recovering then s.saved else s.ctx
  }

  /** A completed round frees exactly the peers put aside, each once; a round cut short frees nobody and keeps them. */
  lemma {:induction false} RoundFrees(s: Core, env: Env, p: nat)
    requires Inv(s) && p < |s.peers|
    ensures var (r, done) := Round(s, env);
            && |r.peers| == |s.peers|
            && r.peers[p].frees == (if done && Some(p) in Aside(s) then 1 else s.peers[p].frees)
            && r.saved == (if done then Nobody(|s.saved|) else Aside(s))
            && r.ctx == Nobody(|s.ctx|) && r.recovering == !done
  {
    var c := RoundParts(s, env);
    DropInv(c);
    assert c.saved == Aside(s);
    assert Told(s.peers[p], c.peers[p]);
  }

  /** Every peer is held somewhere or has been freed. */
  predicate Accounted(s: Core) {
    forall p :: 0 <= p < |s.peers| ==> Covered(s, p)
  }

  predicate Covered(s: Core, p: nat)
    requires p < |s.peers|
  {
    s.peers[p].frees == 1 || Some(p) in s.ctx || Some(p) in s.saved
  }

  /** A round loses track of no peer, except of those bound since a round was cut short. */
  lemma {:induction false} RoundAccounted(s: Core, env: Env)
    requires Inv(s) && Accounted(s)
    ensures Accounted(Round(s, env).0) <==> !s.recovering || s.ctx == Nobody(|s.ctx|)
  {
    var r := Round(s, env).0;
    forall p | 0 <= p < |s.peers| ensures |r.peers| == |s.peers|
        && (Covered(r, p) <==> s.peers[p].frees == 1 || Some(p) in Aside(s)) {
      RoundFrees(s, env, p);
      if Some(p) in Aside(s) {
        HeldLive(s, p);
      }
    }
    var c := RoundParts(s, env);
    assert |r.peers| == |s.peers|;
    if s.recovering && s.ctx != Nobody(|s.ctx|) {
      var i :| 0 <= i < |s.ctx| && s.ctx[i].Some?;
      var p := s.ctx[i].value;
      assert Some(p) !in s.saved && s.peers[p].frees == 0;
      assert !Covered(r, p);
    } else {
      forall p | 0 <= p < |r.peers| ensures Covered(r, p) {
        assert Covered(s, p);
      }
    }
  }

  lemma HeldLive(s: Core, p: nat)
    requires Inv(s) && (Some(p) in s.ctx || Some(p) in s.saved)
    ensures p < |s.peers| && s.peers[p].frees == 0
  {
  }

  /* ---- Interfaces ---- */

  function DueFrom(s: Core, k: nat, early: bool): seq<nat>
    requires k <= |s.ifaces|
    decreases |s.ifaces| - k
  {
    if k == |s.ifaces| then []
    else if Due(s, k, early) then [k] + DueFrom(s, k + 1, early)
    else DueFrom(s, k + 1, early)
  }

  /** The same interfaces, possibly opened. */
  predicate SameIfaces(s: Core, r: Core) {
    && |r.ifaces| == |s.ifaces|
    && forall i :: 0 <= i < |s.ifaces| ==>
         && (s.ifaces[i].Some? <==> r.ifaces[i].Some?)
         && (s.ifaces[i].Some? ==> r.ifaces[i].value.kind == s.ifaces[i].value.kind)
         && (s.ifaces[i].Some? ==> r.ifaces[i].value.lmac == s.ifaces[i].value.lmac)
  }

  lemma {:induction false} DueSame(s: Core, r: Core, k: nat, early: bool)
    requires SameIfaces(s, r) && k <= |s.ifaces|
    ensures DueFrom(s, k, early) == DueFrom(r, k, early)
    decreases |s.ifaces| - k
  {
    if k < |s.ifaces| {
      DueSame(s, r, k + 1, early);
    }
  }

  lemma ReopenLogs(s: Core, i: nat, o: Outcome)
    requires Shaped(s) && i < |s.ifaces| && s.ifaces[i].Some?
    ensures var (r, ok) := Reopen(s, i, o);
            && SameIfaces(s, r)
            && r.log == (if ok then s.log + [i] else s.log)
                && r.openCount == (if ok then s.openCount + 1 else s.openCount)
            && (ok ==> r.ifaces[i].Some? && r.ifaces[i].value.up)
  {
    ReopenShaped(s, i, o);
  }

  lemma {:induction false} PassSame(s: Core, k: nat, early: bool, env: Env)
    requires Shaped(s) && k <= |s.ifaces|
    ensures SameIfaces(s, Pass(s, k, early, env).0)
    decreases |s.ifaces| - k
  {
    if k < |s.ifaces| {
      if Due(s, k, early) {
        ReopenShaped(s, k, Out(env, k));
        ReopenLogs(s, k, Out(env, k));
        var (r, ok) := Reopen(s, k, Out(env, k));
        if ok {
          PassSame(r, k + 1, early, env);
          SameTrans(s, r, Pass(r, k + 1, early, env).0);
        }
      } else {
        PassSame(s, k + 1, early, env);
      }
    }
  }

  lemma SameTrans(a: Core, b: Core, c: Core)
    requires SameIfaces(a, b) && SameIfaces(b, c)
    ensures SameIfaces(a, c)
  {
  }

  predicate Logged(before: seq<nat>, due: seq<nat>, after: seq<nat>) {
    after == before + due
  }

  lemma LoggedMore(before: seq<nat>, k: nat, due: seq<nat>, after: seq<nat>)
    requires Logged(before + [k], due, after)
    ensures Logged(before, [k] + due, after)
  {
  }

  /** A pass opens exactly the interfaces due in it, in order. */
  lemma {:induction false} PassLogs(s: Core, k: nat, early: bool, env: Env)
    requires Shaped(s) && k <= |s.ifaces| && Pass(s, k, early, env).1
    ensures Logged(s.log, DueFrom(s, k, early), Pass(s, k, early, env).0.log)
    decreases |s.ifaces| - k
  {
    if k < |s.ifaces| {
      if Due(s, k, early) {
        ReopenShaped(s, k, Out(env, k));
        ReopenLogs(s, k, Out(env, k));
        var r := Reopen(s, k, Out(env, k)).0;
        PassLogs(r, k + 1, early, env);
        DueSame(s, r, k + 1, early);
        LoggedMore(s.log, k, DueFrom(s, k + 1, early), Pass(r, k + 1, early, env).0.log);
      } else {
        PassLogs(s, k + 1, early, env);
      }
    }
  }

  function Ups(s: Core, n: nat): nat
    requires n <= |s.ifaces|
  {
    if n == 0 then 0 else Ups(s, n - 1) + if s.ifaces[n - 1].Some? && s.ifaces[n - 1].value.up then 1 else 0
  }

  lemma {:induction false} UpsMore(s: Core, r: Core, i: nat, n: nat)
    requires n <= |s.ifaces| == |r.ifaces| && i < |s.ifaces| && s.ifaces[i].Some? && !s.ifaces[i].value.up
    requires r.ifaces == s.ifaces[i := Some(s.ifaces[i].value.(up := true))]
    ensures Ups(r, n) == Ups(s, n) + if i < n then 1 else 0
  {
    if n > 0 {
      UpsMore(s, r, i, n - 1);
    }
  }

  /** The count and the log follow the interfaces that are up. */
  predicate Counts(s: Core) {
    s.openCount == |s.log| == Ups(s, |s.ifaces|)
  }

  /** No interface that is still due is up. */
  predicate Pristine(s: Core, k: nat, early: bool) {
    forall i :: k <= i < |s.ifaces| && Due(s, i, early) ==> !s.ifaces[i].value.up
  }

  lemma {:induction false} PassCounts(s: Core, k: nat, early: bool, env: Env)
    requires Shaped(s) && k <= |s.ifaces| && Counts(s) && Pristine(s, k, early)
    ensures Counts(Pass(s, k, early, env).0)
    decreases |s.ifaces| - k
  {
    if k < |s.ifaces| {
      if Due(s, k, early) {
        ReopenShaped(s, k, Out(env, k));
        ReopenLogs(s, k, Out(env, k));
        var (r, ok) := Reopen(s, k, Out(env, k));
        if ok {
          UpsMore(s, r, k, |s.ifaces|);
          PassCounts(r, k + 1, early, env);
        } else {
          assert r == s;
        }
      } else {
        PassCounts(s, k + 1, early, env);
      }
    }
  }

  /** The first pass leaves alone what the second one opens. */
  lemma {:induction false} PassSpares(s: Core, k: nat, env: Env)
    requires Shaped(s) && k <= |s.ifaces| && Pristine(s, 0, false)
    ensures Pristine(Pass(s, k, true, env).0, 0, false)
    decreases |s.ifaces| - k
  {
    if k < |s.ifaces| {
      if Due(s, k, true) {
        ReopenShaped(s, k, Out(env, k));
        var (r, ok) := Reopen(s, k, Out(env, k));
        assert Pristine(r, 0, false);
        if ok {
          PassSpares(r, k + 1, env);
        }
      } else {
        PassSpares(s, k + 1, env);
      }
    }
  }

  lemma {:induction false} NoneUp(s: Core, n: nat)
    requires n <= |s.ifaces| && forall i :: 0 <= i < |s.ifaces| && s.ifaces[i].Some? ==> !s.ifaces[i].value.up
    ensures Ups(s, n) == 0
  {
    if n > 0 {
      NoneUp(s, n - 1);
    }
  }

  /** After any round, cut short or not, the driver's count is the number of interfaces that are up. */
  lemma RoundCounts(s: Core, env: Env)
    requires Inv(s)
    ensures Counts(Round(s, env).0)
  {
    PrepareShaped(s);
    var a := CloseAll(Prepare(s));
    NoneUp(a, |a.ifaces|);
    PassCounts(a, 0, true, env);
    PassShaped(a, 0, true, env);
    PassSpares(a, 0, env);
    var (b, ok) := Pass(a, 0, true, env);
    if ok {
      PassCounts(b, 0, false, env);
      var c := Pass(b, 0, false, env).0;
      PassShaped(b, 0, false, env);
      SameUps(c, Finish(c), |c.ifaces|);
    }
  }

  lemma {:induction false} SameUps(s: Core, r: Core, n: nat)
    requires s.ifaces == r.ifaces && n <= |s.ifaces|
    ensures Ups(s, n) == Ups(r, n)
  {
    if n > 0 {
      SameUps(s, r, n - 1);
    }
  }

  lemma {:induction false} PassOpens(s: Core, k: nat, early: bool, env: Env, i: nat)
    requires Shaped(s) && k <= |s.ifaces| && i < |s.ifaces| && s.ifaces[i].Some?
    requires Pass(s, k, early, env).1 && (s.ifaces[i].value.up || (k <= i && Due(s, i, early)))
    ensures var r := Pass(s, k, early, env).0;
            |r.ifaces| == |s.ifaces| && r.ifaces[i].Some? && r.ifaces[i].value.up
    decreases |s.ifaces| - k
  {
    if k < |s.ifaces| {
      if Due(s, k, early) {
        ReopenShaped(s, k, Out(env, k));
        PassOpens(Reopen(s, k, Out(env, k)).0, k + 1, early, env, i);
      } else {
        PassOpens(s, k + 1, early, env, i);
      }
    }
  }

  lemma {:induction false} DueOnce(s: Core, k: nat, early: bool, i: nat)
    requires k <= |s.ifaces|
    ensures multiset(DueFrom(s, k, early))[i] == if k <= i < |s.ifaces| && Due(s, i, early) then 1 else 0
    decreases |s.ifaces| - k
  {
    if k < |s.ifaces| {
      DueOnce(s, k + 1, early, i);
      Occurs(k, DueFrom(s, k + 1, early), i);
    }
  }

  lemma Occurs(k: nat, b: seq<nat>, i: nat)
    ensures multiset([k] + b)[i] == (if k == i then 1 else 0) + multiset(b)[i]
  {
    assert multiset([k] + b) == multiset([k]) + multiset(b);
  }

  lemma PrepareSame(s: Core)
    requires Shaped(s)
    ensures SameIfaces(s, CloseAll(Prepare(s)))
  {
  }

  function Existing(s: Core, n: nat): nat
    requires n <= |s.ifaces|
  {
    if n == 0 then 0 else Existing(s, n - 1) + if s.ifaces[n - 1].Some? then 1 else 0
  }

  lemma {:induction false} DueCount(s: Core, k: nat)
    requires k <= |s.ifaces|
    ensures |DueFrom(s, k, true)| + |DueFrom(s, k, false)| + Existing(s, k) == Existing(s, |s.ifaces|)
    decreases |s.ifaces| - k
  {
    if k < |s.ifaces| {
      DueCount(s, k + 1);
    }
  }

  lemma PassesLog(a: Core, env: Env)
    requires Shaped(a) && a.log == [] && Pass(a, 0, true, env).1
    requires Shaped(Pass(a, 0, true, env).0) && Pass(Pass(a, 0, true, env).0, 0, false, env).1
    ensures Pass(Pass(a, 0, true, env).0, 0, false, env).0.log == DueFrom(a, 0, true) + DueFrom(a, 0, false)
  {
    var b := Pass(a, 0, true, env).0;
    PassLogs(a, 0, true, env);
    PassLogs(b, 0, false, env);
    PassSame(a, 0, true, env);
    DueSame(a, b, 0, false);
  }

  /** The log of a completed round: the early interfaces, then the others. */
  lemma RoundLog(s: Core, env: Env)
    requires Inv(s) && Round(s, env).1
    ensures Round(s, env).0.log == DueFrom(s, 0, true) + DueFrom(s, 0, false)
  {
    var c := RoundParts(s, env);
    PrepareSame(s);
    var a := CloseAll(Prepare(s));
    PassesLog(a, env);
    DueSame(s, a, 0, true);
    DueSame(s, a, 0, false);
  }

  /** A completed round opens every interface exactly once; all are up and the driver's count is their number. */
  lemma {:induction false} RoundOpens(s: Core, env: Env)
    requires Inv(s) && Round(s, env).1
    ensures var r := Round(s, env).0;
            && r.openCount == |r.log| == Existing(s, |s.ifaces|)
            && (forall i :: 0 <= i < |s.ifaces| ==> multiset(r.log)[i] == if s.ifaces[i].Some? then 1 else 0)
  {
    RoundLog(s, env);
    RoundCounts(s, env);
    DueCount(s, 0);
    forall i | 0 <= i < |s.ifaces| ensures multiset(Round(s, env).0.log)[i] == if s.ifaces[i].Some? then 1 else 0 {
      DueOnce(s, 0, true, i);
      DueOnce(s, 0, false, i);
    }
  }

  lemma RoundUp(s: Core, env: Env, i: nat)
    requires Inv(s) && Round(s, env).1 && i < |s.ifaces| && s.ifaces[i].Some?
    ensures var r := Round(s, env).0;
            |r.ifaces| == |s.ifaces| && r.ifaces[i].Some? && r.ifaces[i].value.up
  {
    var c := RoundParts(s, env);
    PrepareShaped(s);
    PrepareSame(s);
    var a := CloseAll(Prepare(s));
    PassShaped(a, 0, true, env);
    PassSame(a, 0, true, env);
    var b := Pass(a, 0, true, env).0;
    if Due(a, i, true) {
      PassOpens(a, 0, true, env, i);
    }
    PassOpens(b, 0, false, env, i);
  }

  /** Where a round starts from. */
  function Start(s: Core): (r: Core)
    requires Shaped(s)
    ensures Shaped(r) && |r.ifaces| == |s.ifaces|
  {
    PrepareShaped(s);
    CloseAll(Prepare(s))
  }

  /** Stations, also those that stand in for a P2P device, and P2P devices. */
  predicate First(s: Core, i: nat) {
    i < |s.ifaces| && s.ifaces[i].Some? && s.ifaces[i].value.kind in {Sta, LegacyP2p, P2pDevice}
  }

  /** Interfaces from `k` on, all of one kind of turn, in order. */
  predicate InTurn(s: Core, due: seq<nat>, k: nat, early: bool) {
    && (forall j :: 0 <= j < |due| ==> k <= due[j] < |s.ifaces| && First(s, due[j]) == early)
    && (forall j, l :: 0 <= j < l < |due| ==> due[j] < due[l])
  }

  lemma InTurnMore(s: Core, rest: seq<nat>, k: nat, early: bool)
    requires k < |s.ifaces| && InTurn(s, rest, k + 1, early) && First(s, k) == early
    ensures InTurn(s, [k] + rest, k, early)
  {
  }

  lemma {:induction false} DueOrder(s: Core, k: nat, early: bool)
    requires k <= |s.ifaces|
    ensures InTurn(s, DueFrom(s, k, early), k, early)
    decreases |s.ifaces| - k
  {
    if k < |s.ifaces| {
      DueOrder(s, k + 1, early);
      if Due(s, k, early) {
        InTurnMore(s, DueFrom(s, k + 1, early), k, early);
      }
    }
  }

  /** A completed round opens stations and P2P devices before all others, and either in order of their numbers. */
  lemma {:induction false} RoundOrder(s: Core, env: Env)
    requires Inv(s) && Round(s, env).1
    ensures var log := Round(s, env).0.log;
            forall j, l :: 0 <= j < l < |log| ==>
              (First(s, log[j]) && !First(s, log[l])) || (First(s, log[j]) == First(s, log[l]) && log[j] < log[l])
  {
    RoundLog(s, env);
    DueOrder(s, 0, true);
    DueOrder(s, 0, false);
  }

  /** No assertion has been seen when it is the interface's turn, and it opens. */
  predicate Opens(s: Core, i: nat, env: Env)
    requires i < |s.ifaces|
  {
    s.ifaces[i].Some? ==> !Out(env, i).asserted && Out(env, i).open
  }

  lemma {:induction false} PassExact(s: Core, k: nat, early: bool, env: Env)
    requires Shaped(s) && k <= |s.ifaces|
    ensures Pass(s, k, early, env).1 <==> forall i :: k <= i < |s.ifaces| && Due(s, i, early) ==> Opens(s, i, env)
    decreases |s.ifaces| - k
  {
    if k < |s.ifaces| {
      if Due(s, k, early) {
        ReopenShaped(s, k, Out(env, k));
        var (r, ok) := Reopen(s, k, Out(env, k));
        if ok {
          PassExact(r, k + 1, early, env);
          forall i | k < i < |s.ifaces|
            ensures Due(r, i, early) == Due(s, i, early) && Opens(r, i, env) == Opens(s, i, env)
          {
          }
        }
      } else {
        PassExact(s, k + 1, early, env);
      }
    }
  }

  /** A round completes exactly if the chip answers and is calibrated and every interface opens. */
  lemma {:induction false} RoundCompletes(s: Core, env: Env)
    requires Inv(s)
    ensures Round(s, env).1 <==> env.chip && env.calib && forall i :: 0 <= i < |s.ifaces| ==> Opens(s, i, env)
  {
    var a := Start(s);
    PrepareSame(s);
    PassExact(a, 0, true, env);
    PassShaped(a, 0, true, env);
    PassSame(a, 0, true, env);
    var b := Pass(a, 0, true, env).0;
    PassExact(b, 0, false, env);
    forall i | 0 <= i < |s.ifaces|
      ensures Opens(a, i, env) == Opens(s, i, env) && Opens(b, i, env) == Opens(s, i, env)
      ensures s.ifaces[i].Some? ==> Due(a, i, true) || Due(b, i, false)
    {
    }
  }

  /* ---- Every saved station is told ---- */

  /** Interface `i` serves peers as a station, and put peer `p` aside for bit `b` of its map. */
  predicate Awaits(s: Core, i: nat, b: nat, p: nat)
    requires Shaped(s) && i < |s.ifaces|
  {
    && s.ifaces[i].Some? && (s.ifaces[i].value.kind.Sta? || s.ifaces[i].value.kind.Client?)
    && b < |s.maps[i]| && s.maps[i][b]
    && s.ifaces[i].value.lmac * PEERS + b < |s.saved| && s.saved[s.ifaces[i].value.lmac * PEERS + b] == Some(p)
  }

  lemma ReopenMarks(s: Core, i: nat, o: Outcome, b: nat, p: nat)
    requires Shaped(s) && i < |s.ifaces| && Awaits(s, i, b, p) && Reopen(s, i, o).1
    ensures p < |s.peers| == |Reopen(s, i, o).0.peers| && Reopen(s, i, o).0.peers[p].deauthed
  {
    var f := s.ifaces[i].value;
    assert Fits(f, |s.saved|);
    ReopenShaped(s, i, o);
    ReportAllMarks(s.peers, s.saved, f.lmac * PEERS, s.maps[i], 0, PEERS, b);
  }

  lemma ReopenAwaits(s: Core, k: nat, o: Outcome, i: nat, early: bool, b: nat, p: nat)
    requires Shaped(s) && k < |s.ifaces| && i < |s.ifaces| && Awaits(s, i, b, p) && Due(s, i, early)
    ensures var r := Reopen(s, k, o).0;
            && Shaped(r) && |r.ifaces| == |s.ifaces| && |r.peers| == |s.peers|
            && Awaits(r, i, b, p) && Due(r, i, early)
  {
    ReopenShaped(s, k, o);
  }

  lemma PassKeepsMark(s: Core, k: nat, early: bool, env: Env, p: nat)
    requires Shaped(s) && k <= |s.ifaces| && p < |s.peers| && s.peers[p].deauthed
    ensures |Pass(s, k, early, env).0.peers| == |s.peers| && Pass(s, k, early, env).0.peers[p].deauthed
  {
    PassKept(s, k, early, env);
    assert Told(s.peers[p], Pass(s, k, early, env).0.peers[p]);
  }

  lemma {:induction false} PassMarks(s: Core, k: nat, early: bool, env: Env, i: nat, b: nat, p: nat)
    requires Shaped(s) && k <= i < |s.ifaces| && Awaits(s, i, b, p) && Due(s, i, early) && Pass(s, k, early, env).1
    ensures p < |s.peers| == |Pass(s, k, early, env).0.peers| && Pass(s, k, early, env).0.peers[p].deauthed
    decreases |s.ifaces| - k
  {
    if Due(s, k, early) {
      var r := Reopen(s, k, Out(env, k)).0;
      ReopenAwaits(s, k, Out(env, k), i, early, b, p);
      if k == i {
        ReopenMarks(s, k, Out(env, k), b, p);
        PassKeepsMark(r, k + 1, early, env, p);
      } else {
        PassMarks(r, k + 1, early, env, i, b, p);
      }
    } else {
      PassMarks(s, k + 1, early, env, i, b, p);
    }
  }

  /** A completed round reports every peer that a station or client interface finds put aside, once, and frees it. */
  lemma AsideReported(s: Core, env: Env, i: nat, b: nat, p: nat)
    requires Inv(s) && Round(s, env).1 && i < |s.ifaces|
    requires Awaits(Start(s), i, b, p)
    ensures p < |s.peers| == |Round(s, env).0.peers|
    ensures Round(s, env).0.peers[p] == Reported(s.peers[p], true).(frees := 1)
    ensures !s.peers[p].deauthed ==> Round(s, env).0.peers[p].reports == 1
  {
    var c := RoundParts(s, env);
    var a := Start(s);
    PassShaped(a, 0, true, env);
    PassSame(a, 0, true, env);
    PassKept(a, 0, true, env);
    var b1 := Pass(a, 0, true, env).0;
    PassKept(b1, 0, false, env);
    if Due(a, i, true) {
      PassMarks(a, 0, true, env, i, b, p);
      assert Told(b1.peers[p], c.peers[p]);
    } else {
      PassMarks(b1, 0, false, env, i, b, p);
    }
    assert Told(s.peers[p], c.peers[p]) && PeerOk(s.peers[p]);
    assert Some(p) in c.saved;
    DropInv(c);
  }

  /* ---- Which stations of an access point are told ---- */

  /** How many bits are set from `k` up to `b`. */
  function Rank(bits: seq<bool>, k: nat, b: nat): nat
    requires k <= b <= |bits|
    decreases b - k
  {
    if k == b then 0 else (if bits[k] then 1 else 0) + Rank(bits, k + 1, b)
  }

  /** Whose peer no set bit stands for is left alone. */
  lemma {:induction false} ReportAllSpares(peers: seq<Peer>, saved: seq<Option<nat>>, base: nat, bits: seq<bool>,
      k: nat,
                                           stop: nat, p: nat)
    requires Refers(saved, |peers|) && base + |bits| <= |saved| && k <= |bits| && p < |peers|
    requires forall b :: k <= b < |bits| && bits[b] ==> saved[base + b] != Some(p)
    ensures ReportAll(peers, saved, base, bits, k, stop)[p] == peers[p]
    decreases |bits| - k
  {
    if k < |bits| {
      if !bits[k] {
        ReportAllSpares(peers, saved, base, bits, k + 1, stop, p);
      } else if stop > 0 {
        var next := if saved[base + k].Some? then Report(peers, saved[base + k].value) else peers;
        ReportAllSpares(next, saved, base, bits, k + 1, stop - 1, p);
      }
    }
  }

  /** A flush that is cut short after `stop` bits has told exactly the peers of those. */
  lemma {:induction false} ReportAllExact(peers: seq<Peer>, saved: seq<Option<nat>>, base: nat, bits: seq<bool>, k: nat,
                                          stop: nat, b: nat, p: nat)
    requires Refers(saved, |peers|) && base + |bits| <= |saved| && NoDup(saved) && p < |peers|
    requires k <= b < |bits| && bits[b] && saved[base + b] == Some(p)
    ensures ReportAll(peers, saved, base, bits, k, stop)[p] == Reported(peers[p], Rank(bits, k, b) < stop)
    decreases |bits| - k
  {
    if !bits[k] {
      ReportAllExact(peers, saved, base, bits, k + 1, stop, b, p);
    } else if stop > 0 {
      var next := if saved[base + k].Some? then Report(peers, saved[base + k].value) else peers;
      if k < b {
        assert saved[base + k] != Some(p);
        ReportAllExact(next, saved, base, bits, k + 1, stop - 1, b, p);
      } else {
        ReportAllTold(next, saved, base, bits, k + 1, stop - 1);
        assert Told(next[p], ReportAll(next, saved, base, bits, k + 1, stop - 1)[p]);
      }
    }
  }

  /** The slot that interface `i` means by bit `b` of its map. */
  function Place(s: Core, i: nat, b: nat): nat
    requires i < |s.ifaces| && s.ifaces[i].Some?
  {
    s.ifaces[i].value.lmac * PEERS + b
  }

  /** Interface `i` has put peer `p` aside for bit `b`. */
  predicate Keeps(s: Core, i: nat, b: nat, p: nat)
    requires Shaped(s) && i < |s.ifaces| && s.ifaces[i].Some?
  {
    b < |s.maps[i]| && s.maps[i][b] && Place(s, i, b) < |s.saved| && s.saved[Place(s, i, b)] == Some(p)
  }

  /** No interface but `i` has put peer `p` aside. */
  predicate Only(s: Core, i: nat, p: nat)
    requires Shaped(s)
  {
    forall j, b :: 0 <= j < |s.ifaces| && j != i && s.ifaces[j].Some? && 0 <= b < |s.maps[j]| ==> !Keeps(s, j, b, p)
  }

  lemma ReopenSpares(s: Core, j: nat, o: Outcome, p: nat)
    requires Shaped(s) && j < |s.ifaces| && p < |s.peers|
    requires s.ifaces[j].Some? ==> forall b :: 0 <= b < |s.maps[j]| ==> !Keeps(s, j, b, p)
    ensures |Reopen(s, j, o).0.peers| == |s.peers| && Reopen(s, j, o).0.peers[p] == s.peers[p]
  {
    ReopenShaped(s, j, o);
    if s.ifaces[j].Some? {
      var f := s.ifaces[j].value;
      assert Fits(f, |s.saved|);
      assert forall b :: 0 <= b < |s.maps[j]| && s.maps[j][b] ==>
          !Keeps(s, j, b, p) && Place(s, j, b) == f.lmac * PEERS + b;
      ReportAllSpares(s.peers, s.saved, f.lmac * PEERS, s.maps[j], 0, if f.kind.Ap? then o.stop else PEERS, p);
    }
  }

  /** Whether an interface of this kind tells the peer of its `rank`-th bit. */
  predicate Tells(kind: Kind, o: Outcome, rank: nat) {
    kind.Sta? || kind.Client? || (kind.Ap? && o.restart && rank < o.stop)
  }

  lemma {:induction false} RankBelow(bits: seq<bool>, k: nat, b: nat)
    requires k <= b <= |bits|
    ensures Rank(bits, k, b) <= b - k
    decreases b - k
  {
    if k < b {
      RankBelow(bits, k + 1, b);
    }
  }

  lemma ReopenTells(s: Core, i: nat, o: Outcome, b: nat, p: nat)
    requires Shaped(s) && NoDup(s.saved) && i < |s.ifaces| && s.ifaces[i].Some?
    requires Keeps(s, i, b, p) && Reopen(s, i, o).1
    ensures p < |s.peers| == |Reopen(s, i, o).0.peers|
    ensures Reopen(s, i, o).0.peers[p]
         == Reported(s.peers[p], Tells(s.ifaces[i].value.kind, o, Rank(s.maps[i], 0, b)))
  {
    var f := s.ifaces[i].value;
    assert Fits(f, |s.saved|);
    ReopenShaped(s, i, o);
    RankBelow(s.maps[i], 0, b);
    ReportAllExact(s.peers, s.saved, f.lmac * PEERS, s.maps[i], 0, if f.kind.Ap? then o.stop else PEERS, b, p);
  }

  /** Interface `i` is of this kind, and it alone has put peer `p` aside, for bit `b`. */
  predicate Holds(s: Core, i: nat, kind: Kind, b: nat, p: nat) {
    && Shaped(s) && i < |s.ifaces| && s.ifaces[i].Some? && s.ifaces[i].value.kind == kind
    && Keeps(s, i, b, p) && Only(s, i, p)
  }

  /** Interfaces that are opened keep what they put aside. */
  lemma HoldsKept(s: Core, j: nat, o: Outcome, i: nat, kind: Kind, b: nat, p: nat)
    requires Holds(s, i, kind, b, p) && j < |s.ifaces|
    ensures var r := Reopen(s, j, o).0;
            Holds(r, i, kind, b, p) && r.saved == s.saved && r.maps == s.maps && |r.ifaces| == |s.ifaces|
  {
    ReopenShaped(s, j, o);
    var r := Reopen(s, j, o).0;
    forall q, c | 0 <= q < |r.ifaces| && q != i && r.ifaces[q].Some?
        && 0 <= c < |r.maps[q]| ensures !Keeps(r, q, c, p) {
      assert s.ifaces[q].Some? && !Keeps(s, q, c, p);
    }
  }

  /** A pass tells the peer if it comes to the interface, and if that one tells it. */
  lemma {:induction false} PassTells(s: Core, k: nat, early: bool, env: Env, i: nat, kind: Kind, b: nat, p: nat)
    requires Holds(s, i, kind, b, p) && NoDup(s.saved) && k <= |s.ifaces| && p < |s.peers| && Pass(s, k, early, env).1
    ensures var r := Pass(s, k, early, env).0;
            && Holds(r, i, kind, b, p) && r.saved == s.saved && r.maps == s.maps && |r.peers| == |s.peers|
            && r.peers[p] == Reported(s.peers[p],
                                      k <= i && Early(kind) == early
                                      && Tells(kind, Out(env, i), Rank(s.maps[i], 0, b)))
    decreases |s.ifaces| - k
  {
    if k < |s.ifaces| {
      if Due(s, k, early) {
        HoldsKept(s, k, Out(env, k), i, kind, b, p);
        var r := Reopen(s, k, Out(env, k)).0;
        if k == i {
          ReopenTells(s, i, Out(env, i), b, p);
        } else {
          ReopenSpares(s, k, Out(env, k), p);
        }
        PassTells(r, k + 1, early, env, i, kind, b, p);
      } else {
        PassTells(s, k + 1, early, env, i, kind, b, p);
      }
    }
  }

  /** What a completed round does for a peer that one interface alone finds put aside. */
  lemma {:induction false} AsideExact(s: Core, env: Env, i: nat, kind: Kind, b: nat, p: nat)
    requires Inv(s) && Round(s, env).1 && p < |s.peers| && Holds(Start(s), i, kind, b, p)
    ensures var r := Round(s, env).0;
            && |r.peers| == |s.peers|
            && r.peers[p]
               == Reported(s.peers[p], Tells(kind, Out(env, i), Rank(Start(s).maps[i], 0, b))).(frees := 1)
  {
    var c := RoundParts(s, env);
    PrepareInv(s);
    var a := Start(s);
    PassTells(a, 0, true, env, i, kind, b, p);
    PassTells(Pass(a, 0, true, env).0, 0, false, env, i, kind, b, p);
    DropInv(c);
  }

  /* ---- From before the crash ---- */

  /** Peer `p` is bound on interface `i` for bit `b`, and its map says so. */
  predicate Bound(s: Core, i: nat, b: nat, p: nat) {
    && i < |s.ifaces| && s.ifaces[i].Some? && b < |s.ifaces[i].value.bits| && s.ifaces[i].value.bits[b]
    && Place(s, i, b) < |s.ctx| && s.ctx[Place(s, i, b)] == Some(p)
  }

  /** No other interface has a bit for peer `p`. */
  predicate OnlyBound(s: Core, i: nat, p: nat) {
    forall j, b :: 0 <= j < |s.ifaces| && j != i && 0 <= b < PEERS ==> !Bound(s, j, b, p)
  }

  lemma StartHolds(s: Core, i: nat, b: nat, p: nat)
    requires Shaped(s) && !s.recovering && Bound(s, i, b, p)
    ensures var a := Start(s);
            && a.ifaces[i].Some? && a.ifaces[i].value.kind == s.ifaces[i].value.kind
            && Keeps(a, i, b, p) && a.maps[i] == s.ifaces[i].value.bits
            && (OnlyBound(s, i, p) ==> Holds(a, i, s.ifaces[i].value.kind, b, p))
  {
    var a := Start(s);
    assert a.saved == s.ctx;
    if OnlyBound(s, i, p) {
      forall j, c | 0 <= j < |a.ifaces| && j != i && a.ifaces[j].Some? && 0 <= c < |a.maps[j]|
        ensures !Keeps(a, j, c, p)
      {
        assert Fits(s.ifaces[j].value, |s.saved|);
        assert !Bound(s, j, c, p);
      }
    }
  }

  /**
   A completed round reports every peer that was bound on a station or client interface when the
   firmware crashed: once, unless it was marked before. It is freed once.
   */
  lemma RoundReports(s: Core, env: Env, i: nat, b: nat, p: nat)
    requires Inv(s) && !s.recovering && Round(s, env).1 && Bound(s, i, b, p)
    requires s.ifaces[i].value.kind.Sta? || s.ifaces[i].value.kind.Client?
    ensures var r := Round(s, env).0;
            && p < |s.peers| == |r.peers| && r.peers[p].frees == 1 && r.peers[p].deauthed
            && r.peers[p].reports == if s.peers[p].deauthed then s.peers[p].reports else 1
  {
    StartHolds(s, i, b, p);
    assert Awaits(Start(s), i, b, p);
    AsideReported(s, env, i, b, p);
  }

  /**
   A peer that was bound on one interface alone and not marked is reported by a completed round,
   once, if and only if that is a station or client, or an access point that restarted and whose
   flush got as far as its bit. It is freed either way.
   */
  lemma {:induction false} RoundReportsExact(s: Core, env: Env, i: nat, b: nat, p: nat)
    requires Inv(s) && !s.recovering && Round(s, env).1 && Bound(s, i, b, p) && OnlyBound(s, i, p)
    ensures var f, o, r := s.ifaces[i].value, Out(env, i), Round(s, env).0;
            && p < |s.peers| == |r.peers| && r.peers[p].frees == 1
            && (!s.peers[p].deauthed ==>
                  (r.peers[p].reports == 1 <==>
                     f.kind.Sta? || f.kind.Client? || (f.kind.Ap? && o.restart && Rank(f.bits, 0, b) < o.stop)))
            && (s.peers[p].deauthed ==> r.peers[p].reports == s.peers[p].reports)
  {
    StartHolds(s, i, b, p);
    assert PeerOk(s.peers[p]);
    AsideExact(s, env, i, s.ifaces[i].value.kind, b, p);
  }

  /* ---- Whole runs ---- */

  /** Rounds, and what goes on between them. */
  datatype Event = Rounds(env: Env) | Binds(slot: nat) | Unbinds(slot: nat) | Marks(p: nat)
                 | Changes(ifaces: seq<Option<Iface>>, maps: seq<seq<bool>>) | Stops

  predicate Callable(s: Core, e: Event) {
    match e
    case Binds(slot) => slot < |s.ctx| && s.ctx[slot] == None
    case Unbinds(slot) => slot < |s.ctx|
    case Marks(p) => p < |s.peers|
    case Changes(ifaces, maps) => Shaped(s.(ifaces := ifaces, maps := maps))
    case _ => true
  }

  function Unbind(s: Core, slot: nat): Core
    requires Shaped(s) && slot < |s.ctx|
  {
    match s.ctx[slot]
    case None => s
    case Some(p) => s.(ctx := s.ctx[slot := None], peers := s.peers[p := s.peers[p].(frees := s.peers[p].frees + 1)])
  }

  function Step(s: Core, e: Event): Core
    requires Shaped(s) && Callable(s, e)
  {
    match e
    case Rounds(env) => Round(s, env).0
    case Binds(slot) => s.(peers := s.peers + [Peer(false, 0, 0)], ctx := s.ctx[slot := Some(|s.peers|)])
    case Unbinds(slot) => Unbind(s, slot)
    case Marks(p) => s.(peers := s.peers[p := s.peers[p].(deauthed := true)])
    case Changes(ifaces, maps) => s.(ifaces := ifaces, maps := maps)
    case Stops => Drop(s)
  }

  lemma BindInv(s: Core, slot: nat)
    requires Inv(s) && slot < |s.ctx| && s.ctx[slot] == None
    ensures Inv(Step(s, Binds(slot)))
  {
    var r := Step(s, Binds(slot));
    forall p | 0 <= p < |r.peers| ensures PeerOk(r.peers[p]) {
      if p < |s.peers| {
        assert PeerOk(s.peers[p]);
      }
    }
  }

  lemma UnbindInv(s: Core, slot: nat)
    requires Inv(s) && slot < |s.ctx|
    ensures Inv(Unbind(s, slot))
  {
    var r := Unbind(s, slot);
    forall p | 0 <= p < |r.peers| ensures PeerOk(r.peers[p]) {
      assert PeerOk(s.peers[p]);
    }
  }

  lemma StepInv(s: Core, e: Event)
    requires Inv(s) && Callable(s, e)
    ensures Inv(Step(s, e))
  {
    match e
    case Rounds(env) => RoundInv(s, env);
    case Binds(slot) => BindInv(s, slot);
    case Unbinds(slot) => UnbindInv(s, slot);
    case Marks(p) =>
      forall q | 0 <= q < |s.peers| ensures PeerOk(Step(s, e).peers[q]) {
        assert PeerOk(s.peers[q]);
      }
    case Changes(_, _) =>
    case Stops => DropInv(s);
  }

  predicate Possible(s: Core, evs: seq<Event>)
    requires Inv(s)
    decreases |evs|
  {
    evs == [] || (Callable(s, evs[0]) && (StepInv(s, evs[0]); Possible(Step(s, evs[0]), evs[1..])))
  }

  /** Over any number of rounds, complete or not, every peer is reported at most once and freed at most once. */
  function Run(s: Core, evs: seq<Event>): (r: Core)
    requires Inv(s) && Possible(s, evs)
    ensures Inv(r)
    decreases |evs|
  {
    if evs == [] then s
    else
      StepInv(s, evs[0]);
      Run(Step(s, evs[0]), evs[1..])
  }

  /** Taking the driver down frees exactly those put aside, once. */
  lemma StopFrees(s: Core, p: nat)
    requires Inv(s) && p < |s.peers|
    ensures var r := Step(s, Stops);
            && r.saved == Nobody(|s.saved|) && r.ctx == s.ctx && |r.peers| == |s.peers|
            && r.peers[p] == s.peers[p].(frees := if Some(p) in s.saved then 1 else s.peers[p].frees)
  {
    DropInv(s);
  }

  /** Nobody is bound while a recovery is under way. */
  predicate Quiet(s: Core, evs: seq<Event>)
    requires Inv(s) && Possible(s, evs)
    decreases |evs|
  {
    evs == [] ||
    (&& (evs[0].Binds? ==> !s.recovering)
     && (StepInv(s, evs[0]); Quiet(Step(s, evs[0]), evs[1..])))
  }

  predicate Tidy(s: Core) {
    Accounted(s) && (s.recovering ==> s.ctx == Nobody(|s.ctx|))
  }

  lemma StepTidy(s: Core, e: Event)
    requires Inv(s) && Callable(s, e) && Tidy(s) && (e.Binds? ==> !s.recovering)
    ensures Tidy(Step(s, e))
  {
    var r := Step(s, e);
    match e
    case Rounds(env) =>
      RoundAccounted(s, env);
      var c := RoundParts(s, env);
    case Stops =>
      DropInv(s);
      forall p | 0 <= p < |r.peers| ensures Covered(r, p) {
        assert Covered(s, p);
      }
    case Binds(slot) =>
      assert r.ctx[slot] == Some(|s.peers|);
      forall p | 0 <= p < |r.peers| ensures Covered(r, p) {
        if p < |s.peers| {
          assert Covered(s, p);
          StillIn(s.ctx, slot, Some(|s.peers|), p);
        }
      }
    case Unbinds(slot) =>
      forall p | 0 <= p < |r.peers| ensures Covered(r, p) {
        assert Covered(s, p);
        if s.ctx[slot] != Some(p) {
          StillIn(s.ctx, slot, None, p);
        } else {
          HeldLive(s, p);
        }
      }
    case _ =>
      forall p | 0 <= p < |r.peers| ensures Covered(r, p) {
        assert Covered(s, p);
      }
  }

  lemma StillIn(q: seq<Option<nat>>, slot: nat, x: Option<nat>, p: nat)
    requires slot < |q| && q[slot] != Some(p)
    ensures Some(p) in q ==> Some(p) in q[slot := x]
  {
    if Some(p) in q {
      var i :| 0 <= i < |q| && q[i] == Some(p);
      assert q[slot := x][i] == Some(p);
    }
  }

  /** On such runs no peer is lost: each is held in one place, or has been freed exactly once. */
  lemma {:induction false} RunTidy(s: Core, evs: seq<Event>)
    requires Inv(s) && Possible(s, evs) && Tidy(s) && Quiet(s, evs)
    ensures Tidy(Run(s, evs))
    decreases |evs|
  {
    if evs != [] {
      StepInv(s, evs[0]);
      StepTidy(s, evs[0]);
      RunTidy(Step(s, evs[0]), evs[1..]);
    }
  }

  /** Nobody has put peer `p` aside for a bit of its map. */
  predicate Unkept(s: Core, p: nat) {
    && Shaped(s)
    && forall j, b :: 0 <= j < |s.ifaces| && s.ifaces[j].Some? && 0 <= b < |s.maps[j]| ==> !Keeps(s, j, b, p)
  }

  lemma {:induction false} PassSilent(s: Core, k: nat, early: bool, env: Env, p: nat)
    requires Unkept(s, p) && k <= |s.ifaces| && p < |s.peers|
    ensures var r := Pass(s, k, early, env).0;
            Unkept(r, p) && |r.peers| == |s.peers| && |r.ifaces| == |s.ifaces| && r.peers[p] == s.peers[p]
    decreases |s.ifaces| - k
  {
    if k < |s.ifaces| {
      if Due(s, k, early) {
        ReopenShaped(s, k, Out(env, k));
        ReopenSpares(s, k, Out(env, k), p);
        var (r, ok) := Reopen(s, k, Out(env, k));
        forall j, b | 0 <= j < |r.ifaces| && r.ifaces[j].Some? && 0 <= b < |r.maps[j]| ensures !Keeps(r, j, b, p) {
          assert s.ifaces[j].Some? && !Keeps(s, j, b, p);
        }
        if ok {
          PassSilent(r, k + 1, early, env, p);
        }
      } else {
        PassSilent(s, k + 1, early, env, p);
      }
    }
  }

  /** A round, complete or not, reports nobody for whom no interface had a bit. */
  lemma {:induction false} RoundSilent(s: Core, env: Env, p: nat)
    requires Inv(s) && !s.recovering && p < |s.peers| && forall i: nat, b: nat :: !Bound(s, i, b, p)
    ensures var r := Round(s, env).0;
            |r.peers| == |s.peers| && r.peers[p].reports == s.peers[p].reports
                && r.peers[p].deauthed == s.peers[p].deauthed
  {
    var c := RoundParts(s, env);
    var a := Start(s);
    forall j, b | 0 <= j < |a.ifaces| && a.ifaces[j].Some? && 0 <= b < |a.maps[j]| ensures !Keeps(a, j, b, p) {
      assert Fits(s.ifaces[j].value, |s.saved|);
      assert !Bound(s, j, b, p);
    }
    PassSilent(a, 0, true, env, p);
    if env.chip && env.calib && Pass(a, 0, true, env).1 {
      PassSilent(Pass(a, 0, true, env).0, 0, false, env, p);
    }
    PrepareInv(s);
    DropInv(c);
  }

  /** Interface `i` has no bit set. */
  predicate Blank(s: Core, i: nat) {
    && i < |s.ifaces|
    && (s.ifaces[i].None? || forall b :: 0 <= b < |s.ifaces[i].value.bits| ==> !s.ifaces[i].value.bits[b])
  }

  lemma {:induction false} PassBlank(s: Core, k: nat, early: bool, env: Env, i: nat)
    requires Shaped(s) && k <= |s.ifaces| && Blank(s, i)
    ensures Blank(Pass(s, k, early, env).0, i)
    decreases |s.ifaces| - k
  {
    if k < |s.ifaces| {
      if Due(s, k, early) {
        ReopenShaped(s, k, Out(env, k));
        var (r, ok) := Reopen(s, k, Out(env, k));
        if ok {
          PassBlank(r, k + 1, early, env, i);
        }
      } else {
        PassBlank(s, k + 1, early, env, i);
      }
    }
  }

  /** After any round, complete or not, the peer map of every interface is empty. */
  lemma {:induction false} RoundBlank(s: Core, env: Env, i: nat)
    requires Inv(s) && i < |s.ifaces|
    ensures Blank(Round(s, env).0, i)
  {
    var a := Start(s);
    assert Blank(a, i);
    PassShaped(a, 0, true, env);
    PassBlank(a, 0, true, env, i);
    if env.chip && env.calib && Pass(a, 0, true, env).1 {
      var b := Pass(a, 0, true, env).0;
      PassShaped(b, 0, false, env);
      PassBlank(b, 0, false, env, i);
    }
  }

  /* ---- Interrupted rounds ---- */

  /** What can go on while a recovery is under way, until a round completes: rounds cut short, and other peers. */
  predicate Underway(s: Core, e: Event, p: nat)
    requires Inv(s) && Callable(s, e)
  {
    match e
    case Rounds(env) => !Round(s, env).1
    case Binds(_) => true
    case Unbinds(_) => true
    case Marks(q) => q != p
    case _ => false
  }

  predicate AllUnderway(s: Core, evs: seq<Event>, p: nat)
    requires Inv(s) && Possible(s, evs)
    decreases |evs|
  {
    evs == [] || (Underway(s, evs[0], p) && (StepInv(s, evs[0]); AllUnderway(Step(s, evs[0]), evs[1..], p)))
  }

  /** Peer `p` is put aside for a bit of interface `i`, and its mark comes from a report. */
  predicate Pending(s: Core, i: nat, kind: Kind, b: nat, p: nat, bits: seq<bool>) {
    && Shaped(s) && s.recovering && i < |s.ifaces| && s.ifaces[i].Some? && s.ifaces[i].value.kind == kind
    && s.maps[i] == bits && Keeps(s, i, b, p)
    && p < |s.peers| && (s.peers[p].deauthed ==> s.peers[p].reports == 1)
  }

  lemma CutSame(s: Core, env: Env)
    requires Inv(s) && !Round(s, env).1
    ensures SameIfaces(s, Round(s, env).0) && Kept(Start(s), Round(s, env).0)
  {
    var c := RoundParts(s, env);
    PrepareSame(s);
    var a := Start(s);
    PassShaped(a, 0, true, env);
    PassSame(a, 0, true, env);
    if env.chip && env.calib && Pass(a, 0, true, env).1 {
      PassSame(Pass(a, 0, true, env).0, 0, false, env);
      SameTrans(a, Pass(a, 0, true, env).0, c);
    }
    SameTrans(s, a, Round(s, env).0);
  }

  lemma StepPending(s: Core, e: Event, i: nat, kind: Kind, b: nat, p: nat, bits: seq<bool>)
    requires Inv(s) && Callable(s, e) && Underway(s, e, p) && Pending(s, i, kind, b, p, bits)
    ensures Inv(Step(s, e)) && Pending(Step(s, e), i, kind, b, p, bits)
  {
    StepInv(s, e);
    assert PeerOk(s.peers[p]);
    match e
    case Rounds(env) =>
      CutSame(s, env);
      assert Told(s.peers[p], Round(s, env).0.peers[p]);
    case _ =>
  }

  /** Meanwhile no other interface comes to hold the peer. */
  lemma StepOnly(s: Core, e: Event, i: nat, p: nat)
    requires Inv(s) && Callable(s, e) && Underway(s, e, p) && s.recovering && Only(s, i, p)
    ensures Inv(Step(s, e)) && Step(s, e).recovering && Only(Step(s, e), i, p)
  {
    StepInv(s, e);
    if e.Rounds? {
      CutSame(s, e.env);
    }
    var r := Step(s, e);
    forall j, c | 0 <= j < |r.ifaces| && j != i && r.ifaces[j].Some? && 0 <= c < |r.maps[j]|
      ensures !Keeps(r, j, c, p)
    {
      assert s.ifaces[j].Some? && !Keeps(s, j, c, p);
    }
  }

  lemma {:induction false} RunOnly(s: Core, evs: seq<Event>, i: nat, p: nat)
    requires Inv(s) && Possible(s, evs) && AllUnderway(s, evs, p) && s.recovering && Only(s, i, p)
    ensures Run(s, evs).recovering && Only(Run(s, evs), i, p)
    decreases |evs|
  {
    if evs != [] {
      StepOnly(s, evs[0], i, p);
      RunOnly(Step(s, evs[0]), evs[1..], i, p);
    }
  }

  lemma {:induction false} RunPending(s: Core, evs: seq<Event>, i: nat, kind: Kind, b: nat, p: nat, bits: seq<bool>)
    requires Inv(s) && Possible(s, evs) && AllUnderway(s, evs, p) && Pending(s, i, kind, b, p, bits)
    ensures Pending(Run(s, evs), i, kind, b, p, bits)
    decreases |evs|
  {
    if evs != [] {
      StepPending(s, evs[0], i, kind, b, p, bits);
      RunPending(Step(s, evs[0]), evs[1..], i, kind, b, p, bits);
    }
  }

  lemma FirstOnly(s: Core, env: Env, i: nat, b: nat, p: nat)
    requires Inv(s) && !s.recovering && !Round(s, env).1 && Bound(s, i, b, p) && OnlyBound(s, i, p)
    ensures Inv(Round(s, env).0) && Round(s, env).0.recovering && Only(Round(s, env).0, i, p)
  {
    RoundInv(s, env);
    StartHolds(s, i, b, p);
    CutSame(s, env);
    PrepareSame(s);
    var a, r := Start(s), Round(s, env).0;
    forall j, c | 0 <= j < |r.ifaces| && j != i && r.ifaces[j].Some? && 0 <= c < |r.maps[j]|
      ensures !Keeps(r, j, c, p)
    {
      assert a.ifaces[j].Some? && !Keeps(a, j, c, p);
    }
  }

  lemma FirstCut(s: Core, env: Env, i: nat, b: nat, p: nat)
    requires Inv(s) && !s.recovering && !Round(s, env).1 && Bound(s, i, b, p)
    requires p < |s.peers| && !s.peers[p].deauthed
    ensures Inv(Round(s, env).0)
    ensures Pending(Round(s, env).0, i, s.ifaces[i].value.kind, b, p, s.ifaces[i].value.bits)
  {
    RoundInv(s, env);
    StartHolds(s, i, b, p);
    CutSame(s, env);
    assert PeerOk(s.peers[p]);
    assert Told(s.peers[p], Round(s, env).0.peers[p]);
  }

  /**
   A peer that was bound on a station or client interface when the firmware first crashed: however
   often the recovery is cut short, and whatever is bound, unbound or marked meanwhile, the round
   that completes it leaves the peer reported exactly once and freed exactly once.
   */
  lemma {:induction false} NestedReports(s: Core, first: Env, evs: seq<Event>, last: Env, i: nat, b: nat, p: nat)
    requires Inv(s) && !s.recovering && Bound(s, i, b, p) && p < |s.peers| && !s.peers[p].deauthed
    requires s.ifaces[i].value.kind.Sta? || s.ifaces[i].value.kind.Client?
    requires !Round(s, first).1 && Inv(Round(s, first).0)
    requires Possible(Round(s, first).0, evs) && AllUnderway(Round(s, first).0, evs, p)
    requires Round(Run(Round(s, first).0, evs), last).1
    ensures var r := Round(Run(Round(s, first).0, evs), last).0;
            p < |r.peers| && r.peers[p] == Peer(true, 1, 1)
  {
    FirstCut(s, first, i, b, p);
    var kind, bits := s.ifaces[i].value.kind, s.ifaces[i].value.bits;
    RunPending(Round(s, first).0, evs, i, kind, b, p, bits);
    LastReports(Run(Round(s, first).0, evs), last, i, kind, b, p, bits);
  }

  lemma LastReports(t: Core, last: Env, i: nat, kind: Kind, b: nat, p: nat, bits: seq<bool>)
    requires Inv(t) && Pending(t, i, kind, b, p, bits) && (kind.Sta? || kind.Client?) && Round(t, last).1
    ensures |Round(t, last).0.peers| == |t.peers| && Round(t, last).0.peers[p] == Peer(true, 1, 1)
  {
    assert PeerOk(t.peers[p]);
    assert Awaits(Start(t), i, b, p);
    AsideReported(t, last, i, b, p);
  }

  /**
   The same for a peer of one interface alone, of any kind: it is freed once, and reported exactly if
   a round cut short has done so or the interface tells it in the round that completes.
   */
  lemma {:induction false} NestedReportsExact(s: Core, first: Env, evs: seq<Event>, last: Env, i: nat, b: nat, p: nat)
    requires Inv(s) && !s.recovering && Bound(s, i, b, p) && OnlyBound(s, i, p)
    requires p < |s.peers| && !s.peers[p].deauthed
    requires !Round(s, first).1 && Inv(Round(s, first).0)
    requires Possible(Round(s, first).0, evs) && AllUnderway(Round(s, first).0, evs, p)
    requires Round(Run(Round(s, first).0, evs), last).1
    ensures var f, t := s.ifaces[i].value, Run(Round(s, first).0, evs);
            var r := Round(t, last).0;
            && p < |t.peers| == |r.peers| && r.peers[p].frees == 1
            && (r.peers[p].reports == 1 <==>
                  t.peers[p].reports == 1 || Tells(f.kind, Out(last, i), Rank(f.bits, 0, b)))
  {
    var kind, bits := s.ifaces[i].value.kind, s.ifaces[i].value.bits;
    FirstCut(s, first, i, b, p);
    FirstOnly(s, first, i, b, p);
    RunPending(Round(s, first).0, evs, i, kind, b, p, bits);
    RunOnly(Round(s, first).0, evs, i, p);
    LastExact(Run(Round(s, first).0, evs), last, i, kind, b, p, bits);
  }

  lemma LastExact(t: Core, last: Env, i: nat, kind: Kind, b: nat, p: nat, bits: seq<bool>)
    requires Inv(t) && Pending(t, i, kind, b, p, bits) && Only(t, i, p) && Round(t, last).1
    ensures var r := Round(t, last).0;
            && |t.peers| == |r.peers| && r.peers[p].frees == 1
            && (r.peers[p].reports == 1 <==> t.peers[p].reports == 1 || Tells(kind, Out(last, i), Rank(bits, 0, b)))
  {
    assert PeerOk(t.peers[p]);
    var a := Start(t);
    forall j, c | 0 <= j < |a.ifaces| && j != i && a.ifaces[j].Some? && 0 <= c < |a.maps[j]|
      ensures !Keeps(a, j, c, p)
    {
      assert t.ifaces[j].Some? && !Keeps(t, j, c, p);
    }
    AsideExact(t, last, i, kind, b, p);
  }

  /* ---- What the conditions shut out does happen ---- */

  function Clear(): (r: seq<bool>)
    ensures |r| == PEERS && forall i :: 0 <= i < |r| ==> !r[i]
  {
    seq(PEERS, _ => false)
  }

  /** A station and an access point on one MAC, with nobody bound. */
  function Twin(): Core {
    Core([], Nobody(PEERS), Nobody(PEERS),
         [Some(Iface(Sta, 0, true, Clear())), Some(Iface(Ap, 0, true, Clear()))], [Clear(), Clear()], false, 2, [])
  }

  /** The chip answers and the station opens; the access point does not. */
  const HALFWAY: Env := Env(true, true, [Outcome(false, true, false, 0), Outcome(false, false, false, 0)])

  /** With two such interfaces the station comes up, and the round stops at the access point. */
  lemma HalfwayStops(s: Core)
    requires Shaped(s) && |s.ifaces| == 2 && s.ifaces[0].Some? && s.ifaces[1].Some?
    requires s.ifaces[0].value.kind.Sta? && s.ifaces[1].value.kind.Ap?
    ensures var (r, done) := Round(s, HALFWAY);
            !done && |r.ifaces| == 2 && r.ifaces[0].Some? && r.ifaces[0].value.kind.Sta? && r.ifaces[0].value.up
  {
    var a := Start(s);
    var b := Reopen(a, 0, Out(HALFWAY, 0)).0;
    ReopenShaped(a, 0, Out(HALFWAY, 0));
    assert Due(a, 0, true) && !Due(b, 1, true) && !Due(b, 0, false) && Due(b, 1, false);
    assert Pass(b, 1, true, HALFWAY) == (b, true);
    assert Pass(a, 0, true, HALFWAY) == (b, true);
    assert Pass(b, 1, false, HALFWAY) == (b, false);
  }

  lemma TwinInv()
    ensures Inv(Twin()) && Tidy(Twin())
  {
  }

  lemma HalfwayRound()
    ensures Inv(Twin()) && Tidy(Twin())
    ensures var r := Round(Twin(), HALFWAY).0;
            && Inv(r) && r.recovering && r.peers == [] && r.ctx == Nobody(PEERS)
            && |r.ifaces| == 2 && r.ifaces[0].Some? && r.ifaces[0].value.kind.Sta? && r.ifaces[0].value.up
  {
    TwinInv();
    RoundInv(Twin(), HALFWAY);
    HalfwayStops(Twin());
    var c := RoundParts(Twin(), HALFWAY);
  }

  /** Somebody bound while a recovery is under way is lost by the next round. */
  lemma BoundLost(r: Core, slot: nat, again: Env)
    requires Inv(r) && r.recovering && r.peers == [] && slot < |r.ctx| && r.ctx[slot] == None
    ensures var s := Step(r, Binds(slot));
            Inv(s) && Accounted(s) && s.recovering && s.ctx[slot] == Some(0) && !Accounted(Round(s, again).0)
  {
    BindInv(r, slot);
    var s := Step(r, Binds(slot));
    assert s.ctx[slot] == Some(0);
    assert Covered(s, 0);
    RoundAccounted(s, again);
  }

  /**
   Nested recovery does lose a peer: somebody is bound for the station that is up again, and the
   next round drops it.
   */
  lemma NestedLoses(slot: nat, again: Env)
    requires slot < PEERS
    ensures Inv(Twin()) && Tidy(Twin()) && Possible(Twin(), [Rounds(HALFWAY), Binds(slot)])
    ensures var s := Run(Twin(), [Rounds(HALFWAY), Binds(slot)]);
            && Accounted(s) && s.recovering && |s.ctx| == PEERS && s.ctx[slot] == Some(0)
            && |s.ifaces| == 2 && s.ifaces[0].Some? && s.ifaces[0].value.kind.Sta? && s.ifaces[0].value.up
            && !Accounted(Round(s, again).0)
  {
    HalfwayRound();
    var evs := [Rounds(HALFWAY), Binds(slot)];
    var r := Step(Twin(), evs[0]);
    assert evs[1..][0] == Binds(slot) && evs[1..][1..] == [];
    BoundLost(r, slot, again);
    var s := Step(r, Binds(slot));
    assert Possible(s, []) && Possible(r, evs[1..]);
    assert Run(r, evs[1..]) == s;
  }

  /** An access point with one station, bound for the first bit. */
  function Served(): Core {
    Core([Peer(false, 0, 0)], Nobody(PEERS)[0 := Some(0)], Nobody(PEERS),
         [Some(Iface(Ap, 0, true, Clear()[0 := true]))], [Clear()], false, 1, [])
  }

  /** A lone access point that opens completes the round. */
  lemma LoneCompletes(s: Core, env: Env)
    requires Shaped(s) && |s.ifaces| == 1 && s.ifaces[0].Some? && s.ifaces[0].value.kind.Ap?
    requires env.chip && env.calib && !Out(env, 0).asserted && Out(env, 0).open
    ensures Round(s, env).1
  {
    var a := Start(s);
    assert !Due(a, 0, true) && Due(a, 0, false);
    assert Pass(a, 0, true, env) == (a, true);
    ReopenShaped(a, 0, Out(env, 0));
    assert Reopen(a, 0, Out(env, 0)).1;
    PassShaped(a, 0, false, env);
  }

  lemma ServedInv()
    ensures Inv(Served())
  {
  }

  /** Its access point opens but does not restart: the round completes, and the station is freed without a report. */
  lemma FreedUntold(env: Env)
    requires env == Env(true, true, [Outcome(false, true, false, 0)])
    ensures Inv(Served()) && Round(Served(), env).1
    ensures var r := Round(Served(), env).0;
            |r.peers| == 1 && r.peers[0].frees == 1 && r.peers[0].reports == 0
  {
    ServedInv();
    LoneCompletes(Served(), env);
    assert Bound(Served(), 0, 0, 0);
    RoundReportsExact(Served(), env, 0, 0, 0);
    RoundInv(Served(), env);
    assert PeerOk(Round(Served(), env).0.peers[0]);
  }
}
