/** Recovery as the driver runs it: tables and counters updated in place by its loops. */
module RecoveryDriver {
  import opened Basics
  import opened Recovery

  /** Bits that are not set are passed over. */
  lemma {:induction false} SkipClear(peers: seq<Peer>, saved: seq<Option<nat>>, base: nat, bits: seq<bool>,
      k: nat, j: nat, stop: nat)
    requires Refers(saved, |peers|) && base + |bits| <= |saved| && k <= j <= |bits|
    requires forall i :: k <= i < j ==> !bits[i]
    ensures ReportAll(peers, saved, base, bits, k, stop) == ReportAll(peers, saved, base, bits, j, stop)
    decreases j - k
  {
    if k < j {
      SkipClear(peers, saved, base, bits, k + 1, j, stop);
    }
  }

  class RecoveryWork {
    var peers: seq<Peer>
    var ctx: seq<Option<nat>>
    var saved: seq<Option<nat>>
    var ifaces: seq<Option<Iface>>
    var maps: seq<seq<bool>>
    var recovering: bool
    var openCount: nat
    ghost var log: seq<nat>

    ghost function View(): Core
      reads this
    {
      Core(peers, ctx, saved, ifaces, maps, recovering, openCount, log)
    }

    constructor (contexts: nat, ifaces: seq<Option<Iface>>, maps: seq<seq<bool>>)
      ensures View() == Core([], Nobody(contexts), Nobody(contexts), ifaces, maps, false, 0, [])
    {
      peers, ctx, saved, recovering, openCount, log := [], Nobody(contexts), Nobody(contexts), false, 0, [];
      this.ifaces, this.maps := ifaces, maps;
    }

    /** Empties the contexts; what was bound is kept aside if `keep` says so. */
    method ClearContexts(keep: bool)
      requires |ctx| == |saved|
      modifies this`ctx, this`saved
      ensures ctx == Nobody(old(|ctx|)) && saved == if keep then old(ctx) else old(saved)
    {
      var j := 0;
      while j < |ctx|
        invariant j <= |ctx| == |saved| == old(|ctx|) == old(|saved|)
        invariant forall i :: 0 <= i < |ctx| ==> ctx[i] == if i < j then None else old(ctx)[i]
        invariant forall i :: 0 <= i < |saved| ==> saved[i] == if i < j && keep then old(ctx)[i] else old(saved)[i]
      {
        if keep {
          saved := saved[j := ctx[j]];
        }
        ctx := ctx[j := None];
        j := j + 1;
      }
    }

    /** Clears the peer maps, which are kept aside if `keep` says so. */
    method ClearMaps(keep: bool)
      requires |ifaces| == |maps|
      modifies this`ifaces, this`maps
      ensures |ifaces| == |maps| == old(|ifaces|)
      ensures forall i :: 0 <= i < |ifaces| ==> ifaces[i] == Unmapped(old(ifaces)[i])
      ensures forall i :: 0 <= i < |maps| ==>
          maps[i] == if keep && old(ifaces)[i].Some? then old(ifaces)[i].value.bits else old(maps)[i]
    {
      var j := 0;
      while j < |ifaces|
        invariant j <= |ifaces| == |maps| == old(|ifaces|)
        invariant forall i :: 0 <= i < |ifaces| ==>
            ifaces[i] == if i < j then Unmapped(old(ifaces)[i]) else old(ifaces)[i]
        invariant forall i :: 0 <= i < |maps| ==>
            maps[i] == if i < j && keep && old(ifaces)[i].Some? then old(ifaces)[i].value.bits else old(maps)[i]
      {
        if ifaces[j].Some? {
          if keep {
            maps := maps[j := ifaces[j].value.bits];
          }
          ifaces := ifaces[j := Unmapped(ifaces[j])];
        }
        j := j + 1;
      }
    }

    /** The first time, every peer and every peer map is put aside; a second time, nothing more is. */
    method PrepareRecovery()
      requires Shaped(View())
      modifies this
      ensures View() == Prepare(old(View()))
      ensures recovering && peers == old(peers) && ctx == Nobody(old(|ctx|)) && |maps| == old(|maps|)
      ensures saved == if old(recovering) then old(saved) else old(ctx)
      ensures forall i :: 0 <= i < |maps| ==>
                maps[i] == if old(recovering) || old(ifaces)[i].None? then old(maps)[i] else old(ifaces)[i].value.bits
    {
      var keep := !recovering;
      recovering := true;
      ClearContexts(keep);
      ClearMaps(keep);
    }

    method CloseIfaces()
      modifies this
      ensures View() == CloseAll(old(View()))
    {
      openCount, log := 0, [];
      var j := 0;
      while j < |ifaces|
        invariant j <= |ifaces| == old(|ifaces|)
        invariant forall i :: 0 <= i < |ifaces| ==>
            ifaces[i] == if i < j then Closed(old(ifaces)[i]) else old(ifaces)[i]
        invariant View() == old(View()).(openCount := 0, log := [], ifaces := ifaces)
      {
        ifaces := ifaces[j := Closed(ifaces[j])];
        j := j + 1;
      }
    }

    /** Reports the peers put aside for a peer map, lowest bit first, until `stop` bits are done. */
    method ReportPeers(base: nat, map0: seq<bool>, stop: nat)
      requires Refers(saved, |peers|) && base + |map0| <= |saved|
      modifies this`peers
      ensures peers == ReportAll(old(peers), saved, base, map0, 0, stop)
    {
      var bits, left := map0, stop;
      var k := Lowest(bits, 0);
      SkipClear(peers, saved, base, map0, 0, k, left);
      while k < |bits| && left > 0
        invariant |bits| == |map0| && k <= |bits| && Refers(saved, |peers|)
        invariant forall i :: 0 <= i < |bits| ==> bits[i] == (i >= k && map0[i])
        invariant k < |bits| ==> bits[k]
        invariant ReportAll(peers, saved, base, map0, k, left) == ReportAll(old(peers), saved, base, map0, 0, stop)
        decreases |bits| - k
      {
        bits := bits[k := false];
        var who := saved[base + k];
        if who.Some? && !peers[who.value].deauthed {
          peers := peers[who.value := Peer(true, peers[who.value].reports + 1, peers[who.value].frees)];
        }
        left := left - 1;
        var next := Lowest(bits, 0);
        assert forall i :: k < i < next ==> !bits[i] && bits[i] == map0[i];
        SkipClear(peers, saved, base, map0, k + 1, next, left);
        k := next;
      }
    }

    method RestoreIface(i: nat, o: Outcome)
      requires Shaped(View()) && i < |ifaces| && ifaces[i].Some?
      modifies this`peers
      ensures View() == Restore(old(View()), i, o)
    {
      var f := ifaces[i].value;
      assert Fits(f, |saved|);
      match f.kind
      case Sta => ReportPeers(f.lmac * PEERS, maps[i], PEERS);
      case Client => ReportPeers(f.lmac * PEERS, maps[i], PEERS);
      case Ap =>
        if o.restart {
          ReportPeers(f.lmac * PEERS, maps[i], o.stop);
        }
      case _ =>
    }

    /** Opens one interface; false ends the round. */
    method ReopenIface(i: nat, o: Outcome) returns (ok: bool)
      requires Shaped(View()) && i < |ifaces|
      modifies this
      ensures (View(), ok) == Reopen(old(View()), i, o)
    {
      if ifaces[i].None? {
        return true;
      }
      if o.asserted || !o.open {
        return false;
      }
      RestoreIface(i, o);
      ifaces := ifaces[i := Some(ifaces[i].value.(up := true))];
      openCount, log := openCount + 1, log + [i];
      return true;
    }

    method OpenPass(early: bool, env: Env) returns (ok: bool)
      requires Shaped(View())
      modifies this
      ensures (View(), ok) == Pass(old(View()), 0, early, env)
    {
      var k := 0;
      while k < |ifaces|
        invariant Shaped(View()) && k <= |ifaces| == old(|ifaces|)
        invariant Pass(View(), k, early, env) == Pass(old(View()), 0, early, env)
        decreases |ifaces| - k
      {
        if ifaces[k].Some? && Early(ifaces[k].value.kind) == early {
          ReopenShaped(View(), k, Out(env, k));
          ok := ReopenIface(k, Out(env, k));
          if !ok {
            return;
          }
        }
        k := k + 1;
      }
      return true;
    }

    method FreeSaved()
      requires Shaped(View())
      modifies this`peers, this`saved
      ensures View() == Drop(old(View()))
    {
      ghost var all := saved;
      var k := 0;
      while k < |saved|
        invariant k <= |saved| == |all| && Refers(all, |peers|)
        invariant forall i :: 0 <= i < |saved| ==> saved[i] == if i < k then None else all[i]
        invariant FreeAll(peers, all, k) == FreeAll(old(peers), all, 0)
      {
        if saved[k].Some? {
          var p := saved[k].value;
          peers := peers[p := peers[p].(frees := peers[p].frees + 1)];
          saved := saved[k := None];
        }
        k := k + 1;
      }
    }

    /** One recovery round; true if it completes. */
    method Recover(env: Env) returns (done: bool)
      requires Inv(View())
      modifies this
      ensures (View(), done) == Round(old(View()), env)
      ensures Inv(View())
      ensures done <==> env.chip && env.calib && forall i :: 0 <= i < old(|ifaces|) ==> Opens(old(View()), i, env)
    {
      RoundCompletes(View(), env);
      RoundInv(View(), env);
      PrepareShaped(View());
      PrepareRecovery();
      CloseIfaces();
      if !env.chip || !env.calib {
        return false;
      }
      PassShaped(View(), 0, true, env);
      done := OpenPass(true, env);
      if !done {
        return;
      }
      PassShaped(View(), 0, false, env);
      done := OpenPass(false, env);
      if done {
        FreeSaved();
        recovering := false;
      }
    }
  }
}
