/**
 The same machine as the driver runs it: fields updated in place, with the early exits of the C
 code. Every handler keeps a pending step driven and the attempt within its budget; see `Handle`.
 */
module StationDriver {
  import opened Station

  class StaCore {
    const station: bool
    var state: State
    var rty: Retry
    var bssid: nat
    var peer: nat
    var retry: nat
    var redo: nat
    var stepStart: nat
    var ctxStart: nat
    var ctxTo: nat
    var authStart: nat
    var openSystem: bool
    var timer: bool
    var due: nat
    var work: bool
    var authSent: nat
    var assocSent: nat
    ghost var extra: nat   // surplus events of the current attempt

    constructor (station: bool)
      ensures View() == INITIAL && this.station == station && Valid() && Alive(View())
    {
      this.station, extra := station, 0;
      state, rty, bssid, peer, retry, redo := Idle, NoRetry, 0, 0, 0, 0;
      stepStart, ctxStart, ctxTo, authStart := 0, 0, 0, 0;
      openSystem, timer, due, work, authSent, assocSent := false, false, 0, false, 0, 0;
    }

    ghost function View(): Sta
      reads this
    {
      Sta(state, rty, bssid, peer, retry, redo, stepStart, ctxStart, ctxTo, authStart, openSystem, timer, due,
          work, authSent, assocSent)
    }

    /** The commands sent and still to come stay within the caps of one attempt. */
    ghost predicate Valid()
      reads this
    {
      Capped(View(), station, extra)
    }

    /** True unless the firmware refuses to leave; then no peer of that BSS is bound any more. */
    method UnjoinBss(bss: nat, ok: bool) returns (done: bool)
      modifies this`peer, this`bssid
      ensures (View(), done) == Unjoin(old(View()), bss, ok)
      ensures done && bss != 0 ==> peer != bss
      ensures !done ==> peer == old(peer) == bss && bssid == old(bssid)
      ensures old(peer == bssid) ==> peer == bssid
    {
      if bss == 0 || peer != bss {
        return true;
      }
      if ok {
        bssid := 0;
        peer := 0;
      }
      return ok;
    }

    method LeaveBss(bss: nat, ok: bool)
      modifies this`peer, this`bssid, this`timer, this`state
      ensures View() == StaLeave(old(View()), bss, ok)
      ensures state.Idle? && !timer && (ok && bss != 0 ==> peer != bss)
    {
      timer := false;
      state := Idle;
      var _ := UnjoinBss(bss, ok);
    }

    method JoinBss(bss: nat)
      modifies this`peer, this`bssid
      ensures View() == Join(old(View()), bss)
    {
      peer := bss;
      bssid := bss;
    }

    /** Clears the way for an authentication request; false ends the request. */
    method PrepareAuth(e: Event) returns (go: bool)
      requires e.Auth?
      modifies this`peer, this`bssid, this`state
      ensures (View(), go) == Prepare(old(View()), e)
    {
      if state.Authing? || state.Associng? {
        return false;
      }
      if state.Authed? {
        return true;
      }
      if !state.Idle? {
        if bssid == e.bss {
          return false;
        }
        state := Idle;
        var left := UnjoinBss(bssid, e.leave1);
        if !left {
          return false;
        }
      }
      if bssid != 0 {
        var left := UnjoinBss(bssid, e.leave2);
        if !left {
          return false;
        }
      }
      if !e.channel || !e.join {
        return false;
      }
      JoinBss(e.bss);
      return true;
    }

    method Authenticate(e: Event)
      requires e.Auth?
      modifies this
      ensures View() == AuthStep(old(View()), e)
      ensures Kept(old(View()), e, View(), station)
    {
      StepKept(View(), e, station);
      var go := PrepareAuth(e);
      if go {
        SendAuth(e);
      }
    }

    method SendAuth(e: Event)
      requires e.Auth?
      modifies this
      ensures View() == AuthSend(old(View()), e)
    {
      if e.key {
        StartAttempt(e.now, e.open);
        if e.cmd {
          SetTimer(e.now);
          if e.confirmed {
            state := Authed;
          }
          return;
        }
      }
      var _ := UnjoinBss(e.bss, e.leave3);
      state := Idle;
    }

    method StartAttempt(now: nat, open: bool)
      modifies this
      ensures View() == old(View()).(authStart := now, retry := 0, redo := 0, stepStart := now, ctxStart := now,
                                     openSystem := open, rty := NoRetry, ctxTo := AUTH_TIMEOUT, state := Authing,
                                     authSent := 1, assocSent := 0)
    {
      StartClocks(now);
      retry, redo, openSystem, rty, state := 0, 0, open, NoRetry, Authing;
      authSent, assocSent := 1, 0;
    }

    method StartClocks(now: nat)
      modifies this`authStart, this`stepStart, this`ctxStart, this`ctxTo
      ensures authStart == stepStart == ctxStart == now && ctxTo == AUTH_TIMEOUT
    {
      authStart, stepStart, ctxStart, ctxTo := now, now, now, AUTH_TIMEOUT;
    }

    method SetTimer(now: nat)
      modifies this`timer, this`due
      ensures View() == Arm(old(View()), now)
    {
      if !timer {
        timer, due := true, now + STEP_TIMEOUT;
      }
    }

    method Associate(e: Event)
      requires e.Assoc?
      modifies this
      ensures View() == AssocStep(old(View()), e)
      ensures Kept(old(View()), e, View(), station)
    {
      StepKept(View(), e, station);
      if state.Assoced? || state.Completed? {
        var go := SwitchBss(e);
        if go {
          SendAssoc(e);
        }
      } else if state.Authed? {
        SendAssoc(e);
      }
    }

    /** Moves a connected station to another BSS; false ends the request. */
    method SwitchBss(e: Event) returns (go: bool)
      requires e.Assoc?
      modifies this`peer, this`bssid, this`state
      ensures (View(), go) == Switch(old(View()), e)
    {
      if bssid == e.bss {
        return false;
      }
      state := Idle;
      var left := UnjoinBss(bssid, e.leave1);
      if !left || !e.join {
        return false;
      }
      JoinBss(e.bss);
      state := Authed;
      return true;
    }

    method SendAssoc(e: Event)
      requires e.Assoc?
      modifies this
      ensures View() == AssocSend(old(View()), e)
    {
      StartAssoc(e.now);
      if e.cmd {
        SetTimer(e.now);
      } else {
        timer := false;
        var _ := UnjoinBss(e.bss, e.leave2);
        state := Idle;
      }
    }

    method StartAssoc(now: nat)
      modifies this
      ensures View() == old(View()).(retry := 0, ctxStart := now, ctxTo := ASSOC_TIMEOUT, state := Associng,
          assocSent := old(assocSent) + 1)
    {
      retry, ctxStart, ctxTo, state := 0, now, ASSOC_TIMEOUT, Associng;
      assocSent := assocSent + 1;
    }

    /** Starts over with authentication; true means that the attempt has failed. */
    method RedoAuth(e: Event) returns (failed: bool)
      requires e.Work?
      modifies this
      ensures (View(), failed) == Redo(old(View()), e)
    {
      if e.now > ctxStart + ctxTo || redo >= MAX_REDO {
        return true;
      }
      if state.Associng? {
        rty := RetryAssoc;
      } else if rty.NoRetry? {
        rty := RetryAuth;
      }
      if !e.deauth {
        return true;
      }
      state := Idle;
      redo := redo + 1;
      authSent := authSent + 1;
      if !e.cmd {
        return true;
      }
      retry, stepStart, state := 0, e.now, Authing;
      return false;
    }

    method RetryStep(e: Event, max: nat) returns (failed: bool)
      requires e.Work?
      modifies this
      ensures (View(), failed) == Again(old(View()), e, station, max)
    {
      if e.now <= stepStart + STEP_TIMEOUT {
        return false;
      }
      retry := retry + 1;
      if retry >= max && station && openSystem {
        failed := RedoAuth(e);
      } else if retry >= max {
        failed := true;
      } else {
        if state.Authing? {
          authSent := authSent + 1;
        } else {
          assocSent := assocSent + 1;
        }
        failed := !e.cmd;
      }
    }

    method RunWork(e: Event)
      requires e.Work?
      modifies this
      ensures View() == WorkStep(old(View()), e, station)
    {
      if !work {
        return;
      }
      work := false;
      var late := e.now > authStart + AUTH_TIMEOUT + ASSOC_TIMEOUT;
      if state.Authed? {
        if e.now > stepStart + STEP_TIMEOUT {
          LeaveBss(bssid, e.leave);
        } else {
          SetTimer(e.now);
        }
      } else if state.Authing? || state.Associng? {
        var failed := RetryStep(e, if state.Authing? then MAX_AUTH_RETRY else MAX_ASSOC_RETRY);
        if failed || late {
          LeaveBss(bssid, e.leave);
        } else {
          SetTimer(e.now);
        }
      }
    }

    /** The work behind the step timer; past the overall deadline it ends a pending request. */
    method StaWork(e: Event)
      requires e.Work?
      modifies this
      ensures View() == WorkStep(old(View()), e, station)
      ensures Kept(old(View()), e, View(), station)
      ensures old(work && (state.Authing? || state.Associng?)) && e.now > old(authStart) + AUTH_TIMEOUT + ASSOC_TIMEOUT
          ==> state.Idle? && !timer
    {
      StepKept(View(), e, station);
      if work && (state.Authing? || state.Associng?) && e.now > authStart + AUTH_TIMEOUT + ASSOC_TIMEOUT {
        DeadlineEnds(View(), e, station);
      }
      RunWork(e);
    }

    method MarkAuthed(now: nat)
      modifies this`state, this`stepStart, this`retry
      ensures state == Authed && stepStart == now && retry == 0
    {
      state, stepStart, retry := Authed, now, 0;
    }

    method AnswerAuth(e: Event)
      requires e.RxAuth?
      modifies this
      ensures View() == RxAuthStep(old(View()), e)
    {
      if bssid != e.from {
        return;
      }
      MarkAuthed(e.now);
      if !e.success {
        LeaveBss(e.from, e.leave);
      }
      if rty.RetryAssoc? {
        state := Associng;
      }
    }

    method RxAuthFrame(e: Event)
      requires e.RxAuth?
      modifies this
      ensures View() == RxAuthStep(old(View()), e)
      ensures Kept(old(View()), e, View(), station)
    {
      RxAuthKept(View(), e, station);
      AnswerAuth(e);
    }

    method RxAssocFrame(from: nat, success: bool)
      modifies this`state
      ensures View() == Step(old(View()), RxAssoc(from, success), station)
      ensures Kept(old(View()), RxAssoc(from, success), View(), station)
      ensures state == if peer == 0 || peer != from then old(state) else if success then Assoced else Idle
    {
      StepKept(View(), RxAssoc(from, success), station);
      if peer == 0 || peer != from {
        return;
      }
      state := if success then Assoced else Idle;
    }

    method RxDeauthFrame(from: nat, leave: bool)
      modifies this
      ensures View() == Step(old(View()), RxDeauth(from, leave), station)
    {
      if from != 0 && peer == from {
        LeaveBss(from, leave);
      }
    }

    method AuthorizePeer(mac: nat)
      modifies this`state
      ensures View() == Step(old(View()), Authorize(mac), station)
    {
      if mac != 0 && peer == mac {
        state := Completed;
      }
    }

    method TimerExpires(now: nat)
      modifies this`timer, this`work
      ensures View() == Step(old(View()), TimerFires(now), station)
    {
      if timer && due <= now {
        timer, work := false, true;
      }
    }

    method Dispatch(e: Event)
      modifies this
      ensures View() == Step(old(View()), e, station)
    {
      match e
      case Auth(_, _, _, _, _, _, _, _, _, _, _) => Authenticate(e);
      case Assoc(_, _, _, _, _, _) => Associate(e);
      case TimerFires(now) => TimerExpires(now);
      case Work(_, _, _, _) => StaWork(e);
      case RxAuth(_, _, _, _) => RxAuthFrame(e);
      case RxAssoc(from, success) => RxAssocFrame(from, success);
      case RxDeauth(from, leave) => RxDeauthFrame(from, leave);
      case Leave(bss, leave) => LeaveBss(bss, leave);
      case Authorize(mac) => AuthorizePeer(mac);
    }

    /**
     Whatever happens: a pending step keeps its peer and something that drives it, exactly unless
     the event strands it; the attempt stays within its caps, and nothing is sent beyond the budget.
     */
    method Handle(e: Event)
      requires Valid()
      modifies this
      ensures Valid() && extra == ExtraAfter(old(View()), e, old(extra))
      ensures authSent <= AuthCap(station, openSystem) && assocSent <= AssocCap(station, openSystem) + 5 * extra
      ensures old(Alive(View())) && GoodEvent(e) ==> (Alive(View()) <==> !Strands(old(View()), e))
      ensures !Begins(old(View()), e) ==> Within(old(View()), View(), station, if Surplus(old(View()), e) then 5 else 0)
      ensures View() == Step(old(View()), e, station)
    {
      StepCapped(View(), e, station, extra);
      StepKept(View(), e, station);
      ghost var after := ExtraAfter(View(), e, extra);
      Dispatch(e);
      extra := after;
    }
  }
}
