/**
 What each event does to the station, case by case and outcome by outcome, where the BSS record and
 the bound peer agree; they always do on runs from the start.
 */
module StationExact {
  import opened Station

  predicate Agrees(s: Sta) {
    s.peer == s.bssid
  }

  lemma {:induction false} RunAgrees(s: Sta, evs: seq<Event>, station: bool)
    requires Agrees(s)
    ensures Agrees(Run(s, evs, station))
    decreases |evs|
  {
    if evs != [] {
      StepAgrees(s, evs[0], station);
      RunAgrees(Step(s, evs[0], station), evs[1..], station);
    }
  }

  lemma StepAgrees(s: Sta, e: Event, station: bool)
    requires Agrees(s)
    ensures Agrees(Step(s, e, station))
  {
    match e
    case Auth(_, _, _, _, _, _, _, _, _, _, _) => AuthAgrees(s, e);
    case Work(_, _, _, _) => WorkAgrees(s, e, station);
    case _ =>
  }

  lemma AuthAgrees(s: Sta, e: Event)
    requires Agrees(s) && e.Auth?
    ensures Agrees(AuthStep(s, e))
  {
    assert Agrees(Prepare(s, e).0);
  }

  lemma WorkAgrees(s: Sta, e: Event, station: bool)
    requires Agrees(s) && e.Work?
    ensures Agrees(WorkStep(s, e, station))
  {
    var w := s.(work := false);
    assert Agrees(Again(w, e, station, if w.state.Authing? then MAX_AUTH_RETRY else MAX_ASSOC_RETRY).0);
  }

  /* ---- Leaving ---- */

  /** The attempt or connection is over: the timer is off, and the peer is gone if it was told. */
  predicate Over(s: Sta, t: Sta, told: bool) {
    && t.state.Idle? && !t.timer && t.peer == t.bssid == (if told then 0 else s.peer)
    && t.authSent == s.authSent && t.assocSent == s.assocSent
  }

  /** A deauthentication from the bound peer, and a disconnect. */
  lemma LeaveExact(s: Sta, e: Event, station: bool)
    requires Agrees(s) && (e.RxDeauth? || e.Leave?)
    ensures e.RxDeauth? && (e.from == 0 || e.from != s.peer) ==> Step(s, e, station) == s
    ensures e.RxDeauth? && e.from == s.peer != 0 ==> Over(s, Step(s, e, station), e.leave)
    ensures e.Leave? ==> Over(s, Step(s, e, station), e.leave && e.bss == s.peer)
  {
  }

  /* ---- The work behind the timer ---- */

  predicate StepLate(s: Sta, now: nat) {
    now > s.stepStart + 300
  }

  predicate AllLate(s: Sta, now: nat) {
    now > s.authStart + 9600
  }

  /** The late step has used up its sends: three for authentication, five for association. */
  predicate Exhausted(s: Sta) {
    s.retry + 1 >= if s.state.Authing? then 3 else 5
  }

  /** An exhausted step starts over; `Restartable` tells whether that is tried, before its commands. */
  predicate Restartable(s: Sta, e: Event, station: bool)
    requires e.Work?
  {
    station && s.openSystem && e.now <= s.ctxStart + s.ctxTo && s.redo < 3
  }

  /** A late step fails: its command does, or it is exhausted and cannot start over. */
  predicate Fails(s: Sta, e: Event, station: bool)
    requires e.Work?
  {
    StepLate(s, e.now) && if Exhausted(s) then !Restartable(s, e, station) || !e.deauth || !e.cmd else !e.cmd
  }

  /** The commands that the work sends: the pending one again, or AUTH when it starts over. */
  predicate Sends(s: Sta, e: Event, t: Sta, station: bool)
    requires e.Work?
  {
    var again := StepLate(s, e.now) && !Exhausted(s);
    var over := StepLate(s, e.now) && Exhausted(s) && Restartable(s, e, station) && e.deauth;
    && t.authSent == s.authSent + (if over || (again && s.state.Authing?) then 1 else 0)
    && t.assocSent == s.assocSent + (if again && s.state.Associng? then 1 else 0)
  }

  /** The attempt goes on with the timer armed; a step started over begins now, one sent again has one try less. */
  predicate GoesOn(s: Sta, e: Event, t: Sta)
    requires e.Work?
  {
    var restarted := StepLate(s, e.now) && Exhausted(s);
    && t.timer && !t.work && t.peer == s.peer && t.authStart == s.authStart && t.ctxStart == s.ctxStart
    && t.due == (if s.timer then s.due else e.now + 300) && t.ctxTo == s.ctxTo
    && t.state == (if restarted then Authing else s.state)
    && t.stepStart == (if restarted then e.now else s.stepStart)
    && t.redo == (if restarted then s.redo + 1 else s.redo)
    && t.retry == (if restarted then 0 else if StepLate(s, e.now) then s.retry + 1 else s.retry)
    && (restarted ==> (t.rty.RetryAssoc? <==> s.state.Associng? || s.rty.RetryAssoc?) && !t.rty.NoRetry?)
    && (!restarted ==> t.rty == s.rty)
  }

  /** Given up exactly if late or failed, and otherwise driven on. */
  predicate Decides(s: Sta, e: Event, t: Sta, station: bool)
    requires e.Work?
  {
    if AllLate(s, e.now) || Fails(s, e, station)
    then t.state.Idle? && !t.timer && !t.work && t.peer == t.bssid == (if e.leave then 0 else s.peer)
    else GoesOn(s, e, t)
  }

  /** What `Again` leaves for the end of the work. */
  lemma AgainSends(w: Sta, e: Event, station: bool)
    requires e.Work? && (w.state.Authing? || w.state.Associng?)
    ensures var (r, failed) := Again(w, e, station, if w.state.Authing? then MAX_AUTH_RETRY else MAX_ASSOC_RETRY);
            && Sends(w, e, r, station) && (failed <==> Fails(w, e, station))
            && r.peer == w.peer && r.bssid == w.bssid && r.work == w.work
            && r.timer == w.timer && r.due == w.due
  {
  }

  lemma AgainGoesOn(w: Sta, e: Event, station: bool)
    requires e.Work? && (w.state.Authing? || w.state.Associng?) && !Fails(w, e, station) && !w.work
    ensures var r := Again(w, e, station, if w.state.Authing? then MAX_AUTH_RETRY else MAX_ASSOC_RETRY).0;
            GoesOn(w, e, Arm(r, e.now))
  {
  }

  lemma LeftOver(r: Sta, ok: bool)
    requires Agrees(r)
    ensures var t := StaLeave(r, r.bssid, ok);
            && t.state.Idle? && !t.timer && t.work == r.work && t.peer == t.bssid == (if ok then 0 else r.peer)
            && t.authSent == r.authSent && t.assocSent == r.assocSent
  {
  }

  lemma ConcludeExact(s: Sta, w: Sta, res: (Sta, bool), e: Event, station: bool)
    requires Agrees(s) && e.Work? && w.authStart == s.authStart && res.0.peer == res.0.bssid == s.peer && !res.0.work
    requires Sends(s, e, res.0, station) && (res.1 <==> Fails(s, e, station))
    requires !res.1 ==> GoesOn(s, e, Arm(res.0, e.now))
    ensures Sends(s, e, Conclude(w, res, e), station) && Decides(s, e, Conclude(w, res, e), station)
  {
    LeftOver(res.0, e.leave);
  }

  /** The work on authentication and association. */
  lemma {:induction false} WorkExact(s: Sta, e: Event, station: bool)
    requires Agrees(s) && e.Work? && s.work && (s.state.Authing? || s.state.Associng?)
    ensures Sends(s, e, WorkStep(s, e, station), station) && Decides(s, e, WorkStep(s, e, station), station)
  {
    var w := s.(work := false);
    var max := if w.state.Authing? then MAX_AUTH_RETRY else MAX_ASSOC_RETRY;
    AgainSends(w, e, station);
    if !Fails(w, e, station) {
      AgainGoesOn(w, e, station);
    }
    ConcludeExact(s, w, Again(w, e, station, max), e, station);
  }

  /** Between the two, the work only waits for the request to associate, for 300 ms. Otherwise it does nothing. */
  lemma WorkElse(s: Sta, e: Event, station: bool)
    requires Agrees(s) && e.Work? && !(s.work && (s.state.Authing? || s.state.Associng?))
    ensures var t := Step(s, e, station);
            && (s.work && s.state.Authed? && StepLate(s, e.now) ==> Over(s, t, e.leave))
            && (s.work && s.state.Authed? && !StepLate(s, e.now) ==>
                  t == s.(work := false, timer := true, due := if s.timer then s.due else e.now + 300))
            && (!(s.work && s.state.Authed?) ==> t == s.(work := false))
  {
  }

  /* ---- Requests ---- */

  /** A request for authentication that is turned down at once. */
  predicate Busy(s: Sta, e: Event)
    requires e.Auth?
  {
    s.state.Authing? || s.state.Associng? || ((s.state.Assoced? || s.state.Completed?) && s.bssid == e.bss)
  }

  /** What was bound before has been left. */
  predicate Cleared(s: Sta, e: Event)
    requires e.Auth?
  {
    s.bssid == 0 || if s.state.Idle? then e.leave2 else e.leave1
  }

  /** The attempt begins: everything it measures and counts starts now. */
  predicate Begun(s: Sta, e: Event, t: Sta)
    requires e.Auth?
  {
    && t.state == (if e.confirmed then Authed else Authing)
    && t.authStart == t.stepStart == t.ctxStart == e.now && t.ctxTo == 4800
    && t.retry == t.redo == 0 && t.rty.NoRetry? && t.openSystem == e.open
    && t.authSent == 1 && t.assocSent == 0
    && t.peer == t.bssid == (if s.state.Authed? then s.peer else e.bss)
    && t.timer && t.due == (if s.timer then s.due else e.now + 300)
  }

  /** The peer that the request is about, once the way is clear. */
  function Target(s: Sta, e: Event): nat
    requires e.Auth? || e.Assoc?
  {
    if s.state.Authed? then s.peer else e.bss
  }

  predicate Joined(s: Sta, e: Event)
    requires e.Auth?
  {
    s.state.Authed? || (Cleared(s, e) && e.channel && e.join)
  }

  /**
   A request is turned down, or begins an attempt, or leaves the station idle: with the old peer where
   it could not be left, with none where the channel or the join failed, and with the new one where
   its command failed and it could not be left either.
   */
  predicate Answered(s: Sta, e: Event, t: Sta)
    requires e.Auth?
  {
    if Busy(s, e) then t == s
    else if Joined(s, e) && e.key && e.cmd then Begun(s, e, t)
    else
      && t.state.Idle?
      && t.peer == t.bssid == (if !Joined(s, e) then if Cleared(s, e) then 0 else s.peer
                               else if e.leave3 && Target(s, e) == e.bss then 0
                               else Target(s, e))
  }

  lemma PrepareExact(s: Sta, e: Event)
    requires Agrees(s) && e.Auth? && e.bss != 0 && !Busy(s, e)
    ensures var (p, go) := Prepare(s, e);
            && (go <==> Joined(s, e))
            && p.timer == s.timer && p.due == s.due
            && (go ==> p.peer == p.bssid == Target(s, e))
            && (!go ==> p.state.Idle? && p.peer == p.bssid == if Cleared(s, e) then 0 else s.peer)
  {
  }

  lemma AuthSendExact(p: Sta, e: Event, peer: nat)
    requires e.Auth? && e.bss != 0 && p.peer == p.bssid == peer
    ensures var t := AuthSend(p, e);
            if e.key && e.cmd then
              && t.state == (if e.confirmed then Authed else Authing)
              && t.authStart == t.stepStart == t.ctxStart == e.now && t.ctxTo == 4800
              && t.retry == t.redo == 0 && t.rty.NoRetry? && t.openSystem == e.open
              && t.authSent == 1 && t.assocSent == 0 && t.peer == t.bssid == peer
              && t.timer && t.due == (if p.timer then p.due else e.now + 300)
            else t.state.Idle? && t.peer == t.bssid == if e.leave3 && peer == e.bss then 0 else peer
  {
  }

  lemma {:induction false} AuthExact(s: Sta, e: Event)
    requires Agrees(s) && e.Auth? && e.bss != 0
    ensures Answered(s, e, AuthStep(s, e))
  {
    if !Busy(s, e) {
      PrepareExact(s, e);
      var (p, go) := Prepare(s, e);
      if go {
        AuthSendExact(p, e, Target(s, e));
      }
    }
  }

  /** A request to associate goes out from AUTHED, or from a connection to another BSS that is left and joined. */
  predicate Associates(s: Sta, e: Event)
    requires e.Assoc?
  {
    || s.state.Authed?
    || ((s.state.Assoced? || s.state.Completed?) && s.bssid != e.bss && (s.bssid == 0 || e.leave1) && e.join)
  }

  /** The request is out: a new step of the same attempt, or the end of it where its command failed. */
  predicate Requested(s: Sta, e: Event, t: Sta)
    requires e.Assoc?
  {
    && t.assocSent == s.assocSent + 1 && t.authSent == s.authSent
    && t.retry == 0 && t.ctxStart == e.now && t.ctxTo == 4800
    && t.stepStart == s.stepStart && t.authStart == s.authStart && t.redo == s.redo && t.rty == s.rty
    && if e.cmd then t.state.Associng? && t.timer && t.peer == Target(s, e)
                     && t.due == (if s.timer then s.due else e.now + 300)
       else t.state.Idle? && !t.timer && t.peer == if e.leave2 && Target(s, e) == e.bss then 0 else Target(s, e)
  }

  lemma AssocSendExact(s: Sta, j: Sta, e: Event)
    requires e.Assoc? && e.bss != 0 && j.peer == j.bssid == Target(s, e)
    requires j == s.(peer := j.peer, bssid := j.bssid, state := j.state)
    ensures Requested(s, e, AssocSend(j, e))
  {
  }

  /** A request to associate goes out, or gives up a connection that it could not replace, or does nothing. */
  lemma {:induction false} AssocExact(s: Sta, e: Event)
    requires Agrees(s) && e.Assoc? && e.bss != 0
    ensures var t := AssocStep(s, e);
            if Associates(s, e) then Requested(s, e, t)
            else if (s.state.Assoced? || s.state.Completed?) && s.bssid != e.bss then
              t == s.(state := Idle, peer := t.peer, bssid := t.peer)
                  && t.peer == if s.bssid == 0 || e.leave1 then 0 else s.peer
            else t == s
  {
    if s.state.Authed? {
      AssocSendExact(s, s, e);
    } else if s.state.Assoced? || s.state.Completed? {
      var (j, go) := Switch(s, e);
      if go {
        AssocSendExact(s, j, e);
      }
    }
  }

  /* ---- Frames ---- */

  /** An authentication frame from the recorded BSS. */
  lemma RxAuthExact(s: Sta, e: Event)
    requires Agrees(s) && e.RxAuth?
    ensures var t := RxAuthStep(s, e);
            if e.from != s.bssid then t == s
            else
              && t.stepStart == e.now && t.retry == 0 && t.rty == s.rty && t.redo == s.redo && t.work == s.work
              && t.state == (if s.rty.RetryAssoc? then Associng else if e.success then Authed else Idle)
              && t.authSent == s.authSent && t.assocSent == s.assocSent
              && t.timer == (s.timer && e.success)
              && t.peer == t.bssid == (if !e.success && e.leave then 0 else s.peer)
  {
  }

  /** Association responses and authorizations touch nothing but the state. */
  lemma RxAssocExact(s: Sta, e: Event, station: bool)
    requires e.RxAssoc? || e.Authorize?
    ensures var t := Step(s, e, station);
            && t == s.(state := t.state)
            && (e.RxAssoc? ==> t.state == if s.peer == 0 || s.peer != e.from then s.state
                                          else if e.success then Assoced else Idle)
            && (e.Authorize? ==> t.state == if s.peer == 0 || s.peer != e.mac then s.state else Completed)
  {
  }

  lemma TimerExact(s: Sta, e: Event, station: bool)
    requires e.TimerFires?
    ensures var t := Step(s, e, station);
            if s.timer && s.due <= e.now then t == s.(timer := false, work := true) else t == s
  {
  }
}
