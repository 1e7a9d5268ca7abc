/**
 The station's connection state machine: authentication, association, the retry work behind the
 step timer and the handlers for the peer's frames. Firmware commands succeed or fail as the
 event says. Times are in milliseconds.
 */
module Station {

  const AUTH_TIMEOUT: nat := 4800
  const ASSOC_TIMEOUT: nat := 4800
  const STEP_TIMEOUT: nat := 300
  const MAX_AUTH_RETRY: nat := 3
  const MAX_ASSOC_RETRY: nat := 5
  const MAX_REDO: nat := 3

  datatype State = Idle | Authing | Authed | Associng | Assoced | Completed

  datatype Retry = NoRetry | RetryAuth | RetryAssoc

  /**
   MAC addresses are numbers and zero is the cleared address. `bssid` is the BSS record, `peer` the
   bound peer context. `due` is when the step timer was last set to expire.
   */
  datatype Sta = Sta(state: State, rty: Retry, bssid: nat, peer: nat, retry: nat, redo: nat,
                     stepStart: nat, ctxStart: nat, ctxTo: nat, authStart: nat, openSystem: bool,
                     timer: bool, due: nat, work: bool, authSent: nat, assocSent: nat)

  const INITIAL: Sta := Sta(Idle, NoRetry, 0, 0, 0, 0, 0, 0, 0, 0, false, false, 0, false, 0, 0)

  /** What can happen. The booleans are the outcomes of firmware commands and of channel checks. */
  datatype Event =
    | Auth(now: nat, bss: nat, open: bool, leave1: bool, leave2: bool, channel: bool, join: bool, key: bool,
        cmd: bool, leave3: bool, confirmed: bool)
    | Assoc(now: nat, bss: nat, leave1: bool, join: bool, cmd: bool, leave2: bool)
    | TimerFires(now: nat)
    | Work(now: nat, deauth: bool, cmd: bool, leave: bool)
    | RxAuth(now: nat, from: nat, success: bool, leave: bool)
    | RxAssoc(from: nat, success: bool)
    | RxDeauth(from: nat, leave: bool)
    | Leave(bss: nat, leave: bool)
    | Authorize(mac: nat)

  /* ---- The operations ---- */

  /** Leaves the BSS if a peer is bound for it; false only when the command fails. */
  function Unjoin(s: Sta, bss: nat, ok: bool): (Sta, bool) {
    if bss == 0 || s.peer != bss then (s, true)
    else if ok then (s.(peer := 0, bssid := 0), true)
    else (s, false)
  }

  function Join(s: Sta, bss: nat): Sta {
    s.(peer := bss, bssid := bss)
  }

  /** Sets the step timer, unless it is pending. */
  function Arm(s: Sta, now: nat): Sta {
    if s.timer then s else s.(timer := true, due := now + STEP_TIMEOUT)
  }

  function StaLeave(s: Sta, bss: nat, ok: bool): Sta {
    Unjoin(s.(timer := false, state := Idle), bss, ok).0
  }

  /** The part of an authentication request that clears the way: None if it ends there. */
  function Prepare(s: Sta, e: Event): (Sta, bool)
    requires e.Auth?
  {
    match s.state
    case Authing => (s, false)
    case Associng => (s, false)
    case Authed => (s, true)
    case _ =>
      if !s.state.Idle? && s.bssid == e.bss then (s, false)
      else
        var (s1, ok1) := if s.state.Idle? then (s, true) else Unjoin(s.(state := Idle), s.bssid, e.leave1);
        if !ok1 then (s1, false)
        else
          var (s2, ok2) := if s1.bssid != 0 then Unjoin(s1, s1.bssid, e.leave2) else (s1, true);
          if !ok2 || !e.channel || !e.join then (s2, false) else (Join(s2, e.bss), true)
  }

  /** The command itself, with its timer; a failure gives the BSS up again. */
  function AuthSend(p: Sta, e: Event): Sta
    requires e.Auth?
  {
    if !e.key then Unjoin(p, e.bss, e.leave3).0.(state := Idle)
    else
      var a := p.(authStart := e.now, retry := 0, redo := 0, stepStart := e.now, ctxStart := e.now,
                  openSystem := e.open, rty := NoRetry, ctxTo := AUTH_TIMEOUT, state := Authing, authSent := 1,
                      assocSent := 0);
      if !e.cmd then Unjoin(a, e.bss, e.leave3).0.(state := Idle)
      else Arm(a, e.now).(state := if e.confirmed then Authed else Authing)
  }

  function AuthStep(s: Sta, e: Event): Sta
    requires e.Auth?
  {
    var (p, go) := Prepare(s, e);
    if go then AuthSend(p, e) else p
  }

  function AssocSend(s: Sta, e: Event): Sta
    requires e.Assoc?
  {
    var a := s.(retry := 0, ctxStart := e.now, ctxTo := ASSOC_TIMEOUT, state := Associng, assocSent := s.assocSent + 1);
    if e.cmd then Arm(a, e.now) else Unjoin(a.(timer := false), e.bss, e.leave2).0.(state := Idle)
  }

  function AssocStep(s: Sta, e: Event): Sta
    requires e.Assoc?
  {
    match s.state
    case Authed => AssocSend(s, e)
    case Assoced => Reassoc(s, e)
    case Completed => Reassoc(s, e)
    case _ => s
  }

  /** Association from a connected state: to another BSS, after leaving this one. */
  function Switch(s: Sta, e: Event): (Sta, bool)
    requires e.Assoc?
  {
    if s.bssid == e.bss then (s, false)
    else
      var (u, ok) := Unjoin(s.(state := Idle), s.bssid, e.leave1);
      if !ok || !e.join then (u, false) else (Join(u, e.bss).(state := Authed), true)
  }

  function Reassoc(s: Sta, e: Event): Sta
    requires e.Assoc?
  {
    var (j, go) := Switch(s, e);
    if go then AssocSend(j, e) else j
  }

  /** Starts over with authentication: the state, and whether the attempt has failed. */
  function Redo(s: Sta, e: Event): (Sta, bool)
    requires e.Work?
  {
    if e.now > s.ctxStart + s.ctxTo || s.redo >= MAX_REDO then (s, true)
    else
      var r := s.(rty := if s.state.Associng? then RetryAssoc else if s.rty.NoRetry? then RetryAuth else s.rty);
      if !e.deauth then (r, true)
      else
        var a := r.(state := Idle, redo := r.redo + 1, authSent := r.authSent + 1);
        if !e.cmd then (a, true) else (a.(retry := 0, stepStart := e.now, state := Authing), false)
  }

  /** One retry of the pending step, given how many the state allows. */
  function Again(s: Sta, e: Event, station: bool, max: nat): (Sta, bool)
    requires e.Work?
  {
    if e.now <= s.stepStart + STEP_TIMEOUT then (s, false)
    else
      var n := s.(retry := s.retry + 1);
      if n.retry >= max && station && n.openSystem then Redo(n, e)
      else if n.retry >= max then (n, true)
      else if n.state.Authing? then (n.(authSent := n.authSent + 1), !e.cmd)
      else (n.(assocSent := n.assocSent + 1), !e.cmd)
  }

  /** The work behind the step timer. */
  function WorkStep(s: Sta, e: Event, station: bool): Sta
    requires e.Work?
  {
    if !s.work then s
    else
      var w := s.(work := false);
      match w.state
      case Authed =>
        if e.now > w.stepStart + STEP_TIMEOUT then StaLeave(w, w.bssid, e.leave) else Arm(w, e.now)
      case Authing => Conclude(w, Again(w, e, station, MAX_AUTH_RETRY), e)
      case Associng => Conclude(w, Again(w, e, station, MAX_ASSOC_RETRY), e)
      case _ => w
  }

  function Conclude(w: Sta, res: (Sta, bool), e: Event): Sta
    requires e.Work?
  {
    if res.1 || e.now > w.authStart + AUTH_TIMEOUT + ASSOC_TIMEOUT
    then StaLeave(res.0, res.0.bssid, e.leave)
    else Arm(res.0, e.now)
  }

  function RxAuthStep(s: Sta, e: Event): Sta
    requires e.RxAuth?
  {
    if s.bssid != e.from then s
    else
      var a := s.(state := Authed, stepStart := e.now, retry := 0);
      var b := if e.success then a else StaLeave(a, e.from, e.leave);
      if b.rty.RetryAssoc? then b.(state := Associng) else b
  }

  function Step(s: Sta, e: Event, station: bool): Sta {
    match e
    case Auth(_, _, _, _, _, _, _, _, _, _, _) => AuthStep(s, e)
    case Assoc(_, _, _, _, _, _) => AssocStep(s, e)
    case TimerFires(now) => if s.timer && s.due <= now then s.(timer := false, work := true) else s
    case Work(_, _, _, _) => WorkStep(s, e, station)
    case RxAuth(_, _, _, _) => RxAuthStep(s, e)
    case RxAssoc(from, success) =>
      if s.peer == 0 || s.peer != from then s else s.(state := if success then Assoced else Idle)
    case RxDeauth(from, leave) => if from == 0 || s.peer != from then s else StaLeave(s, from, leave)
    case Leave(bss, leave) => StaLeave(s, bss, leave)
    case Authorize(mac) => if mac == 0 || s.peer != mac then s else s.(state := Completed)
  }

  /* ---- No connection attempt hangs ---- */

  predicate Pending(s: Sta) {
    s.state.Authing? || s.state.Authed? || s.state.Associng?
  }

  predicate Armed(s: Sta) {
    s.timer || s.work
  }

  /** The BSS record and the bound peer agree, and a pending step has a peer and something that will drive it. */
  predicate Alive(s: Sta) {
    s.peer == s.bssid && (Pending(s) ==> s.bssid != 0 && Armed(s))
  }

  /** Requests name a real BSS. */
  predicate GoodEvent(e: Event) {
    (e.Auth? || e.Assoc?) ==> e.bss != 0
  }

  /**
   The events that leave a pending step with nothing to drive it: an authentication frame for the
   recorded BSS when nothing is armed, and a refusal while association is being redone.
   */
  predicate Strands(s: Sta, e: Event) {
    && e.RxAuth? && e.from == s.bssid
    && if e.success then s.bssid == 0 || !Armed(s)
       else s.rty.RetryAssoc? && (s.bssid == 0 || e.leave || !s.work)
  }

  lemma PrepareAlive(s: Sta, e: Event)
    requires Alive(s) && e.Auth? && e.bss != 0
    ensures var (p, go) := Prepare(s, e);
            && p.peer == p.bssid
            && (go ==> p.bssid != 0 && (p.timer == s.timer && p.work == s.work))
            && (!go ==> Alive(p))
  {
  }

  lemma AuthAlive(s: Sta, e: Event)
    requires Alive(s) && e.Auth? && e.bss != 0
    ensures Alive(AuthStep(s, e))
  {
    PrepareAlive(s, e);
  }

  lemma AssocAlive(s: Sta, e: Event)
    requires Alive(s) && e.Assoc? && e.bss != 0
    ensures Alive(AssocStep(s, e))
  {
  }

  lemma AgainAlive(s: Sta, e: Event, station: bool, max: nat)
    requires s.peer == s.bssid != 0 && e.Work? && (s.state.Authing? || s.state.Associng?)
    ensures var (r, failed) := Again(s, e, station, max);
            r.peer == r.bssid == s.bssid && (!failed ==> r.state.Authing? || r.state.Associng?)
  {
  }

  lemma WorkAlive(s: Sta, e: Event, station: bool)
    requires Alive(s) && e.Work?
    ensures Alive(WorkStep(s, e, station))
  {
    var w := s.(work := false);
    if s.work && (w.state.Authing? || w.state.Associng?) {
      AgainAlive(w, e, station, if w.state.Authing? then MAX_AUTH_RETRY else MAX_ASSOC_RETRY);
    }
  }

  /** Every step keeps the invariant except exactly those. */
  lemma {:induction false} AliveExact(s: Sta, e: Event, station: bool)
    requires Alive(s) && GoodEvent(e)
    ensures Alive(Step(s, e, station)) <==> !Strands(s, e)
  {
    match e
    case Auth(_, _, _, _, _, _, _, _, _, _, _) => AuthAlive(s, e);
    case Assoc(_, _, _, _, _, _) => AssocAlive(s, e);
    case Work(_, _, _, _) => WorkAlive(s, e, station);
    case _ =>
  }

  /* ---- Runs ---- */

  function Run(s: Sta, evs: seq<Event>, station: bool): Sta
    decreases |evs|
  {
    if evs == [] then s else Run(Step(s, evs[0], station), evs[1..], station)
  }

  /** No event of the run strands the attempt. */
  predicate Smooth(s: Sta, evs: seq<Event>, station: bool)
    decreases |evs|
  {
    evs == [] || (GoodEvent(evs[0]) && !Strands(s, evs[0]) && Smooth(Step(s, evs[0], station), evs[1..], station))
  }

  /** On every such run a pending step keeps its peer and something that will drive it. */
  lemma {:induction false} RunAlive(s: Sta, evs: seq<Event>, station: bool)
    requires Alive(s) && Smooth(s, evs, station)
    ensures Alive(Run(s, evs, station))
    decreases |evs|
  {
    if evs != [] {
      AliveExact(s, evs[0], station);
      RunAlive(Step(s, evs[0], station), evs[1..], station);
    }
  }

  /** A refusal while association is redone leaves a station that only a frame or a disconnect can move. */
  lemma Stranded(s: Sta, e: Event, station: bool)
    requires Alive(s) && Pending(s) && Strands(s, e) && !e.success && e.leave && !s.work
    ensures var t := Step(s, e, station);
            && t.state.Associng? && t.peer == 0 && !Armed(t)
            && forall f: Event :: f.Auth? || f.Assoc? || f.TimerFires? || f.Work? ==> Step(t, f, station) == t
  {
  }

  lemma {:induction false} RunSplit(s: Sta, a: seq<Event>, b: seq<Event>, station: bool)
    ensures Run(s, a + b, station) == Run(Run(s, a, station), b, station)
    decreases |a|
  {
    if a == [] {
      assert a + b == b;
    } else {
      assert (a + b)[1..] == a[1..] + b;
      RunSplit(Step(s, a[0], station), a[1..], b, station);
    }
  }

  /** Past the overall deadline, the work ends a pending authentication or association. */
  lemma DeadlineEnds(s: Sta, e: Event, station: bool)
    requires e.Work? && s.work && (s.state.Authing? || s.state.Associng?)
    requires e.now > s.authStart + AUTH_TIMEOUT + ASSOC_TIMEOUT
    ensures Step(s, e, station).state.Idle? && !Step(s, e, station).timer
  {
  }

  /* ---- How many commands an attempt sends ---- */

  /** The event starts a new attempt. */
  predicate Begins(s: Sta, e: Event) {
    e.Auth? && Prepare(s, e).1 && e.key
  }

  function Sub(a: nat, b: nat): nat {
    if b < a then a - b else 0
  }

  /** How often the attempt can still be redone. */
  function RedoLeft(s: Sta, station: bool): nat {
    if station && s.openSystem then Sub(MAX_REDO, s.redo) else 0
  }

  /** How many AUTH commands the retry work can still send. */
  function AuthLeft(s: Sta, station: bool): nat {
    3 * RedoLeft(s, station) + (if s.state.Authing? then Sub(2, s.retry) else 0)
  }

  /** How many ASSOC commands can still be sent, if every authentication frame answers a pending request. */
  function AssocLeft(s: Sta, station: bool): nat {
    4 * RedoLeft(s, station) +
    match s.state
    case Authing => if s.rty.RetryAssoc? then 4 else 5
    case Authed => 5
    case Associng => Sub(4, s.retry)
    case _ => 0
  }

  /** Steps outside the plain course: an authentication frame that nobody waits for, or a move to another BSS. */
  predicate Surplus(s: Sta, e: Event) {
    || (e.RxAuth? && e.from == s.bssid && !s.state.Authing?)
    || (e.Assoc? && (s.state.Assoced? || s.state.Completed?) && s.bssid != e.bss)
  }

  /** What was sent and can still be sent does not grow, except by `extra` ASSOC commands. */
  predicate Within(s: Sta, t: Sta, station: bool, extra: nat) {
    && t.authSent + AuthLeft(t, station) <= s.authSent + AuthLeft(s, station)
    && t.assocSent + AssocLeft(t, station) <= s.assocSent + AssocLeft(s, station) + extra
  }

  lemma AgainBudget(s: Sta, e: Event, station: bool, max: nat)
    requires e.Work? && ((s.state.Authing? && max == MAX_AUTH_RETRY) || (s.state.Associng? && max == MAX_ASSOC_RETRY))
    ensures var (r, failed) := Again(s, e, station, max);
            && r.authSent + (if failed then 0 else AuthLeft(r, station)) <= s.authSent + AuthLeft(s, station)
            && r.assocSent + (if failed then 0 else AssocLeft(r, station)) <= s.assocSent + AssocLeft(s, station)
            && RedoLeft(r, station) <= RedoLeft(s, station)
            && r.authSent + 3 * RedoLeft(r, station) <= s.authSent + AuthLeft(s, station)
            && r.assocSent + 4 * RedoLeft(r, station) <= s.assocSent + AssocLeft(s, station)
  {
  }

  lemma LeaveBudget(s: Sta, bss: nat, ok: bool, station: bool)
    ensures var r := StaLeave(s, bss, ok);
            && r.authSent == s.authSent && r.assocSent == s.assocSent
            && AuthLeft(r, station) == 3 * RedoLeft(s, station) && AssocLeft(r, station) == 4 * RedoLeft(s, station)
  {
  }

  /** The counters behind the budget agree. */
  predicate SameCounters(p: Sta, s: Sta) {
    p.authSent == s.authSent && p.assocSent == s.assocSent && p.redo == s.redo && p.openSystem == s.openSystem
  }

  lemma UnjoinKeeps(s: Sta, bss: nat, ok: bool)
    ensures var u := Unjoin(s, bss, ok).0;
            SameCounters(u, s) && u.state == s.state && u.rty == s.rty && u.retry == s.retry
  {
  }

  lemma PrepareKeeps(s: Sta, e: Event)
    requires e.Auth?
    ensures var (p, go) := Prepare(s, e);
            SameCounters(p, s) && (go || p.state.Idle? || p == s)
  {
    if !Prepare(s, e).1 && Prepare(s, e).0 != s {
      var s1 := if s.state.Idle? then s else Unjoin(s.(state := Idle), s.bssid, e.leave1).0;
      UnjoinKeeps(s.(state := Idle), s.bssid, e.leave1);
      UnjoinKeeps(s1, s1.bssid, e.leave2);
    }
  }

  lemma AuthBudget(s: Sta, e: Event, station: bool)
    requires e.Auth? && !Begins(s, e)
    ensures Within(s, AuthStep(s, e), station, 0)
  {
    PrepareKeeps(s, e);
    var (p, go) := Prepare(s, e);
    var t := AuthStep(s, e);
    assert go ==> t == Unjoin(p, e.bss, e.leave3).0.(state := Idle);
    assert t == s || (t.state.Idle? && t.authSent == s.authSent && t.assocSent == s.assocSent
        && RedoLeft(t, station) == RedoLeft(s, station));
  }

  lemma SendBudget(s: Sta, e: Event, station: bool)
    requires e.Assoc?
    ensures var r := AssocSend(s, e);
            && r.authSent == s.authSent && AuthLeft(r, station) == 3 * RedoLeft(s, station)
            && r.assocSent + AssocLeft(r, station) <= s.assocSent + 4 * RedoLeft(s, station) + 5
  {
  }

  lemma ReassocBudget(s: Sta, e: Event, station: bool)
    requires e.Assoc? && (s.state.Assoced? || s.state.Completed?)
    ensures var r := Reassoc(s, e);
            && r.authSent == s.authSent && AuthLeft(r, station) == 3 * RedoLeft(s, station)
            && r.assocSent + AssocLeft(r, station) <= s.assocSent + 4 * RedoLeft(s,
                station) + (if s.bssid != e.bss then 5 else 0)
  {
    var u := Unjoin(s.(state := Idle), s.bssid, e.leave1).0;
    var j := Join(u, e.bss).(state := Authed);
    assert RedoLeft(j, station) == RedoLeft(s, station) && j.authSent == s.authSent && j.assocSent == s.assocSent;
    SendBudget(j, e, station);
  }

  lemma AssocBudget(s: Sta, e: Event, station: bool)
    requires e.Assoc?
    ensures Within(s, AssocStep(s, e), station, if Surplus(s, e) then 5 else 0)
  {
    if s.state.Authed? {
      SendBudget(s, e, station);
    } else if s.state.Assoced? || s.state.Completed? {
      ReassocBudget(s, e, station);
    }
  }

  lemma ArmedBudget(r: Sta, now: nat, station: bool)
    ensures AuthLeft(Arm(r, now), station) == AuthLeft(r, station)
    ensures AssocLeft(Arm(r, now), station) == AssocLeft(r, station)
    ensures Arm(r, now).authSent == r.authSent && Arm(r, now).assocSent == r.assocSent
  {
  }

  lemma LeaveWithin(w: Sta, r: Sta, bss: nat, ok: bool, station: bool)
    requires r.authSent + 3 * RedoLeft(r, station) <= w.authSent + AuthLeft(w, station)
    requires r.assocSent + 4 * RedoLeft(r, station) <= w.assocSent + AssocLeft(w, station)
    ensures Within(w, StaLeave(r, bss, ok), station, 0)
  {
    LeaveBudget(r, bss, ok, station);
  }

  lemma ConcludeBudget(w: Sta, e: Event, station: bool, max: nat)
    requires e.Work?
    requires (w.state.Authing? && max == MAX_AUTH_RETRY) || (w.state.Associng? && max == MAX_ASSOC_RETRY)
    ensures Within(w, Conclude(w, Again(w, e, station, max), e), station, 0)
  {
    AgainBudget(w, e, station, max);
    var res := Again(w, e, station, max);
    if res.1 || e.now > w.authStart + AUTH_TIMEOUT + ASSOC_TIMEOUT {
      LeaveWithin(w, res.0, res.0.bssid, e.leave, station);
    } else {
      ArmedBudget(res.0, e.now, station);
    }
  }

  lemma WorkBudget(s: Sta, e: Event, station: bool)
    requires e.Work?
    ensures Within(s, WorkStep(s, e, station), station, 0)
  {
    var w := s.(work := false);
    assert AuthLeft(w, station) == AuthLeft(s, station) && AssocLeft(w, station) == AssocLeft(s, station);
    if s.work && w.state.Authing? {
      ConcludeBudget(w, e, station, MAX_AUTH_RETRY);
    } else if s.work && w.state.Associng? {
      ConcludeBudget(w, e, station, MAX_ASSOC_RETRY);
    } else if s.work && w.state.Authed? {
      LeaveBudget(w, w.bssid, e.leave, station);
    }
  }

  /** An authentication frame from the recorded BSS. */
  lemma RxAuthBudget(s: Sta, e: Event, station: bool)
    requires e.RxAuth? && s.bssid == e.from
    ensures Within(s, RxAuthStep(s, e), station, if Surplus(s, e) then 5 else 0)
  {
    var t := RxAuthStep(s, e);
    RxAuthKeeps(s, e);
    assert RedoLeft(t, station) == RedoLeft(s, station);
    assert AssocLeft(t, station) <= 4 * RedoLeft(s, station) + if t.state.Authed? then 5 else 4;
  }

  lemma RxAuthKeeps(s: Sta, e: Event)
    requires e.RxAuth? && s.bssid == e.from
    ensures var t := RxAuthStep(s, e);
            && SameCounters(t, s) && t.rty == s.rty && t.retry == 0
            && t.state == if s.rty.RetryAssoc? then Associng else if e.success then Authed else Idle
  {
    var a := s.(state := Authed, stepStart := e.now, retry := 0);
    UnjoinKeeps(a.(timer := false, state := Idle), e.from, e.leave);
  }

  /** No step sends more than its budget allows; only a surplus step adds to it. */
  lemma {:induction false} StepBudget(s: Sta, e: Event, station: bool)
    requires !Begins(s, e)
    ensures Within(s, Step(s, e, station), station, if Surplus(s, e) then 5 else 0)
  {
    match e
    case Auth(_, _, _, _, _, _, _, _, _, _, _) => AuthBudget(s, e, station);
    case Assoc(_, _, _, _, _, _) => AssocBudget(s, e, station);
    case Work(_, _, _, _) => WorkBudget(s, e, station);
    case RxAuth(_, from, _, _) =>
      if s.bssid == from {
        RxAuthBudget(s, e, station);
      }
    case RxDeauth(from, leave) => LeaveBudget(s, from, leave, station);
    case Leave(bss, leave) => LeaveBudget(s, bss, leave, station);
    case _ => SettledBudget(s, e, station);
  }

  /** Events that only settle or arm. */
  lemma SettledBudget(s: Sta, e: Event, station: bool)
    requires e.TimerFires? || e.RxAssoc? || e.Authorize?
    ensures Within(s, Step(s, e, station), station, 0)
  {
    var t := Step(s, e, station);
    assert RedoLeft(t, station) == RedoLeft(s, station) && t.authSent == s.authSent && t.assocSent == s.assocSent;
  }

  /** No event of the run starts another attempt. */
  predicate OneAttempt(s: Sta, evs: seq<Event>, station: bool)
    decreases |evs|
  {
    evs == [] || (!Begins(s, evs[0]) && OneAttempt(Step(s, evs[0], station), evs[1..], station))
  }

  function Surpluses(s: Sta, evs: seq<Event>, station: bool): nat
    decreases |evs|
  {
    if evs == [] then 0
    else (if Surplus(s, evs[0]) then 1 else 0) + Surpluses(Step(s, evs[0], station), evs[1..], station)
  }

  lemma {:induction false} RunBudget(s: Sta, evs: seq<Event>, station: bool)
    requires OneAttempt(s, evs, station)
    ensures Within(s, Run(s, evs, station), station, 5 * Surpluses(s, evs, station))
    decreases |evs|
  {
    if evs != [] {
      StepBudget(s, evs[0], station);
      RunBudget(Step(s, evs[0], station), evs[1..], station);
    }
  }

  /**
   From one attempt to the next, over every interleaving: at most 12 AUTH commands for an open
   station and 3 for any other; at most 17 and 5 ASSOC commands, and 5 more for each surplus step.
   */
  lemma {:induction false} AttemptBound(s: Sta, e: Event, evs: seq<Event>, station: bool)
    requires Begins(s, e) && OneAttempt(Step(s, e, station), evs, station)
    ensures var t := Run(Step(s, e, station), evs, station);
            var extra := Surpluses(Step(s, e, station), evs, station);
            && t.authSent <= (if station && e.open then 12 else 3)
            && t.assocSent <= (if station && e.open then 17 else 5) + 5 * extra
  {
    RunBudget(Step(s, e, station), evs, station);
  }

  /* ---- What the driver can carry along ---- */

  function AuthCap(station: bool, open: bool): nat {
    if station && open then 12 else 3
  }

  function AssocCap(station: bool, open: bool): nat {
    if station && open then 17 else 5
  }

  /** The attempt stays within its caps, given how many surplus steps it has seen. */
  predicate Capped(s: Sta, station: bool, extra: nat) {
    && s.authSent + AuthLeft(s, station) <= AuthCap(station, s.openSystem)
    && s.assocSent + AssocLeft(s, station) <= AssocCap(station, s.openSystem) + 5 * extra
  }

  /** The surplus steps of the current attempt, after this event. */
  function ExtraAfter(s: Sta, e: Event, extra: nat): nat {
    if Begins(s, e) then 0 else if Surplus(s, e) then extra + 1 else extra
  }

  lemma AuthOpen(s: Sta, e: Event)
    requires e.Auth? && !Begins(s, e)
    ensures AuthStep(s, e).openSystem == s.openSystem
  {
    PrepareKeeps(s, e);
    UnjoinKeeps(Prepare(s, e).0, e.bss, e.leave3);
  }

  lemma AssocOpen(s: Sta, e: Event)
    requires e.Assoc?
    ensures AssocStep(s, e).openSystem == s.openSystem
  {
  }

  lemma AgainOpen(s: Sta, e: Event, station: bool, max: nat)
    requires e.Work?
    ensures Again(s, e, station, max).0.openSystem == s.openSystem
  {
  }

  lemma LeaveOpen(s: Sta, bss: nat, ok: bool)
    ensures StaLeave(s, bss, ok).openSystem == s.openSystem
  {
    UnjoinKeeps(s.(timer := false, state := Idle), bss, ok);
  }

  lemma WorkOpen(s: Sta, e: Event, station: bool)
    requires e.Work?
    ensures WorkStep(s, e, station).openSystem == s.openSystem
  {
    var w := s.(work := false);
    var res := Again(w, e, station, if w.state.Authing? then MAX_AUTH_RETRY else MAX_ASSOC_RETRY);
    AgainOpen(w, e, station, if w.state.Authing? then MAX_AUTH_RETRY else MAX_ASSOC_RETRY);
    LeaveOpen(res.0, res.0.bssid, e.leave);
    LeaveOpen(w, w.bssid, e.leave);
  }

  lemma OpenKept(s: Sta, e: Event, station: bool)
    requires !Begins(s, e)
    ensures Step(s, e, station).openSystem == s.openSystem
  {
    match e
    case Auth(_, _, _, _, _, _, _, _, _, _, _) => AuthOpen(s, e);
    case Assoc(_, _, _, _, _, _) => AssocOpen(s, e);
    case Work(_, _, _, _) => WorkOpen(s, e, station);
    case RxAuth(_, from, _, _) =>
      if s.bssid == from {
        RxAuthKeeps(s, e);
      }
    case _ =>
  }

  lemma BeginCapped(s: Sta, e: Event, station: bool)
    requires Begins(s, e)
    ensures Capped(Step(s, e, station), station, 0)
  {
  }

  /** Every event keeps the caps. */
  lemma {:induction false} StepCapped(s: Sta, e: Event, station: bool, extra: nat)
    requires Capped(s, station, extra)
    ensures Capped(Step(s, e, station), station, ExtraAfter(s, e, extra))
  {
    if Begins(s, e) {
      BeginCapped(s, e, station);
    } else {
      StepBudget(s, e, station);
      OpenKept(s, e, station);
    }
  }

  /** What a handler owes its caller: no pending step is left without a driver, and no command beyond the budget. */
  predicate Kept(s: Sta, e: Event, t: Sta, station: bool) {
    && (GoodEvent(e) && Alive(s) ==> (Alive(t) <==> !Strands(s, e)))
    && (!Begins(s, e) ==> Within(s, t, station, if Surplus(s, e) then 5 else 0))
  }

  lemma StepKept(s: Sta, e: Event, station: bool)
    ensures Kept(s, e, Step(s, e, station), station)
  {
    if GoodEvent(e) && Alive(s) {
      AliveExact(s, e, station);
    }
    if !Begins(s, e) {
      StepBudget(s, e, station);
    }
  }

  lemma RxAuthKept(s: Sta, e: Event, station: bool)
    requires e.RxAuth?
    ensures Kept(s, e, RxAuthStep(s, e), station)
  {
    StepKept(s, e, station);
  }
}
