/**
 How long a connection attempt lasts, when expired timers fire and their work runs within a given
 lag. Every event happens at one instant.
 */
module StationTime {
  import opened Station
  import opened StationRuns

  const DEADLINE: nat := AUTH_TIMEOUT + ASSOC_TIMEOUT

  /**
   The time of the last event, when the timer behind the queued work was to expire, and the time of
   the last surplus event.
   */
  datatype Clock = Clock(now: nat, expired: nat, surplus: nat)

  const START: Clock := Clock(0, 0, 0)

  function Later(a: nat, b: nat): nat {
    if a < b then b else a
  }

  function When(c: Clock, e: Event): nat {
    if Timed(e) then e.now else c.now
  }

  function Tick(s: Sta, e: Event, c: Clock): Clock {
    var expired :=
      if !e.TimerFires? || !s.timer || e.now < s.due then c.expired
      else if s.work && c.expired < s.due then c.expired
      else s.due;
    Clock(When(c, e), expired, if Surplus(s, e) then When(c, e) else c.surplus)
  }

  /** At this time neither the timer nor the work it queued is overdue by more than `lag`. */
  predicate InTime(s: Sta, c: Clock, now: nat, lag: nat) {
    c.now <= now && (s.timer ==> now <= s.due + lag) && (s.work ==> now <= c.expired + lag)
  }

  /** Time does not run backwards, and nothing is ever overdue by more than `lag`. */
  predicate Prompt(s: Sta, evs: seq<Event>, c: Clock, lag: nat, station: bool)
    decreases |evs|
  {
    evs == [] || (InTime(s, c, When(c, evs[0]), lag)
                  && Prompt(Step(s, evs[0], station), evs[1..], Tick(s, evs[0], c), lag, station))
  }

  function After(s: Sta, evs: seq<Event>, c: Clock, station: bool): Clock
    decreases |evs|
  {
    if evs == [] then c else After(Step(s, evs[0], station), evs[1..], Tick(s, evs[0], c), station)
  }

  /* ---- What every event keeps ---- */

  /** Something that expires by `latest` drives the step. */
  predicate Driven(s: Sta, c: Clock, latest: nat) {
    (s.timer && s.due <= latest) || (s.work && c.expired <= latest)
  }

  /** The latest start of a step outside authentication. */
  function LatestStep(s: Sta, c: Clock, lag: nat): nat {
    Later(s.authStart + DEADLINE + STEP_TIMEOUT + lag, c.surplus)
  }

  predicate Timely(s: Sta, c: Clock, lag: nat) {
    && s.due <= c.now + STEP_TIMEOUT && c.expired <= c.now && c.surplus <= c.now
    && (s.state.Authing? ==> Driven(s, c, s.authStart + DEADLINE + STEP_TIMEOUT))
    && (s.state.Authed? ==> s.stepStart <= LatestStep(s, c, lag))
    && (s.state.Authed? || s.state.Associng? ==> Driven(s, c, LatestStep(s, c, lag) + 2 * STEP_TIMEOUT))
  }

  lemma TimelyBound(s: Sta, c: Clock, now: nat, lag: nat)
    requires Timely(s, c, lag) && InTime(s, c, now, lag)
    ensures s.state.Authing? ==> now <= s.authStart + DEADLINE + STEP_TIMEOUT + lag
    ensures Pending(s) ==> now <= LatestStep(s, c, lag) + 2 * STEP_TIMEOUT + lag
  {
  }

  lemma UnjoinClocks(s: Sta, bss: nat, ok: bool)
    ensures var u := Unjoin(s, bss, ok).0;
            u.timer == s.timer && u.work == s.work && u.due == s.due && u.state == s.state
  {
  }

  lemma PrepareClocks(s: Sta, e: Event)
    requires e.Auth?
    ensures var (p, go) := Prepare(s, e);
            p.timer == s.timer && p.work == s.work && p.due == s.due && (go || p == s || p.state.Idle?)
  {
    PrepareKeeps(s, e);
    var s1 := if s.state.Idle? then s else Unjoin(s.(state := Idle), s.bssid, e.leave1).0;
    UnjoinClocks(s.(state := Idle), s.bssid, e.leave1);
    UnjoinClocks(s1, s1.bssid, e.leave2);
  }

  lemma AuthTimely(s: Sta, e: Event, c: Clock, lag: nat)
    requires Timely(s, c, lag) && e.Auth? && c.now <= e.now
    ensures Timely(AuthStep(s, e), Tick(s, e, c), lag)
  {
    PrepareClocks(s, e);
    var (p, go) := Prepare(s, e);
    UnjoinClocks(p, e.bss, e.leave3);
  }

  lemma AssocTimely(s: Sta, e: Event, c: Clock, lag: nat)
    requires Timely(s, c, lag) && e.Assoc? && c.now <= e.now
    ensures Timely(AssocStep(s, e), Tick(s, e, c), lag)
  {
  }

  lemma AgainClocks(s: Sta, e: Event, station: bool, max: nat)
    requires e.Work? && (s.state.Authing? || s.state.Associng?)
    ensures var (r, failed) := Again(s, e, station, max);
            && r.timer == s.timer && r.due == s.due && r.authStart == s.authStart
            && (failed || r.state.Authing? || r.state.Associng?)
  {
  }

  lemma WorkTimely(s: Sta, e: Event, c: Clock, lag: nat, station: bool)
    requires Timely(s, c, lag) && e.Work? && c.now <= e.now
    ensures Timely(WorkStep(s, e, station), Tick(s, e, c), lag)
  {
    var w := s.(work := false);
    if s.work && w.state.Authing? {
      ConcludeTimely(w, e, c, lag, station, MAX_AUTH_RETRY);
    } else if s.work && w.state.Associng? {
      ConcludeTimely(w, e, c, lag, station, MAX_ASSOC_RETRY);
    }
  }

  lemma ConcludeTimely(w: Sta, e: Event, c: Clock, lag: nat, station: bool, max: nat)
    requires e.Work? && (w.state.Authing? || w.state.Associng?) && !w.work && c.now <= e.now
    requires w.due <= c.now + STEP_TIMEOUT && c.expired <= c.now && c.surplus <= c.now
    ensures Timely(Conclude(w, Again(w, e, station, max), e), Clock(e.now, c.expired, c.surplus), lag)
  {
    AgainClocks(w, e, station, max);
  }

  lemma RxAuthTimely(s: Sta, e: Event, c: Clock, lag: nat)
    requires Alive(s) && Timely(s, c, lag) && e.RxAuth? && InTime(s, c, e.now, lag) && !Strands(s, e)
    ensures Timely(RxAuthStep(s, e), Tick(s, e, c), lag)
  {
  }

  lemma {:induction false} StepTimely(s: Sta, e: Event, c: Clock, lag: nat, station: bool)
    requires Alive(s) && Timely(s, c, lag) && InTime(s, c, When(c, e), lag) && !Strands(s, e)
    ensures Timely(Step(s, e, station), Tick(s, e, c), lag)
  {
    match e
    case Auth(_, _, _, _, _, _, _, _, _, _, _) => AuthTimely(s, e, c, lag);
    case Assoc(_, _, _, _, _, _) => AssocTimely(s, e, c, lag);
    case Work(_, _, _, _) => WorkTimely(s, e, c, lag, station);
    case RxAuth(_, _, _, _) => RxAuthTimely(s, e, c, lag);
    case _ => SettledTimely(s, e, c, lag, station);
  }

  lemma SettledTimely(s: Sta, e: Event, c: Clock, lag: nat, station: bool)
    requires Timely(s, c, lag) && (Timed(e) ==> e.TimerFires? && c.now <= e.now)
    ensures Timely(Step(s, e, station), Tick(s, e, c), lag)
  {
  }

  lemma {:induction false} RunTimely(s: Sta, evs: seq<Event>, c: Clock, lag: nat, station: bool)
    requires Alive(s) && Timely(s, c, lag) && Smooth(s, evs, station) && Prompt(s, evs, c, lag, station)
    ensures Timely(Run(s, evs, station), After(s, evs, c, station), lag)
    decreases |evs|
  {
    if evs != [] {
      var e := evs[0];
      AliveExact(s, e, station);
      StepTimely(s, e, c, lag, station);
      RunTimely(Step(s, e, station), evs[1..], Tick(s, e, c), lag, station);
    }
  }

  /* ---- When an attempt is over ---- */

  /**
   On every run from the start that strands nothing and is in time: authentication is over 9.9
   seconds after the request and the lag; the attempt 0.6 seconds and the lag after that, or after
   the last frame that nobody waited for or move to another BSS.
   */
  lemma {:induction false} AttemptOver(evs: seq<Event>, now: nat, lag: nat, station: bool)
    requires Smooth(INITIAL, evs, station) && Prompt(INITIAL, evs, START, lag, station)
    ensures var s, c := Run(INITIAL, evs, station), After(INITIAL, evs, START, station);
            InTime(s, c, now, lag) ==>
              && (s.state.Authing? ==> now <= s.authStart + 9900 + lag)
              && (Pending(s) ==> now <= Later(s.authStart + 9900 + lag, c.surplus) + 600 + lag)
  {
    RunTimely(INITIAL, evs, START, lag, station);
    var s, c := Run(INITIAL, evs, station), After(INITIAL, evs, START, station);
    if InTime(s, c, now, lag) {
      TimelyBound(s, c, now, lag);
    }
  }

  lemma AuthStartKept(s: Sta, e: Event)
    requires e.Auth? && !Begins(s, e)
    ensures AuthStep(s, e).authStart == s.authStart
  {
    var s1 := if s.state.Idle? then s else Unjoin(s.(state := Idle), s.bssid, e.leave1).0;
    assert s1.authStart == s.authStart;
    assert Unjoin(s1, s1.bssid, e.leave2).0.authStart == s.authStart;
    assert Prepare(s, e).0.authStart == s.authStart;
  }

  lemma WorkStartKept(s: Sta, e: Event, station: bool)
    requires e.Work?
    ensures WorkStep(s, e, station).authStart == s.authStart
  {
    var w := s.(work := false);
    if s.work && (w.state.Authing? || w.state.Associng?) {
      AgainClocks(w, e, station, if w.state.Authing? then MAX_AUTH_RETRY else MAX_ASSOC_RETRY);
    }
  }

  /** Only a new attempt moves its start, and only a surplus event the time of the last one. */
  lemma StartKept(s: Sta, e: Event, station: bool)
    requires !Begins(s, e)
    ensures Step(s, e, station).authStart == s.authStart
  {
    match e
    case Auth(_, _, _, _, _, _, _, _, _, _, _) => AuthStartKept(s, e);
    case Work(_, _, _, _) => WorkStartKept(s, e, station);
    case _ =>
  }

  lemma {:induction false} RunStartKept(s: Sta, evs: seq<Event>, c: Clock, station: bool)
    requires OneAttempt(s, evs, station) && Surpluses(s, evs, station) == 0
    ensures Run(s, evs, station).authStart == s.authStart && After(s, evs, c, station).surplus == c.surplus
    decreases |evs|
  {
    if evs != [] {
      StartKept(s, evs[0], station);
      RunStartKept(Step(s, evs[0], station), evs[1..], Tick(s, evs[0], c), station);
    }
  }

  /** Without surplus events an attempt is over 10.5 seconds and two lags after its request. */
  lemma {:induction false} PlainAttemptOver(
    s: Sta, e: Event, evs: seq<Event>, c: Clock, now: nat, lag: nat, station: bool)
    requires Alive(s) && Timely(s, c, lag) && Begins(s, e) && Smooth(s, [e] + evs, station)
    requires Prompt(s, [e] + evs, c, lag, station)
    requires var t := Step(s, e, station); OneAttempt(t, evs, station) && Surpluses(t, evs, station) == 0
    ensures var t, d := Run(s, [e] + evs, station), After(s, [e] + evs, c, station);
            InTime(t, d, now, lag) && Pending(t) ==> now <= e.now + 10500 + 2 * lag
  {
    assert ([e] + evs)[0] == e && ([e] + evs)[1..] == evs;
    RunTimely(s, [e] + evs, c, lag, station);
    RunStartKept(Step(s, e, station), evs, Tick(s, e, c), station);
    var t, d := Run(s, [e] + evs, station), After(s, [e] + evs, c, station);
    if InTime(t, d, now, lag) {
      TimelyBound(t, d, now, lag);
    }
  }

  /* ---- A repeated frame holds the attempt open ---- */

  /** From the k-th time-out on: the peer repeats its authentication frame just before the timer runs out. */
  function Echoes(k: nat, n: nat): seq<Event>
    decreases n
  {
    if n == 0 then []
    else [Reaccepted(STEP_TIMEOUT * k), TimerFires(STEP_TIMEOUT * k), Work(STEP_TIMEOUT * k, true, true, true)]
         + Echoes(k + 1, n - 1)
  }

  /** The station waits for the timer that runs out at `due`. */
  predicate Listens(s: Sta, c: Clock, due: nat) {
    && (s.state.Authing? || s.state.Authed?) && s.rty.NoRetry? && s.bssid == s.peer == 7
    && s.timer && !s.work && s.due == due && c.now <= due
  }

  lemma EchoHolds(s: Sta, c: Clock, due: nat, evs: seq<Event>) returns (t: Sta, d: Clock)
    requires Listens(s, c, due)
    requires |evs| >= 3 && evs[0] == Reaccepted(due) && evs[1] == TimerFires(due)
    requires evs[2] == Work(due, true, true, true)
    ensures Listens(t, d, due + STEP_TIMEOUT) && t.state.Authed? && t.authStart == s.authStart && d.now == due
    ensures Smooth(t, evs[3..], true) ==> Smooth(s, evs, true)
    ensures Prompt(t, evs[3..], d, 0, true) ==> Prompt(s, evs, c, 0, true)
    ensures Run(s, evs, true) == Run(t, evs[3..], true)
    ensures After(s, evs, c, true) == After(t, evs[3..], d, true)
  {
    var s1, c1 := Step(s, evs[0], true), Tick(s, evs[0], c);
    var s2, c2 := Step(s1, evs[1], true), Tick(s1, evs[1], c1);
    t, d := Step(s2, evs[2], true), Tick(s2, evs[2], c2);
    assert evs[1..][0] == evs[1] && evs[1..][1..] == evs[2..];
    assert evs[2..][0] == evs[2] && evs[2..][1..] == evs[3..];
    assert Run(s2, evs[2..], true) == Run(t, evs[3..], true);
    assert After(s2, evs[2..], c2, true) == After(t, evs[3..], d, true);
  }

  lemma {:induction false} EchoesHold(s: Sta, c: Clock, k: nat, n: nat)
    requires Listens(s, c, STEP_TIMEOUT * k) && (n > 0 || (s.state.Authed? && c.now + STEP_TIMEOUT == STEP_TIMEOUT * k))
    ensures Smooth(s, Echoes(k, n), true) && Prompt(s, Echoes(k, n), c, 0, true)
    ensures var t, d := Run(s, Echoes(k, n), true), After(s, Echoes(k, n), c, true);
            t.state.Authed? && t.authStart == s.authStart && InTime(t, d, STEP_TIMEOUT * (k + n), 0)
    decreases n
  {
    if n > 0 {
      var t, d := EchoHolds(s, c, STEP_TIMEOUT * k, Echoes(k, n));
      assert Echoes(k, n)[3..] == Echoes(k + 1, n - 1);
      EchoesHold(t, d, k + 1, n - 1);
    }
  }

  /** However late, on time and with nothing stranded, a repeated frame keeps the attempt of time 0 pending. */
  lemma {:induction false} HeldOpen(n: nat)
    requires n > 0
    ensures var evs := [ASK] + Echoes(1, n);
            var s, c := Run(INITIAL, evs, true), After(INITIAL, evs, START, true);
            && Smooth(INITIAL, evs, true) && Prompt(INITIAL, evs, START, 0, true)
            && Pending(s) && s.authStart == 0 && InTime(s, c, 300 * (n + 1), 0)
  {
    Asking();
    var evs := [ASK] + Echoes(1, n);
    assert evs[0] == ASK && evs[1..] == Echoes(1, n);
    EchoesHold(ASKED, Tick(INITIAL, ASK, START), 1, n);
  }
}
