/** Runs of the station machine, from its initial state and in order of time, that reach its limits. */
module StationRuns {
  import opened Station

  predicate Timed(e: Event) {
    e.Auth? || e.Assoc? || e.TimerFires? || e.Work? || e.RxAuth?
  }

  /** Time does not run backwards, and stays between `lo` and `hi`. */
  predicate Ordered(evs: seq<Event>, lo: nat, hi: nat)
    decreases |evs|
  {
    if evs == [] then lo <= hi
    else if Timed(evs[0]) then lo <= evs[0].now && Ordered(evs[1..], evs[0].now, hi)
    else Ordered(evs[1..], lo, hi)
  }

  lemma {:induction false} OrderedJoin(a: seq<Event>, b: seq<Event>, lo: nat, mid: nat, hi: nat)
    requires Ordered(a, lo, mid) && Ordered(b, mid, hi)
    ensures Ordered(a + b, lo, hi)
    decreases |a|
  {
    if a == [] {
      assert a + b == b;
      OrderedFrom(b, lo, mid, hi);
    } else {
      assert (a + b)[1..] == a[1..] + b;
      OrderedJoin(a[1..], b, if Timed(a[0]) then a[0].now else lo, mid, hi);
    }
  }

  lemma {:induction false} OrderedFrom(evs: seq<Event>, lo: nat, mid: nat, hi: nat)
    requires lo <= mid && Ordered(evs, mid, hi)
    ensures Ordered(evs, lo, hi)
    decreases |evs|
  {
    if evs != [] && !Timed(evs[0]) {
      OrderedFrom(evs[1..], lo, mid, hi);
    }
  }

  /** Without another request there is one attempt. */
  lemma {:induction false} NoRequest(s: Sta, evs: seq<Event>, station: bool)
    requires forall i :: 0 <= i < |evs| ==> !evs[i].Auth?
    ensures OneAttempt(s, evs, station)
    decreases |evs|
  {
    if evs != [] {
      NoRequest(Step(s, evs[0], station), evs[1..], station);
    }
  }

  lemma {:induction false} SurplusSplit(s: Sta, a: seq<Event>, b: seq<Event>, station: bool)
    ensures Surpluses(s, a + b, station) == Surpluses(s, a, station) + Surpluses(Run(s, a, station), b, station)
    decreases |a|
  {
    if a == [] {
      assert a + b == b;
    } else {
      assert (a + b)[1..] == a[1..] + b;
      SurplusSplit(Step(s, a[0], station), a[1..], b, station);
    }
  }

  /** The run leads from `s` to `t` between these times, without another request and with `extra` surplus events. */
  predicate Leads(s: Sta, evs: seq<Event>, t: Sta, lo: nat, hi: nat, extra: nat) {
    && Run(s, evs, true) == t && Ordered(evs, lo, hi) && Surpluses(s, evs, true) == extra
    && forall i :: 0 <= i < |evs| ==> !evs[i].Auth?
  }

  /** The second run may start later than the first one ends. */
  lemma LeadsLater(s: Sta, a: seq<Event>, t: Sta, b: seq<Event>, u: Sta, lo: nat, mid: nat, from: nat, hi: nat)
    requires Leads(s, a, t, lo, mid, 0) && Leads(t, b, u, from, hi, 0) && mid <= from
    ensures Leads(s, a + b, u, lo, hi, 0)
  {
    OrderedFrom(b, mid, from, hi);
    LeadsJoin(s, a, t, b, u, lo, mid, hi, 0, 0);
  }

  lemma LeadsJoin(s: Sta, a: seq<Event>, t: Sta, b: seq<Event>, u: Sta, lo: nat, mid: nat, hi: nat, x: nat, y: nat)
    requires Leads(s, a, t, lo, mid, x) && Leads(t, b, u, mid, hi, y)
    ensures Leads(s, a + b, u, lo, hi, x + y)
  {
    RunSplit(s, a, b, true);
    SurplusSplit(s, a, b, true);
    OrderedJoin(a, b, lo, mid, hi);
  }

  lemma LeadsOne(s: Sta, e: Event, lo: nat, hi: nat, extra: nat)
    requires !e.Auth? && lo <= hi && (Timed(e) ==> lo <= e.now <= hi) && extra == if Surplus(s, e) then 1 else 0
    ensures Leads(s, [e], Step(s, e, true), lo, hi, extra)
  {
    assert [e][1..] == [];
    assert Run(Step(s, e, true), [], true) == Step(s, e, true);
    assert Surpluses(Step(s, e, true), [], true) == 0;
  }

  /* ---- Time-outs ---- */

  /** The step timer runs out and its work runs, with every command going through. */
  function Timeout(now: nat): seq<Event> {
    [TimerFires(now), Work(now, true, true, true)]
  }

  lemma TimeoutLeads(s: Sta, now: nat)
    requires s.timer && s.due <= now
    ensures Leads(s, Timeout(now), WorkStep(s.(timer := false, work := true), Work(now, true, true, true), true),
        now, now, 0)
  {
    var t := s.(timer := false, work := true);
    var e := Work(now, true, true, true);
    LeadsOne(s, TimerFires(now), now, now, 0);
    LeadsOne(t, e, now, now, 0);
    LeadsJoin(s, [TimerFires(now)], t, [e], Step(t, e, true), now, now, now, 0, 0);
    assert [TimerFires(now)] + [e] == Timeout(now);
  }

  /** A waiting step of an open station whose timer is due at `now`, within the overall deadline. */
  predicate Waits(s: Sta, now: nat) {
    && (s.state.Authing? || s.state.Associng?) && s.timer && s.due <= now && !s.work && s.openSystem
    && s.stepStart + STEP_TIMEOUT < now <= s.authStart + AUTH_TIMEOUT + ASSOC_TIMEOUT
  }

  function Limit(s: Sta): nat {
    if s.state.Authing? then MAX_AUTH_RETRY else MAX_ASSOC_RETRY
  }

  /** The command has been sent `n` times more, and the timer is to expire at `due`. */
  function Resent(s: Sta, n: nat, due: nat): Sta {
    if s.state.Authing? then s.(retry := s.retry + n, authSent := s.authSent + n, due := due)
    else s.(retry := s.retry + n, assocSent := s.assocSent + n, due := due)
  }

  lemma TimeoutResends(s: Sta, now: nat)
    requires Waits(s, now) && s.retry + 1 < Limit(s)
    ensures Leads(s, Timeout(now), Resent(s, 1, now + STEP_TIMEOUT), now, now, 0)
  {
    TimeoutLeads(s, now);
  }

  /** Authentication starts over. */
  function Restarted(s: Sta, now: nat): Sta {
    s.(rty := if s.state.Associng? then RetryAssoc else if s.rty.NoRetry? then RetryAuth else s.rty,
       redo := s.redo + 1, authSent := s.authSent + 1, retry := 0, stepStart := now, state := Authing,
       due := now + STEP_TIMEOUT)
  }

  lemma TimeoutRestarts(s: Sta, now: nat)
    requires Waits(s, now) && now <= s.ctxStart + s.ctxTo && s.retry + 1 == Limit(s) && s.redo < MAX_REDO
    ensures Leads(s, Timeout(now), Restarted(s, now), now, now, 0)
  {
    TimeoutLeads(s, now);
  }

  /** `n` time-outs, each when the timer set by the one before expires. */
  function Timeouts(now: nat, n: nat): seq<Event> {
    if n == 0 then [] else Timeouts(now, n - 1) + Timeout(now + STEP_TIMEOUT * (n - 1))
  }

  lemma {:induction false} Resends(s: Sta, now: nat, n: nat)
    requires n > 0 && Waits(s, now) && s.retry + n < Limit(s)
    requires now + STEP_TIMEOUT * (n - 1) <= s.authStart + AUTH_TIMEOUT + ASSOC_TIMEOUT
    ensures var last := now + STEP_TIMEOUT * (n - 1);
            Leads(s, Timeouts(now, n), Resent(s, n, last + STEP_TIMEOUT), now, last, 0)
  {
    if n > 1 {
      Resends(s, now, n - 1);
      var before, last := now + STEP_TIMEOUT * (n - 2), now + STEP_TIMEOUT * (n - 1);
      var t := Resent(s, n - 1, last);
      TimeoutResends(t, last);
      LeadsLater(s, Timeouts(now, n - 1), t, Timeout(last), Resent(s, n, last + STEP_TIMEOUT), now, before, last, last);
    } else {
      TimeoutResends(s, now);
      assert Timeouts(now, 1) == Timeout(now);
    }
  }

  /** `n` commands more, then a restart: one round of a step that nobody answers. */
  function Round(now: nat, n: nat): seq<Event> {
    Timeouts(now, n) + Timeout(now + STEP_TIMEOUT * n)
  }

  lemma RoundLeads(s: Sta, now: nat, n: nat, end: nat)
    requires Waits(s, now) && s.retry == 0 && n + 1 == Limit(s) && s.redo < MAX_REDO
    requires end == now + STEP_TIMEOUT * n && end <= s.ctxStart + s.ctxTo
    requires end <= s.authStart + AUTH_TIMEOUT + ASSOC_TIMEOUT
    ensures Leads(s, Round(now, n), Restarted(Resent(s, n, end), end), now, end, 0)
  {
    Resends(s, now, n);
    var t, before := Resent(s, n, end), now + STEP_TIMEOUT * (n - 1);
    TimeoutRestarts(t, end);
    LeadsLater(s, Timeouts(now, n), t, Timeout(end), Restarted(t, end), now, before, end, end);
  }

  /* ---- Twelve AUTH commands ---- */

  const ASK: Event := Auth(0, 7, true, true, true, true, true, true, true, true, false)
  const ASKED: Sta :=
    Sta(Authing, NoRetry, 7, 7, 0, 0, 0, 0, AUTH_TIMEOUT, 0, true, true, STEP_TIMEOUT, false, 1, 0)

  lemma Asking()
    ensures Begins(INITIAL, ASK) && Step(INITIAL, ASK, true) == ASKED
  {
  }

  /** An unanswered request: two more AUTH commands, then a restart with another one. */
  function AuthRounds(k: nat): seq<Event> {
    if k == 0 then [] else AuthRounds(k - 1) + Round(901 * k - 600, 2)
  }

  function Unanswered(k: nat, start: nat): Sta {
    ASKED.(rty := if k == 0 then NoRetry else RetryAuth, redo := k, authSent := 1 + 3 * k, stepStart := start,
           due := start + STEP_TIMEOUT)
  }

  lemma UnansweredNext(k: nat, start: nat, end: nat)
    requires 1 <= k
    ensures Restarted(Resent(Unanswered(k - 1, start), 2, end), end) == Unanswered(k, end)
  {
  }

  lemma AuthRoundAt(k: nat, start: nat, now: nat)
    requires 1 <= k <= MAX_REDO && now == start + 301 && now + 600 <= AUTH_TIMEOUT
    ensures Leads(Unanswered(k - 1, start), Round(now, 2), Unanswered(k, now + 600), now, now + 600, 0)
  {
    RoundLeads(Unanswered(k - 1, start), now, 2, now + 600);
    UnansweredNext(k, start, now + 600);
  }

  lemma {:induction false} AuthRoundsLead(k: nat, end: nat)
    requires k <= MAX_REDO && end == 901 * k
    ensures Leads(ASKED, AuthRounds(k), Unanswered(k, end), 0, end, 0)
  {
    if k > 0 {
      var start, now := end - 901, end - 600;
      AuthRoundsLead(k - 1, start);
      AuthRoundAt(k, start, now);
      LeadsLater(ASKED, AuthRounds(k - 1), Unanswered(k - 1, start), Round(now, 2), Unanswered(k, end), 0, start,
          now, end);
    }
  }

  /** The events after the request, of an attempt that nobody answers. */
  function Silence(redos: nat, last: nat): seq<Event> {
    AuthRounds(redos) + Timeouts(last, 2)
  }

  /** An open station that nobody answers sends exactly the twelve AUTH commands of the bound. */
  lemma AuthBoundReached(redos: nat, last: nat)
    requires redos == MAX_REDO && last == 901 * redos + 301
    ensures var evs := Silence(redos, last);
            && Begins(INITIAL, ASK) && Ordered(evs, 0, last + 300) && OneAttempt(Step(INITIAL, ASK, true), evs, true)
            && Run(Step(INITIAL, ASK, true), evs, true).authSent == 12
  {
    Asking();
    AuthRoundsLead(redos, last - 301);
    var s := Unanswered(redos, last - 301);
    Resends(s, last, 2);
    LeadsLater(ASKED, AuthRounds(redos), s, Timeouts(last, 2), Resent(s, 2, last + 600), 0, last - 301, last,
        last + 300);
    NoRequest(ASKED, Silence(redos, last), true);
  }

  /* ---- Seventeen ASSOC commands ---- */

  const ACCEPTED: Event := RxAuth(10, 7, true, true)
  const ASSOCIATE: Event := Assoc(20, 7, true, true, true, true)
  const JOINING: seq<Event> := [ACCEPTED, ASSOCIATE]
  const ASSOCIATING: Sta :=
    Sta(Associng, NoRetry, 7, 7, 0, 0, 10, 20, ASSOC_TIMEOUT, 0, true, true, STEP_TIMEOUT, false, 1, 1)

  lemma Associating()
    ensures Leads(ASKED, JOINING, ASSOCIATING, 0, 20, 0)
  {
    var s := Step(ASKED, ACCEPTED, true);
    LeadsOne(ASKED, ACCEPTED, 0, 10, 0);
    LeadsOne(s, ASSOCIATE, 10, 20, 0);
    LeadsJoin(ASKED, [ACCEPTED], s, [ASSOCIATE], ASSOCIATING, 0, 10, 20, 0, 0);
    assert [ACCEPTED] + [ASSOCIATE] == JOINING;
  }

  function Reaccepted(now: nat): Event {
    RxAuth(now, 7, true, true)
  }

  /** An unanswered association: four more ASSOC commands, then a new authentication, accepted after 10 ms. */
  function AssocEvents(now: nat): seq<Event> {
    Round(now, 4) + [Reaccepted(now + 1210)]
  }

  function AssocRounds(k: nat): seq<Event> {
    if k == 0 then [] else AssocRounds(k - 1) + AssocEvents(1511 * k - 1200)
  }

  function Reassociating(k: nat, start: nat): Sta {
    ASSOCIATING.(rty := if k == 0 then NoRetry else RetryAssoc, redo := k, authSent := 1 + k,
                 assocSent := 1 + 4 * k, stepStart := start + 10, due := start + STEP_TIMEOUT)
  }

  lemma AssocRoundAnswered(k: nat, start: nat, now: nat)
    requires 1 <= k <= MAX_REDO && now == start + 311 && now + 1200 <= ASSOC_TIMEOUT
    ensures Leads(Reassociating(k - 1, start), AssocEvents(now), Reassociating(k, now + 1200), now, now + 1220, 0)
  {
    var s, end := Reassociating(k - 1, start), now + 1200;
    RoundLeads(s, now, 4, end);
    var t := Restarted(Resent(s, 4, end), end);
    LeadsOne(t, Reaccepted(end + 10), end, end + 20, 0);
    assert Step(t, Reaccepted(end + 10), true) == Reassociating(k, end);
    LeadsJoin(s, Round(now, 4), t, [Reaccepted(end + 10)], Reassociating(k, end), now, end, end + 20, 0, 0);
  }

  lemma {:induction false} AssocRoundsLead(k: nat, end: nat)
    requires k <= MAX_REDO && end == 1511 * k
    ensures Leads(ASSOCIATING, AssocRounds(k), Reassociating(k, end), 20, end + 20, 0)
  {
    if k > 0 {
      var start, now := end - 1511, end - 1200;
      AssocRoundsLead(k - 1, start);
      AssocRoundMore(k, AssocRounds(k - 1), start, now);
    } else {
      assert Reassociating(0, 0) == ASSOCIATING;
    }
  }

  lemma AssocRoundMore(k: nat, evs: seq<Event>, start: nat, now: nat)
    requires 1 <= k <= MAX_REDO && now == start + 311 && now + 1200 <= ASSOC_TIMEOUT
    requires Leads(ASSOCIATING, evs, Reassociating(k - 1, start), 20, start + 20, 0)
    ensures Leads(ASSOCIATING, evs + AssocEvents(now), Reassociating(k, now + 1200), 20, now + 1220, 0)
  {
    var s, t := Reassociating(k - 1, start), Reassociating(k, now + 1200);
    AssocRoundAnswered(k, start, now);
    LeadsLater(ASSOCIATING, evs, s, AssocEvents(now), t, 20, start + 20, now, now + 1220);
  }

  /** The events after the request, of an attempt whose association is never answered. */
  function Deafness(redos: nat, last: nat): seq<Event> {
    JOINING + (AssocRounds(redos) + Timeouts(last, 4))
  }

  /** An open station whose association is never answered sends exactly the seventeen ASSOC commands of the bound. */
  lemma AssocBoundReached(redos: nat, last: nat)
    requires redos == MAX_REDO && last == 1511 * redos + 311
    ensures var evs := Deafness(redos, last);
            && Begins(INITIAL, ASK) && Ordered(evs, 0, last + 900) && OneAttempt(Step(INITIAL, ASK, true), evs, true)
            && Surpluses(Step(INITIAL, ASK, true), evs, true) == 0
            && Run(Step(INITIAL, ASK, true), evs, true).assocSent == 17
  {
    Asking();
    Associating();
    AssocRoundsLead(redos, last - 311);
    var s := Reassociating(redos, last - 311);
    var t := Resent(s, 4, last + 1200);
    Resends(s, last, 4);
    LeadsLater(ASSOCIATING, AssocRounds(redos), s, Timeouts(last, 4), t, 20, last - 291, last, last + 900);
    LeadsJoin(ASKED, JOINING, ASSOCIATING, AssocRounds(redos) + Timeouts(last, 4), t, 0, 20, last + 900, 0, 0);
    NoRequest(ASKED, Deafness(redos, last), true);
  }

  /* ---- Both kinds of stranding happen ---- */

  /** Association times out five times and is redone; then the peer refuses. */
  lemma StrandingHappens(now: nat)
    requires 311 <= now <= 3600
    ensures var evs := JOINING + Round(now, 4);
            var s := Run(Step(INITIAL, ASK, true), evs, true);
            && Begins(INITIAL, ASK) && Ordered(evs, 0, now + 1200)
            && Alive(s) && Pending(s) && !s.work && Strands(s, RxAuth(now + 1210, 7, false, true))
  {
    Asking();
    Associating();
    var end := now + 1200;
    var t := Restarted(Resent(ASSOCIATING, 4, end), end);
    RoundLeads(ASSOCIATING, now, 4, end);
    LeadsLater(ASKED, JOINING, ASSOCIATING, Round(now, 4), t, 0, 20, now, end);
  }

  /** The station is connected and its timer has run out; then the peer repeats its authentication frame. */
  lemma LateFrameStrands(now: nat)
    requires 300 <= now
    ensures var evs := JOINING + ([RxAssoc(7, true)] + Timeout(now));
            var s := Run(Step(INITIAL, ASK, true), evs, true);
            && Begins(INITIAL, ASK) && Ordered(evs, 0, now)
            && Alive(s) && s.state.Assoced? && Strands(s, RxAuth(now + 100, 7, true, true))
  {
    Asking();
    Associating();
    var a := Step(ASSOCIATING, RxAssoc(7, true), true);
    LeadsOne(ASSOCIATING, RxAssoc(7, true), 20, now, 0);
    TimeoutLeads(a, now);
    var s := a.(timer := false);
    LeadsJoin(ASSOCIATING, [RxAssoc(7, true)], a, Timeout(now), s, 20, now, now, 0, 0);
    LeadsJoin(ASKED, JOINING, ASSOCIATING, [RxAssoc(7, true)] + Timeout(now), s, 0, 20, now, 0, 0);
  }

  /* ---- Frames that nobody waits for lift the bound ---- */

  const AGAIN: seq<Event> := [Reaccepted(20), ASSOCIATE]

  function Duplicates(n: nat): seq<Event> {
    if n == 0 then [] else Duplicates(n - 1) + AGAIN
  }

  function Sent(n: nat): Sta {
    ASSOCIATING.(assocSent := 1 + n, stepStart := if n == 0 then 10 else 20)
  }

  lemma SentAgain(n: nat)
    ensures Leads(Sent(n), AGAIN, Sent(n + 1), 20, 20, 1)
  {
    var s := Sent(n);
    var t := Step(s, Reaccepted(20), true);
    LeadsOne(s, Reaccepted(20), 20, 20, 1);
    LeadsOne(t, ASSOCIATE, 20, 20, 0);
    LeadsJoin(s, [Reaccepted(20)], t, [ASSOCIATE], Sent(n + 1), 20, 20, 20, 1, 0);
    assert [Reaccepted(20)] + [ASSOCIATE] == AGAIN;
  }

  lemma {:induction false} DuplicatesLead(n: nat)
    ensures Leads(ASSOCIATING, Duplicates(n), Sent(n), 20, 20, n)
  {
    if n > 0 {
      DuplicatesLead(n - 1);
      SentAgain(n - 1);
      LeadsJoin(ASSOCIATING, Duplicates(n - 1), Sent(n - 1), AGAIN, Sent(n), 20, 20, 20, n - 1, 1);
    }
  }

  /**
   With repeated authentication frames one attempt sends any number of ASSOC commands, and time
   never runs backwards.
   */
  lemma DuplicatesUnbounded(n: nat)
    ensures var evs := JOINING + Duplicates(n);
            && Begins(INITIAL, ASK) && Ordered(evs, 0, 20) && OneAttempt(Step(INITIAL, ASK, true), evs, true)
            && Surpluses(Step(INITIAL, ASK, true), evs, true) == n
            && Run(Step(INITIAL, ASK, true), evs, true).assocSent == n + 1
  {
    Asking();
    Associating();
    DuplicatesLead(n);
    LeadsJoin(ASKED, JOINING, ASSOCIATING, Duplicates(n), Sent(n), 0, 20, 20, 0, n);
    NoRequest(ASKED, JOINING + Duplicates(n), true);
  }
}
