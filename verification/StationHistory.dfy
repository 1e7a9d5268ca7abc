/** What a station owes its connected state to: which frames and requests count, over whole runs. */
module StationHistory {
  import opened Station

  predicate Connected(s: Sta) {
    s.state.Assoced? || s.state.Completed?
  }

  /** The bound peer accepts the association, or is authorized. */
  predicate Accepts(s: Sta, e: Event) {
    || (e.RxAssoc? && e.success && e.from == s.peer != 0)
    || (e.Authorize? && e.mac == s.peer != 0)
  }

  /**
   What ends a connection: a refusal or a deauthentication from the bound peer, an authentication
   frame from its BSS, a disconnect, and a request for another BSS.
   */
  predicate Ends(s: Sta, e: Event) {
    || (e.RxAssoc? && !e.success && e.from == s.peer != 0)
    || (e.RxDeauth? && e.from == s.peer != 0)
    || (e.RxAuth? && e.from == s.bssid)
    || e.Leave?
    || ((e.Auth? || e.Assoc?) && e.bss != s.bssid)
  }

  lemma AuthConnected(s: Sta, e: Event)
    requires e.Auth?
    ensures Connected(AuthStep(s, e)) <==> Connected(s) && e.bss == s.bssid
  {
    PrepareKeeps(s, e);
    UnjoinKeeps(Prepare(s, e).0, e.bss, e.leave3);
  }

  lemma AssocConnected(s: Sta, e: Event)
    requires e.Assoc?
    ensures Connected(AssocStep(s, e)) <==> Connected(s) && e.bss == s.bssid
  {
  }

  lemma WorkConnected(s: Sta, e: Event, station: bool)
    requires e.Work?
    ensures Connected(WorkStep(s, e, station)) <==> Connected(s)
  {
    var w := s.(work := false);
    if s.work && (w.state.Authing? || w.state.Associng?) {
      AgainDisconnected(w, e, station, if w.state.Authing? then MAX_AUTH_RETRY else MAX_ASSOC_RETRY);
    }
  }

  lemma AgainDisconnected(s: Sta, e: Event, station: bool, max: nat)
    requires e.Work? && !Connected(s)
    ensures !Connected(Again(s, e, station, max).0)
  {
  }

  lemma RxAuthDisconnects(s: Sta, e: Event)
    requires e.RxAuth? && e.from == s.bssid
    ensures !Connected(RxAuthStep(s, e))
  {
    RxAuthKeeps(s, e);
  }

  /** Exactly an acceptance connects, and exactly these events disconnect. */
  lemma StepConnected(s: Sta, e: Event, station: bool)
    ensures Connected(Step(s, e, station)) <==> Accepts(s, e) || (Connected(s) && !Ends(s, e))
  {
    match e
    case Auth(_, _, _, _, _, _, _, _, _, _, _) => AuthConnected(s, e);
    case Assoc(_, _, _, _, _, _) => AssocConnected(s, e);
    case Work(_, _, _, _) => WorkConnected(s, e, station);
    case RxAuth(_, from, _, _) =>
      if from == s.bssid {
        RxAuthDisconnects(s, e);
      }
    case RxDeauth(from, leave) => UnjoinKeeps(s.(timer := false, state := Idle), from, leave);
    case Leave(bss, leave) => UnjoinKeeps(s.(timer := false, state := Idle), bss, leave);
    case _ =>
  }

  /** The state before event `k` of a run from the start. */
  function Before(evs: seq<Event>, k: nat, station: bool): Sta
    requires k <= |evs|
  {
    Run(INITIAL, evs[..k], station)
  }

  lemma BeforeNext(evs: seq<Event>, k: nat, station: bool)
    requires k < |evs|
    ensures Before(evs, k + 1, station) == Step(Before(evs, k, station), evs[k], station)
  {
    assert evs[..k + 1] == evs[..k] + [evs[k]];
    RunSplit(INITIAL, evs[..k], [evs[k]], station);
    assert [evs[k]][1..] == [];
  }

  /** Event `k` made the connection, and nothing since has ended it. */
  predicate Holds(evs: seq<Event>, k: nat, n: nat, station: bool)
    requires k < n <= |evs|
  {
    && Accepts(Before(evs, k, station), evs[k])
    && forall j :: k < j < n ==> !Ends(Before(evs, j, station), evs[j])
  }

  /**
   On every run from the start, the station is connected if and only if the bound peer has at some
   point accepted the association or been authorized and nothing has ended the connection since.
   */
  lemma {:induction false} ConnectedExact(evs: seq<Event>, n: nat, station: bool)
    requires n <= |evs|
    ensures Connected(Before(evs, n, station)) <==> exists k :: 0 <= k < n && Holds(evs, k, n, station)
  {
    if n > 0 {
      var s, e := Before(evs, n - 1, station), evs[n - 1];
      BeforeNext(evs, n - 1, station);
      StepConnected(s, e, station);
      ConnectedExact(evs, n - 1, station);
      if Accepts(s, e) {
        assert Holds(evs, n - 1, n, station);
      } else if Connected(s) && !Ends(s, e) {
        var k :| 0 <= k < n - 1 && Holds(evs, k, n - 1, station);
        assert Holds(evs, k, n, station);
      }
      if k :| 0 <= k < n && Holds(evs, k, n, station) && k < n - 1 {
        assert Holds(evs, k, n - 1, station);
      }
    }
  }

  /** The bound peer is authorized. */
  predicate Authorizes(s: Sta, e: Event) {
    e.Authorize? && e.mac == s.peer != 0
  }

  lemma StepCompleted(s: Sta, e: Event, station: bool)
    ensures Step(s, e, station).state.Completed?
       <==> Authorizes(s, e) || (s.state.Completed? && !Ends(s, e) && !Accepts(s, e))
  {
    StepConnected(s, e, station);
    if e.Auth? {
      PrepareKeeps(s, e);
    }
  }

  /** Event `k` authorized the peer, and nothing since has ended the connection or renewed it. */
  predicate Authorized(evs: seq<Event>, k: nat, n: nat, station: bool)
    requires k < n <= |evs|
  {
    && Authorizes(Before(evs, k, station), evs[k])
    && forall j :: k < j < n ==>
         !Ends(Before(evs, j, station), evs[j]) && (Accepts(Before(evs, j, station), evs[j]) ==> evs[j].Authorize?)
  }

  /** The connection is complete if and only if the peer was authorized and not associated again since. */
  lemma {:induction false} CompletedExact(evs: seq<Event>, n: nat, station: bool)
    requires n <= |evs|
    ensures Before(evs, n, station).state.Completed? <==> exists k :: 0 <= k < n && Authorized(evs, k, n, station)
  {
    if n > 0 {
      var s, e := Before(evs, n - 1, station), evs[n - 1];
      BeforeNext(evs, n - 1, station);
      StepCompleted(s, e, station);
      CompletedExact(evs, n - 1, station);
      if Authorizes(s, e) {
        assert Authorized(evs, n - 1, n, station);
      } else if s.state.Completed? && !Ends(s, e) && !Accepts(s, e) {
        var k :| 0 <= k < n - 1 && Authorized(evs, k, n - 1, station);
        assert Authorized(evs, k, n, station);
      }
      if k :| 0 <= k < n && Authorized(evs, k, n, station) && k < n - 1 {
        assert Authorized(evs, k, n - 1, station);
      }
    }
  }

  /* ---- What a refusal leaves ---- */

  /** A request whose commands all succeed, the first of which leaves what is still bound. */
  predicate Requests(s: Sta, e: Event) {
    e.Auth? && (s.bssid == 0 || s.peer != s.bssid || e.leave2) && e.channel && e.join && e.key && e.cmd
  }

  /** What moves an idle station: a request, an authentication frame from the recorded BSS, an acceptance. */
  predicate Moves(s: Sta, e: Event) {
    || Requests(s, e) || Accepts(s, e)
    || (e.RxAuth? && e.from == s.bssid && (e.success || s.rty.RetryAssoc?))
  }

  lemma StepIdle(s: Sta, e: Event, station: bool)
    requires s.state.Idle?
    ensures Step(s, e, station).state.Idle? <==> !Moves(s, e)
  {
    match e
    case Auth(_, _, _, _, _, _, _, _, _, _, _) => AuthIdle(s, e);
    case RxAuth(_, from, _, _) =>
      if from == s.bssid {
        RxAuthKeeps(s, e);
      }
    case RxDeauth(from, leave) => UnjoinKeeps(s.(timer := false, state := Idle), from, leave);
    case Leave(bss, leave) => UnjoinKeeps(s.(timer := false, state := Idle), bss, leave);
    case _ =>
  }

  lemma AuthIdle(s: Sta, e: Event)
    requires s.state.Idle? && e.Auth?
    ensures AuthStep(s, e).state.Idle? <==> !Requests(s, e)
  {
    UnjoinKeeps(s, s.bssid, e.leave2);
    UnjoinKeeps(Prepare(s, e).0, e.bss, e.leave3);
  }

  /** No event of the run moves an idle station. */
  predicate Unmoved(s: Sta, evs: seq<Event>, station: bool)
    decreases |evs|
  {
    evs == [] || (!Moves(s, evs[0]) && Unmoved(Step(s, evs[0], station), evs[1..], station))
  }

  lemma {:induction false} IdleRun(s: Sta, evs: seq<Event>, station: bool)
    requires s.state.Idle? && Unmoved(s, evs, station)
    ensures Run(s, evs, station).state.Idle?
    decreases |evs|
  {
    if evs != [] {
      StepIdle(s, evs[0], station);
      IdleRun(Step(s, evs[0], station), evs[1..], station);
    }
  }

  /** From any state a refusal from the bound peer makes the station idle, and it stays so until something moves it. */
  lemma {:induction false} RefusalIdles(s: Sta, from: nat, evs: seq<Event>, station: bool)
    requires from == s.peer != 0 && Unmoved(Step(s, RxAssoc(from, false), station), evs, station)
    ensures Run(s, [RxAssoc(from, false)] + evs, station).state.Idle?
  {
    var all := [RxAssoc(from, false)] + evs;
    assert all[0] == RxAssoc(from, false) && all[1..] == evs;
    IdleRun(Step(s, all[0], station), evs, station);
  }
}
