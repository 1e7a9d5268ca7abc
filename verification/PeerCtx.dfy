/**
 The peer contexts of one MAC: binding peers to contexts, publishing them for transmission and
 finding them by address.
 */
module PeerCtx {
  import opened Basics

  /** `marked` stands for the flags that forbid transmission; `iface` counts once the peer is bound. */
  datatype Peer = Peer(addr: nat, iface: nat, active: bool, marked: bool, freed: bool)

  /** The bound peer and the published one, by number. */
  datatype Ctx = Ctx(peer: Option<nat>, entry: Option<nat>)

  /** The peer map, bit by bit, and the count of active contexts. */
  datatype Iface = Iface(bits: seq<bool>, actived: int)

  datatype Table = Table(peers: seq<Peer>, ctxs: seq<Ctx>, ifaces: seq<Iface>)

  /** Numbers refer to what exists. */
  predicate Shaped(t: Table) {
    && (forall i :: 0 <= i < |t.ifaces| ==> |t.ifaces[i].bits| == |t.ctxs|)
    && (forall c :: 0 <= c < |t.ctxs| ==> Refers(t, t.ctxs[c].peer) && Refers(t, t.ctxs[c].entry))
  }

  predicate Refers(t: Table, o: Option<nat>) {
    o.Some? ==> o.value < |t.peers| && t.peers[o.value].iface < |t.ifaces|
  }

  /* ---- Operations ---- */

  function Count(t: Table, i: nat, change: int): Table
    requires i < |t.ifaces|
  {
    t.(ifaces := t.ifaces[i := t.ifaces[i].(actived := t.ifaces[i].actived + change)])
  }

  function SetBit(t: Table, i: nat, c: nat, on: bool): Table
    requires i < |t.ifaces| && c < |t.ifaces[i].bits|
  {
    t.(ifaces := t.ifaces[i := t.ifaces[i].(bits := t.ifaces[i].bits[c := on])])
  }

  function SetPeer(t: Table, p: nat, peer: Peer): Table
    requires p < |t.peers|
  {
    t.(peers := t.peers[p := peer])
  }

  /** Publishes the bound peer, unless it carries any flag. */
  function Enable(t: Table, c: nat): Table
    requires Shaped(t) && c < |t.ctxs|
  {
    match t.ctxs[c].peer
    case None => t
    case Some(p) =>
      if t.peers[p].active || t.peers[p].marked then t
      else
        SetPeer(Count(t, t.peers[p].iface, 1), p,
            t.peers[p].(active := true)).(ctxs := t.ctxs[c := t.ctxs[c].(entry := Some(p))])
  }

  function Disable(t: Table, c: nat): Table
    requires Shaped(t) && c < |t.ctxs|
  {
    match t.ctxs[c].entry
    case None => t
    case Some(p) =>
      SetPeer(Count(t, t.peers[p].iface, -1), p,
          t.peers[p].(active := false)).(ctxs := t.ctxs[c := t.ctxs[c].(entry := None)])
  }

  /** Frees the bound peer. */
  function Release(t: Table, c: nat): Table
    requires Shaped(t) && c < |t.ctxs|
  {
    match t.ctxs[c].peer
    case None => t
    case Some(q) => SetPeer(t, q, t.peers[q].(freed := true)).(ctxs := t.ctxs[c := t.ctxs[c].(peer := None)])
  }

  /** Binds `who` to context `c` for interface `i` in place of what was bound there; nobody, if there is none. */
  function Bind(t: Table, i: nat, c: nat, who: Option<nat>): Table
    requires Shaped(t) && i < |t.ifaces| && c < |t.ctxs| && (who.Some? ==> who.value < |t.peers|)
  {
    var u := Release(SetBit(t, i, c, false), c);
    match who
    case None => u
    case Some(p) =>
      SetBit(SetPeer(u, p, u.peers[p].(iface := i)), i, c, true).(ctxs := u.ctxs[c := u.ctxs[c].(peer := Some(p))])
  }

  function Mark(t: Table, p: nat): Table
    requires p < |t.peers|
  {
    SetPeer(t, p, t.peers[p].(marked := true))
  }

  function Alloc(t: Table, addr: nat, marked: bool): Table {
    t.(peers := t.peers + [Peer(addr, 0, false, marked, false)])
  }

  /* ---- What the operations keep ---- */

  /** Context `c` has a live peer of interface `i`. */
  predicate Holds(t: Table, i: nat, c: nat)
    requires Shaped(t) && c < |t.ctxs|
  {
    t.ctxs[c].peer.Some? && t.peers[t.ctxs[c].peer.value].iface == i
  }

  /** Context `c` publishes a peer of interface `i`. */
  predicate Publishes(t: Table, i: nat, c: nat)
    requires Shaped(t) && c < |t.ctxs|
  {
    t.ctxs[c].entry.Some? && t.peers[t.ctxs[c].entry.value].iface == i
  }

  /** A published peer is the bound one, which is alive; it is flagged active exactly if it is published. */
  predicate Bound(t: Table, c: nat)
    requires Shaped(t) && c < |t.ctxs|
  {
    match t.ctxs[c].peer
    case None => t.ctxs[c].entry == None
    case Some(p) => !t.peers[p].freed && t.ctxs[c].entry == (if t.peers[p].active then Some(p) else None)
  }

  predicate Mapped(t: Table)
    requires Shaped(t)
  {
    forall i, c :: 0 <= i < |t.ifaces| && 0 <= c < |t.ctxs| ==> (t.ifaces[i].bits[c] <==> Holds(t, i, c))
  }

  predicate Unique(t: Table) {
    forall c, d :: 0 <= c < d < |t.ctxs| && t.ctxs[c].peer.Some? ==> t.ctxs[c].peer != t.ctxs[d].peer
  }

  function Published(t: Table, i: nat, n: nat): nat
    requires Shaped(t) && n <= |t.ctxs|
  {
    if n == 0 then 0 else Published(t, i, n - 1) + (if Publishes(t, i, n - 1) then 1 else 0)
  }

  predicate Tallied(t: Table)
    requires Shaped(t)
  {
    forall i :: 0 <= i < |t.ifaces| ==> t.ifaces[i].actived == Published(t, i, |t.ctxs|)
  }

  predicate Inv(t: Table) {
    && Shaped(t) && Unique(t) && Mapped(t) && Tallied(t)
    && forall c :: 0 <= c < |t.ctxs| ==> Bound(t, c)
  }

  /** The published count moves with the one context that changes. */
  lemma {:induction false} PublishedChange(t: Table, u: Table, i: nat, c: nat, n: nat)
    requires Shaped(t) && Shaped(u) && n <= |t.ctxs| == |u.ctxs| && c < |t.ctxs|
    requires forall d :: 0 <= d < |t.ctxs| && d != c ==> (Publishes(t, i, d) <==> Publishes(u, i, d))
    ensures Published(u, i, n) - Published(t, i, n)
         == if c < n then (if Publishes(u, i, c) then 1 else 0) - (if Publishes(t, i, c) then 1 else 0) else 0
  {
    if n > 0 {
      PublishedChange(t, u, i, c, n - 1);
    }
  }

  /** No other context refers to the peer bound at `c`. */
  lemma Others(t: Table, c: nat, p: nat, d: nat)
    requires Inv(t) && c < |t.ctxs| && d < |t.ctxs| && c != d && t.ctxs[c].peer == Some(p)
    ensures t.ctxs[d].peer != Some(p) && t.ctxs[d].entry != Some(p)
  {
    assert Bound(t, d);
  }

  /** `u` differs from `t` only in whether context `c` publishes its peer `p`. */
  predicate Switched(t: Table, u: Table, c: nat, p: nat, on: bool) {
    && Inv(t) && c < |t.ctxs| && t.ctxs[c] == Ctx(Some(p), if on then None else Some(p))
    && u.peers == t.peers[p := t.peers[p].(active := on)]
    && u.ctxs == t.ctxs[c := Ctx(Some(p), if on then Some(p) else None)]
    && u.ifaces == Count(t, t.peers[p].iface, if on then 1 else -1).ifaces
  }

  lemma SwitchedShape(t: Table, u: Table, c: nat, p: nat, on: bool)
    requires Switched(t, u, c, p, on)
    ensures Shaped(u) && Unique(u) && Mapped(u)
    ensures forall i, d :: 0 <= i < |t.ifaces| && 0 <= d < |t.ctxs| && d != c ==>
        (Publishes(t, i, d) <==> Publishes(u, i, d))
  {
  }

  lemma SwitchedBound(t: Table, u: Table, c: nat, p: nat, on: bool, d: nat)
    requires Switched(t, u, c, p, on) && Shaped(u) && d < |u.ctxs|
    ensures Bound(u, d)
  {
    assert Bound(t, d);
    if c != d {
      Others(t, c, p, d);
    }
  }

  lemma SwitchedKeeps(t: Table, u: Table, c: nat, p: nat, on: bool)
    requires Switched(t, u, c, p, on)
    ensures Inv(u)
  {
    SwitchedShape(t, u, c, p, on);
    forall d | 0 <= d < |t.ctxs| ensures Bound(u, d) {
      SwitchedBound(t, u, c, p, on, d);
    }
    forall i | 0 <= i < |t.ifaces| ensures u.ifaces[i].actived == Published(u, i, |u.ctxs|) {
      PublishedChange(t, u, i, c, |t.ctxs|);
    }
  }

  lemma EnableKeeps(t: Table, c: nat)
    requires Inv(t) && c < |t.ctxs|
    ensures Inv(Enable(t, c))
  {
    if Enable(t, c) != t {
      assert Bound(t, c);
      SwitchedKeeps(t, Enable(t, c), c, t.ctxs[c].peer.value, true);
    }
  }

  lemma DisableKeeps(t: Table, c: nat)
    requires Inv(t) && c < |t.ctxs|
    ensures Inv(Disable(t, c))
  {
    if t.ctxs[c].entry.Some? {
      assert Bound(t, c);
      SwitchedKeeps(t, Disable(t, c), c, t.ctxs[c].peer.value, false);
    }
  }

  /** Nothing changes in any other context, nor in whom this one has bound. */
  predicate OnlyEntry(t: Table, u: Table, c: nat) {
    && |u.ctxs| == |t.ctxs| && |u.peers| == |t.peers| && c < |t.ctxs| && u.ctxs[c].peer == t.ctxs[c].peer
    && (forall d :: 0 <= d < |t.ctxs| && d != c ==> u.ctxs[d] == t.ctxs[d])
    && (forall p :: 0 <= p < |t.peers| && t.ctxs[c].peer != Some(p) ==> u.peers[p] == t.peers[p])
    && (forall p :: 0 <= p < |t.peers| ==> u.peers[p].marked == t.peers[p].marked)
  }

  /** The context's peer carries none of the flags that forbid transmission. */
  predicate Willing(t: Table, c: nat)
    requires Shaped(t) && c < |t.ctxs|
  {
    t.ctxs[c].peer.Some? && !t.peers[t.ctxs[c].peer.value].marked
  }

  /**
   What a call leaves published: after enabling, the bound peer, if there is one and it was published
   already or is not flagged; after disabling, nothing.
   */
  predicate Transmits(t: Table, u: Table, c: nat, enable: bool)
    requires Shaped(t) && c < |t.ctxs|
  {
    && OnlyEntry(t, u, c)
    && u.ctxs[c].entry == if enable && (t.ctxs[c].entry.Some? || Willing(t, c)) then t.ctxs[c].peer else None
  }

  lemma TransmitsExact(t: Table, c: nat)
    requires Inv(t) && c < |t.ctxs|
    ensures Transmits(t, Enable(t, c), c, true) && Transmits(t, Disable(t, c), c, false)
  {
    assert Bound(t, c);
  }

  /** A peer that can be bound: alive, bound nowhere and not active. */
  predicate Unbound(t: Table, who: Option<nat>) {
    who.Some? ==>
      && who.value < |t.peers| && !t.peers[who.value].freed && !t.peers[who.value].active
      && forall c :: 0 <= c < |t.ctxs| ==> t.ctxs[c].peer != who
  }

  /** Context `c` publishes nothing and, if it is taken, interface `i` took it. */
  predicate Clean(t: Table, i: nat, c: nat)
    requires Shaped(t) && c < |t.ctxs|
  {
    t.ctxs[c].entry == None && (t.ctxs[c].peer == None || Holds(t, i, c))
  }

  /** What `Bind` leaves in the peers and contexts. */
  lemma BindParts(t: Table, i: nat, c: nat, who: Option<nat>, d: nat)
    requires Inv(t) && Unbound(t, who) && i < |t.ifaces| && c < |t.ctxs| && d < |t.ctxs|
    ensures var u := Bind(t, i, c, who);
            && |u.ctxs| == |t.ctxs| && |u.peers| == |t.peers| && |u.ifaces| == |t.ifaces|
            && u.ctxs[d] == (if d == c then Ctx(who, t.ctxs[c].entry) else t.ctxs[d])
            && (d != c && t.ctxs[d].peer.Some? ==> u.peers[t.ctxs[d].peer.value] == t.peers[t.ctxs[d].peer.value])
            && (who.Some? ==> u.peers[who.value] == t.peers[who.value].(iface := i))
  {
    if t.ctxs[c].peer.Some? && c != d {
      Others(t, c, t.ctxs[c].peer.value, d);
    }
  }

  lemma BindBits(t: Table, i: nat, c: nat, who: Option<nat>, j: nat)
    requires Inv(t) && Unbound(t, who) && i < |t.ifaces| && c < |t.ctxs| && j < |t.ifaces|
    ensures var u := Bind(t, i, c, who);
            |u.ifaces| == |t.ifaces| && u.ifaces[j].actived == t.ifaces[j].actived
            && u.ifaces[j].bits == (if i == j then t.ifaces[j].bits[c := who.Some?] else t.ifaces[j].bits)
  {
  }

  lemma BindShape(t: Table, i: nat, c: nat, who: Option<nat>)
    requires Inv(t) && Unbound(t, who) && i < |t.ifaces| && c < |t.ctxs| && Clean(t, i, c)
    ensures var u := Bind(t, i, c, who);
            && Shaped(u) && Unique(u)
            && forall d :: 0 <= d < |u.ctxs| ==> Bound(u, d)
  {
    var u := Bind(t, i, c, who);
    forall d | 0 <= d < |t.ctxs|
      ensures u.ctxs[d] == (if d == c then Ctx(who, None) else t.ctxs[d])
      ensures d != c && t.ctxs[d].peer.Some? ==> u.peers[t.ctxs[d].peer.value] == t.peers[t.ctxs[d].peer.value]
      ensures Refers(u, u.ctxs[d].peer) && Refers(u, u.ctxs[d].entry)
    {
      BindParts(t, i, c, who, d);
      assert Bound(t, d);
    }
    forall j | 0 <= j < |t.ifaces| ensures |u.ifaces[j].bits| == |u.ctxs| {
      BindBits(t, i, c, who, j);
    }
    assert Shaped(u);
    forall d | 0 <= d < |t.ctxs| ensures Bound(u, d) {
      BindParts(t, i, c, who, d);
      assert Bound(t, d);
    }
  }

  lemma BindHolds(t: Table, i: nat, c: nat, who: Option<nat>, j: nat, d: nat)
    requires Inv(t) && Unbound(t, who) && i < |t.ifaces| && c < |t.ctxs| && j < |t.ifaces| && d < |t.ctxs|
    requires Clean(t, i, c) && Shaped(Bind(t, i, c, who))
    ensures var u := Bind(t, i, c, who);
            && |u.ctxs| == |t.ctxs| && |u.ifaces| == |t.ifaces|
            && (u.ifaces[j].bits[d] <==> Holds(u, j, d)) && (Publishes(u, j, d) <==> Publishes(t, j, d))
  {
    BindParts(t, i, c, who, d);
    BindBits(t, i, c, who, j);
    assert t.ifaces[j].bits[d] <==> Holds(t, j, d);
    assert Bound(t, d);
  }

  lemma BindKeeps(t: Table, i: nat, c: nat, who: Option<nat>)
    requires Inv(t) && Unbound(t, who) && i < |t.ifaces| && c < |t.ctxs| && Clean(t, i, c)
    ensures Inv(Bind(t, i, c, who))
  {
    var u := Bind(t, i, c, who);
    BindShape(t, i, c, who);
    forall j, d | 0 <= j < |t.ifaces| && 0 <= d < |t.ctxs|
      ensures |u.ctxs| == |t.ctxs| && |u.ifaces| == |t.ifaces|
      ensures (u.ifaces[j].bits[d] <==> Holds(u, j, d)) && (Publishes(u, j, d) <==> Publishes(t, j, d))
    {
      BindHolds(t, i, c, who, j, d);
    }
    BindParts(t, i, c, who, c);
    forall j | 0 <= j < |t.ifaces| ensures u.ifaces[j].actived == Published(u, j, |u.ctxs|) {
      BindBits(t, i, c, who, j);
      PublishedChange(t, u, j, c, |t.ctxs|);
    }
  }

  lemma BindBreaks(t: Table, i: nat, c: nat, who: Option<nat>)
    requires Inv(t) && Unbound(t, who) && i < |t.ifaces| && c < |t.ctxs| && !Clean(t, i, c)
    ensures !Inv(Bind(t, i, c, who))
  {
    var u := Bind(t, i, c, who);
    BindParts(t, i, c, who, c);
    assert Bound(t, c);
    if Shaped(u) {
      if t.ctxs[c].entry.Some? {
        assert !Bound(u, c);
      } else {
        var j := t.peers[t.ctxs[c].peer.value].iface;
        BindBits(t, i, c, who, j);
        assert u.ifaces[j].bits[c] && !Holds(u, j, c);
      }
    }
  }

  /**
   Binding keeps everything in order exactly when transmission was disabled and the context is not
   another interface's.
   */
  lemma BindExact(t: Table, i: nat, c: nat, who: Option<nat>)
    requires Inv(t) && Unbound(t, who) && i < |t.ifaces| && c < |t.ctxs|
    ensures Inv(Bind(t, i, c, who)) <==> Clean(t, i, c)
  {
    if Clean(t, i, c) {
      BindKeeps(t, i, c, who);
    } else {
      BindBreaks(t, i, c, who);
    }
  }

  lemma MarkKeeps(t: Table, p: nat)
    requires Inv(t) && p < |t.peers|
    ensures Inv(Mark(t, p))
  {
    var u := Mark(t, p);
    assert Shaped(u);
    forall d | 0 <= d < |t.ctxs| ensures Bound(u, d) {
      assert Bound(t, d);
    }
    forall i | 0 <= i < |t.ifaces| && |t.ctxs| > 0 ensures u.ifaces[i].actived == Published(u, i, |u.ctxs|) {
      PublishedChange(t, u, i, 0, |t.ctxs|);
    }
  }

  lemma AllocKeeps(t: Table, addr: nat, marked: bool)
    requires Inv(t)
    ensures Inv(Alloc(t, addr, marked))
  {
    var u := Alloc(t, addr, marked);
    assert Shaped(u);
    forall d | 0 <= d < |t.ctxs| ensures Bound(u, d) {
      assert Bound(t, d);
    }
    forall i | 0 <= i < |t.ifaces| && |t.ctxs| > 0 ensures u.ifaces[i].actived == Published(u, i, |u.ctxs|) {
      PublishedChange(t, u, i, 0, |t.ctxs|);
    }
  }

  /* ---- Runs ---- */

  datatype Event =
    | Enables(c: nat)
    | Disables(c: nat)
    | Binds(i: nat, c: nat, who: Option<nat>)
    | Marks(p: nat)
    | Allocs(addr: nat, marked: bool)

  /** The call makes sense: what it names exists, and a peer to be bound is free to be. */
  predicate Callable(t: Table, e: Event) {
    match e
    case Enables(c) => c < |t.ctxs|
    case Disables(c) => c < |t.ctxs|
    case Binds(i, c, who) => i < |t.ifaces| && c < |t.ctxs| && Unbound(t, who)
    case Marks(p) => p < |t.peers|
    case Allocs(_, _) => true
  }

  function Step(t: Table, e: Event): Table
    requires Shaped(t) && Callable(t, e)
  {
    match e
    case Enables(c) => Enable(t, c)
    case Disables(c) => Disable(t, c)
    case Binds(i, c, who) => Bind(t, i, c, who)
    case Marks(p) => Mark(t, p)
    case Allocs(addr, marked) => Alloc(t, addr, marked)
  }

  /** Every call keeps the table in order, except a binding that is not clean. */
  lemma StepExact(t: Table, e: Event)
    requires Inv(t) && Callable(t, e)
    ensures Inv(Step(t, e)) <==> (e.Binds? ==> Clean(t, e.i, e.c))
  {
    match e
    case Enables(c) => EnableKeeps(t, c);
    case Disables(c) => DisableKeeps(t, c);
    case Binds(i, c, who) => BindExact(t, i, c, who);
    case Marks(p) => MarkKeeps(t, p);
    case Allocs(addr, marked) => AllocKeeps(t, addr, marked);
  }

  /** The run disables transmission before unbinding and binds no context of another interface. */
  predicate Tidy(t: Table, evs: seq<Event>)
    requires Inv(t)
    decreases |evs|
  {
    evs == [] ||
    (&& Callable(t, evs[0]) && (evs[0].Binds? ==> Clean(t, evs[0].i, evs[0].c))
     && (StepExact(t, evs[0]); Tidy(Step(t, evs[0]), evs[1..])))
  }

  function Run(t: Table, evs: seq<Event>): (u: Table)
    requires Inv(t) && Tidy(t, evs)
    ensures Inv(u)
    decreases |evs|
  {
    if evs == [] then t
    else
      StepExact(t, evs[0]);
      Run(Step(t, evs[0]), evs[1..])
  }

  function Empty(contexts: nat, interfaces: nat): Table {
    Table([], seq(contexts, _ => Ctx(None, None)), seq(interfaces, _ => Iface(seq(contexts, _ => false), 0)))
  }

  lemma {:induction false} NothingPublished(contexts: nat, interfaces: nat, i: nat, n: nat)
    requires n <= contexts
    ensures Published(Empty(contexts, interfaces), i, n) == 0
  {
    if n > 0 {
      NothingPublished(contexts, interfaces, i, n - 1);
    }
  }

  lemma EmptyInv(contexts: nat, interfaces: nat)
    ensures Inv(Empty(contexts, interfaces))
  {
    forall i | 0 <= i < interfaces ensures Empty(contexts, interfaces).ifaces[i].actived
        == Published(Empty(contexts, interfaces), i, contexts) {
      NothingPublished(contexts, interfaces, i, contexts);
    }
  }

  /* ---- Finding a peer ---- */

  /** Context `c` is bound on interface `i` to a peer with this address. */
  predicate Answers(t: Table, i: nat, c: nat, mac: nat)
    requires Shaped(t) && c < |t.ctxs|
  {
    Holds(t, i, c) && t.peers[t.ctxs[c].peer.value].addr == mac
  }

  /* ---- The table as the driver keeps it ---- */

  class PeerTable {
    var peers: seq<Peer>
    var ctxs: seq<Ctx>
    var ifaces: seq<Iface>

    ghost function View(): Table
      reads this
    {
      Table(peers, ctxs, ifaces)
    }

    constructor (contexts: nat, interfaces: nat)
      ensures View() == Empty(contexts, interfaces) && Inv(View())
    {
      peers := [];
      ctxs := seq(contexts, _ => Ctx(None, None));
      ifaces := seq(interfaces, _ => Iface(seq(contexts, _ => false), 0));
      new;
      EmptyInv(contexts, interfaces);
    }

    method Transmit(c: nat, enable: bool)
      requires Inv(View()) && c < |ctxs|
      modifies this
      ensures View() == if enable then Enable(old(View()), c) else Disable(old(View()), c)
      ensures Inv(View()) && Transmits(old(View()), View(), c, enable)
    {
      TransmitsExact(View(), c);
      EnableKeeps(View(), c);
      DisableKeeps(View(), c);
      if enable {
        if ctxs[c].peer == None {
          return;
        }
        var p := ctxs[c].peer.value;
        if peers[p].active || peers[p].marked {
          return;
        }
        ctxs := ctxs[c := ctxs[c].(entry := Some(p))];
        var i := peers[p].iface;
        ifaces := ifaces[i := ifaces[i].(actived := ifaces[i].actived + 1)];
        peers := peers[p := peers[p].(active := true)];
      } else if ctxs[c].entry.Some? {
        var p := ctxs[c].entry.value;
        var i := peers[p].iface;
        ifaces := ifaces[i := ifaces[i].(actived := ifaces[i].actived - 1)];
        peers := peers[p := peers[p].(active := false)];
        ctxs := ctxs[c := ctxs[c].(entry := None)];
      }
    }

    method BindPeer(i: nat, c: nat, who: Option<nat>)
      requires Inv(View()) && i < |ifaces| && c < |ctxs| && Unbound(View(), who)
      modifies this
      ensures View() == Bind(old(View()), i, c, who)
      ensures Inv(View()) <==> Clean(old(View()), i, c)
    {
      BindExact(View(), i, c, who);
      ifaces := ifaces[i := ifaces[i].(bits := ifaces[i].bits[c := false])];
      if ctxs[c].peer.Some? {
        var q := ctxs[c].peer.value;
        peers := peers[q := peers[q].(freed := true)];
        ctxs := ctxs[c := ctxs[c].(peer := None)];
      }
      if who.Some? {
        var p := who.value;
        peers := peers[p := peers[p].(iface := i)];
        ctxs := ctxs[c := ctxs[c].(peer := who)];
        ifaces := ifaces[i := ifaces[i].(bits := ifaces[i].bits[c := true])];
      }
    }

    /**
     Walks the peer map from its lowest bit: finds the first context bound to the address, and fails
     exactly if there is none.
     */
    method Find(i: nat, mac: nat) returns (r: Option<nat>)
      requires Inv(View()) && i < |ifaces|
      ensures r.Some? ==> r.value < |ctxs| && Answers(View(), i, r.value, mac) && forall d :: 0 <= d < r.value ==>
          !Answers(View(), i, d, mac)
      ensures r.None? <==> forall d :: 0 <= d < |ctxs| ==> !Answers(View(), i, d, mac)
    {
      var bits := ifaces[i].bits;
      var c := Lowest(bits, 0);
      while c < |bits|
        invariant |bits| == |ctxs| && c <= |bits| && (c < |bits| ==> bits[c])
        invariant forall d :: c <= d < |bits| ==> (bits[d] <==> Holds(View(), i, d))
        invariant forall d :: 0 <= d < c ==> !bits[d] && !Answers(View(), i, d, mac)
        decreases |bits| - c
      {
        bits := bits[c := false];
        if peers[ctxs[c].peer.value].addr == mac {
          return Some(c);
        }
        c := Lowest(bits, 0);
      }
      return None;
    }
  }
}
