/**
 The keep-alive rules: which of the enabled ones reach the firmware. A request stores a packet for
 an index, or none, and enables or disables the index; then all enabled rules are sent again.
 */
module KeepAlive {
  import opened Basics

  const RULES: nat := 18
  const HALF: nat := RULES / 2
  const BUFFER: nat := 1300      // bytes of rules in one message
  const HEADERS: nat := 8        // struct skw_keep_active_rule and struct skw_keep_active_rule_data
  const MAX_SIZE: nat := 135
  const ENOMEM: int := -12
  const EFAULT: int := -14
  const ENOSPC: int := -28

  /** Which rules are enabled, and the bytes of those that are stored. */
  datatype Setup = Setup(bits: seq<bool>, sizes: seq<Option<nat>>)

  /** `packet` is the number of packet bytes; zero means that none is given. */
  datatype Request = Request(idx: nat, enable: bool, interval: nat, packet: nat)

  predicate Shaped(s: Setup) {
    |s.bits| == |s.sizes| == RULES
  }

  const EMPTY: Setup := Setup(seq(RULES, _ => false), seq(RULES, _ => None))

  /* ---- Requests ---- */

  predicate Stores(q: Request) {
    q.interval != 0 && q.packet > 0
  }

  predicate Refused(q: Request) {
    q.packet + HEADERS > MAX_SIZE || q.idx >= RULES
  }

  /** Stores the rule if there is one, and enables or disables the index. */
  function Saved(s: Setup, rule: Option<nat>, idx: nat, enable: bool): Setup
    requires Shaped(s) && idx < RULES
  {
    Setup(s.bits[idx := enable], if rule.Some? then s.sizes[idx := rule] else s.sizes)
  }

  function Requested(s: Setup, q: Request): Setup
    requires Shaped(s)
  {
    if Refused(q) then s
    else Saved(s, if Stores(q) then Some(HEADERS + q.packet) else None, q.idx, q.enable)
  }

  /** What a request changes: nothing beyond index 17 or 127 packet bytes, and else its own index only. */
  lemma RequestExact(s: Setup, q: Request)
    requires Shaped(s)
    ensures var t := Requested(s, q);
            && Shaped(t) && (q.idx >= 18 || q.packet > 127 ==> t == s)
            && (forall i :: 0 <= i < RULES && i != q.idx ==> t.bits[i] == s.bits[i] && t.sizes[i] == s.sizes[i])
            && (q.idx < 18 && q.packet <= 127 ==>
                  && t.bits[q.idx] == q.enable
                  && t.sizes[q.idx] == if q.interval > 0 && q.packet > 0 then Some(8 + q.packet) else s.sizes[q.idx])
  {
  }

  /* ---- What is sent ---- */

  /** The set positions from `k` on. */
  function Ones(bits: seq<bool>, k: nat): (r: seq<nat>)
    requires k <= |bits|
    ensures |r| <= |bits| - k
    ensures forall j :: 0 <= j < |r| ==> k <= r[j] < |bits| && bits[r[j]]
    decreases |bits| - k
  {
    if k == |bits| then [] else (if bits[k] then [k] else []) + Ones(bits, k + 1)
  }

  predicate Within(idx: seq<nat>, n: nat) {
    forall j :: 0 <= j < |idx| ==> idx[j] < n
  }

  /** The rules that go into a message: until one is missing, the bytes run out or there are `limit`. */
  function Fitting(idx: seq<nat>, sizes: seq<Option<nat>>, room: nat, limit: nat): (r: seq<nat>)
    requires Within(idx, |sizes|)
    ensures r <= idx && |r| <= limit
  {
    if idx == [] || limit == 0 then []
    else if sizes[idx[0]].None? || sizes[idx[0]].value > room then []
    else [idx[0]] + Fitting(idx[1..], sizes, room - sizes[idx[0]].value, limit - 1)
  }

  function First(s: Setup): (r: seq<nat>)
    requires Shaped(s)
    ensures r <= Ones(s.bits, 0) && |r| <= HALF
  {
    Fitting(Ones(s.bits, 0), s.sizes, BUFFER, HALF)
  }

  /** The second message exists only if the first one is full. */
  function Second(s: Setup): (r: seq<nat>)
    requires Shaped(s)
    ensures |First(s)| < HALF ==> r == []
    ensures |First(s)| == HALF ==> r <= Ones(s.bits, 0)[HALF..]
  {
    if |First(s)| < HALF then [] else Fitting(Ones(s.bits, 0)[HALF..], s.sizes, BUFFER, HALF + 1)
  }

  function Sent(s: Setup): seq<nat>
    requires Shaped(s)
  {
    First(s) + Second(s)
  }

  /* ---- When everything enabled is sent ---- */

  function Bytes(idx: seq<nat>, sizes: seq<Option<nat>>): nat
    requires Within(idx, |sizes|)
  {
    if idx == [] then 0
    else (if sizes[idx[0]].Some? then sizes[idx[0]].value else 0) + Bytes(idx[1..], sizes)
  }

  predicate Stored(idx: seq<nat>, sizes: seq<Option<nat>>)
    requires Within(idx, |sizes|)
  {
    forall j :: 0 <= j < |idx| ==> sizes[idx[j]].Some?
  }

  /** A message takes all of a list exactly when they are stored, few enough and short enough together. */
  lemma {:induction false} FittingAll(idx: seq<nat>, sizes: seq<Option<nat>>, room: nat, limit: nat)
    requires Within(idx, |sizes|)
    ensures Fitting(idx, sizes, room, limit) == idx
       <==> |idx| <= limit && Stored(idx, sizes) && Bytes(idx, sizes) <= room
  {
    if idx != [] && limit > 0 && sizes[idx[0]].Some? {
      assert idx == [idx[0]] + idx[1..];
      assert Stored(idx, sizes) <==> Stored(idx[1..], sizes) by {
        assert forall j :: 0 < j < |idx| ==> idx[j] == idx[1..][j - 1];
      }
      if sizes[idx[0]].value <= room {
        FittingAll(idx[1..], sizes, room - sizes[idx[0]].value, limit - 1);
      }
    }
  }

  /** A limit cuts the list before anything else is looked at. */
  lemma {:induction false} FittingCut(idx: seq<nat>, sizes: seq<Option<nat>>, room: nat, limit: nat)
    requires Within(idx, |sizes|) && limit <= |idx|
    ensures Fitting(idx, sizes, room, limit) == Fitting(idx[..limit], sizes, room, limit)
  {
    if limit > 0 && sizes[idx[0]].Some? && sizes[idx[0]].value <= room {
      assert idx[..limit][1..] == idx[1..][..limit - 1];
      FittingCut(idx[1..], sizes, room - sizes[idx[0]].value, limit - 1);
    }
  }

  function Min(a: nat, b: nat): nat {
    if a < b then a else b
  }

  /** All enabled rules are stored, and those of either message fit its buffer. */
  predicate Complete(s: Setup)
    requires Shaped(s)
  {
    var all := Ones(s.bits, 0);
    var n := Min(HALF, |all|);
    Stored(all, s.sizes) && Bytes(all[..n], s.sizes) <= BUFFER && Bytes(all[n..], s.sizes) <= BUFFER
  }

  lemma StoredSplit(idx: seq<nat>, sizes: seq<Option<nat>>, n: nat)
    requires Within(idx, |sizes|) && n <= |idx|
    ensures Stored(idx, sizes) <==> Stored(idx[..n], sizes) && Stored(idx[n..], sizes)
  {
    assert forall j :: 0 <= j < n ==> idx[..n][j] == idx[j];
    assert forall j :: n <= j < |idx| ==> idx[n..][j - n] == idx[j];
  }

  /** The first message is full exactly when the first rules are stored and fit. */
  lemma FirstFull(all: seq<nat>, sizes: seq<Option<nat>>, room: nat, half: nat)
    requires Within(all, |sizes|) && |all| >= half
    ensures var f := Fitting(all, sizes, room, half);
            && (|f| == half <==> Stored(all[..half], sizes) && Bytes(all[..half], sizes) <= room)
            && (|f| == half ==> f == all[..half])
  {
    FittingCut(all, sizes, room, half);
    FittingAll(all[..half], sizes, room, half);
  }

  lemma RestFits(all: seq<nat>, sizes: seq<Option<nat>>, room: nat, half: nat)
    requires Within(all, |sizes|) && half <= |all| <= 2 * half + 1
    ensures var g := Fitting(all[half..], sizes, room, half + 1);
            && all[..half] + g <= all
            && (all[..half] + g == all <==> Stored(all[half..], sizes) && Bytes(all[half..], sizes) <= room)
  {
    FittingAll(all[half..], sizes, room, half + 1);
    JoinPrefix(all, half, Fitting(all[half..], sizes, room, half + 1));
  }

  /** Two messages, the second one if the first is full. */
  lemma TwoMessages(all: seq<nat>, sizes: seq<Option<nat>>, room: nat, half: nat, f: seq<nat>, g: seq<nat>)
    requires Within(all, |sizes|) && half <= |all| <= 2 * half + 1 && f == Fitting(all, sizes, room, half)
    requires g == if |f| < half then [] else Fitting(all[half..], sizes, room, half + 1)
    ensures f + g <= all
    ensures f + g == all
       <==> Stored(all, sizes) && Bytes(all[..half], sizes) <= room && Bytes(all[half..], sizes) <= room
  {
    FirstFull(all, sizes, room, half);
    StoredSplit(all, sizes, half);
    if |f| == half {
      RestFits(all, sizes, room, half);
    } else {
      assert g == [];
      assert f + g == f;
    }
  }

  lemma SentMany(s: Setup)
    requires Shaped(s) && |Ones(s.bits, 0)| >= HALF
    ensures Sent(s) <= Ones(s.bits, 0)
    ensures Sent(s) == Ones(s.bits, 0) <==> Complete(s)
  {
    TwoMessages(Ones(s.bits, 0), s.sizes, BUFFER, HALF, First(s), Second(s));
  }

  lemma JoinPrefix(all: seq<nat>, n: nat, b: seq<nat>)
    requires n <= |all| && b <= all[n..]
    ensures all[..n] + b <= all && (all[..n] + b == all <==> b == all[n..])
  {
    assert all == all[..n] + all[n..];
  }

  lemma SentFew(s: Setup)
    requires Shaped(s) && |Ones(s.bits, 0)| < HALF
    ensures Sent(s) == First(s)
    ensures Sent(s) == Ones(s.bits, 0) <==> Complete(s)
  {
    var all := Ones(s.bits, 0);
    FittingAll(all, s.sizes, BUFFER, HALF);
    assert all[..|all|] == all && all[|all|..] == [];
  }

  /** What is sent is a prefix of what is enabled, and it is all of it exactly under that condition. */
  lemma {:induction false} SentExact(s: Setup)
    requires Shaped(s)
    ensures Sent(s) <= Ones(s.bits, 0)
    ensures Sent(s) == Ones(s.bits, 0) <==> Complete(s)
  {
    if |Ones(s.bits, 0)| < HALF {
      SentFew(s);
    } else {
      SentMany(s);
    }
  }

  /* ---- Over every run of requests ---- */

  /** No stored rule is longer than a request can make it. */
  predicate Short(s: Setup) {
    Shaped(s) && forall i :: 0 <= i < RULES && s.sizes[i].Some? ==> s.sizes[i].value <= MAX_SIZE
  }

  lemma {:induction false} BytesBound(idx: seq<nat>, sizes: seq<Option<nat>>)
    requires Within(idx, |sizes|) && forall i :: 0 <= i < |sizes| && sizes[i].Some? ==> sizes[i].value <= MAX_SIZE
    ensures Bytes(idx, sizes) <= MAX_SIZE * |idx|
  {
    if idx != [] {
      BytesBound(idx[1..], sizes);
    }
  }

  /** With such rules the buffers suffice: everything enabled is sent exactly when all of it is stored. */
  lemma {:induction false} ShortExact(s: Setup)
    requires Short(s)
    ensures Sent(s) == Ones(s.bits, 0) <==> Stored(Ones(s.bits, 0), s.sizes)
  {
    SentExact(s);
    var all := Ones(s.bits, 0);
    var n := Min(HALF, |all|);
    BytesBound(all[..n], s.sizes);
    BytesBound(all[n..], s.sizes);
  }

  function Run(s: Setup, qs: seq<Request>): (r: Setup)
    requires Shaped(s)
    ensures Shaped(r)
  {
    if qs == [] then s else Requested(Run(s, qs[..|qs| - 1]), qs[|qs| - 1])
  }

  /** Some request has stored a packet for this index. */
  predicate Given(qs: seq<Request>, i: nat) {
    exists k :: 0 <= k < |qs| && qs[k].idx == i && Stores(qs[k]) && !Refused(qs[k])
  }

  /** The last request for this index that was not refused enabled it. */
  predicate Wanted(qs: seq<Request>, i: nat) {
    qs != [] &&
    var q := qs[|qs| - 1];
    if q.idx == i && !Refused(q) then q.enable else Wanted(qs[..|qs| - 1], i)
  }

  lemma GivenMore(qs: seq<Request>, i: nat)
    requires qs != []
    ensures var q := qs[|qs| - 1];
            Given(qs, i) <==> (q.idx == i && Stores(q) && !Refused(q)) || Given(qs[..|qs| - 1], i)
  {
    var init := qs[..|qs| - 1];
    if Given(init, i) {
      var k :| 0 <= k < |init| && init[k].idx == i && Stores(init[k]) && !Refused(init[k]);
      assert qs[k] == init[k];
    }
    if Given(qs, i) {
      var k :| 0 <= k < |qs| && qs[k].idx == i && Stores(qs[k]) && !Refused(qs[k]);
      assert k < |init| ==> init[k] == qs[k];
    }
  }

  /** What the tables hold after a run, index by index. */
  lemma {:induction false} RunHolds(qs: seq<Request>, i: nat)
    requires i < RULES
    ensures Short(Run(EMPTY, qs))
    ensures Run(EMPTY, qs).bits[i] <==> Wanted(qs, i)
    ensures Run(EMPTY, qs).sizes[i].Some? <==> Given(qs, i)
  {
    if qs != [] {
      RunHolds(qs[..|qs| - 1], i);
      GivenMore(qs, i);
    }
  }

  lemma {:induction false} OnesHave(bits: seq<bool>, k: nat, i: nat)
    requires k <= i < |bits| && bits[i]
    ensures i in Ones(bits, k)
    decreases |bits| - k
  {
    if k < i {
      OnesHave(bits, k + 1, i);
    }
  }

  /**
   After any requests, every enabled rule is sent if and only if each index that was last enabled
   has at some time been given a packet.
   */
  lemma {:induction false} RunExact(qs: seq<Request>)
    ensures var s := Run(EMPTY, qs);
            && Shaped(s)
            && (Sent(s) == Ones(s.bits, 0) <==> forall i :: 0 <= i < RULES && Wanted(qs, i) ==> Given(qs, i))
  {
    var s := Run(EMPTY, qs);
    RunHolds(qs, 0);
    ShortExact(s);
    var all := Ones(s.bits, 0);
    forall i | 0 <= i < RULES
      ensures (s.bits[i] <==> Wanted(qs, i)) && (s.sizes[i].Some? <==> Given(qs, i)) && (s.bits[i] ==> i in all)
    {
      RunHolds(qs, i);
      if s.bits[i] {
        OnesHave(s.bits, 0, i);
      }
    }
    if Stored(all, s.sizes) {
      assert forall i :: 0 <= i < RULES && Wanted(qs, i) ==> i in all && Given(qs, i);
    }
  }

  /** One request that enables an index without a packet keeps all the rules behind it from being sent. */
  lemma OneHidesAll(n: nat)
    requires 0 < n <= MAX_SIZE - HEADERS
    ensures var qs := [Request(0, true, 0, 0), Request(1, true, 1000, n)];
            Ones(Run(EMPTY, qs).bits, 0) != [] && Sent(Run(EMPTY, qs)) == []
  {
    var a, b := Request(0, true, 0, 0), Request(1, true, 1000, n);
    assert [a, b][..1] == [a] && [a][..0] == [];
    assert Run(EMPTY, [a]) == Requested(EMPTY, a);
    var s := Run(EMPTY, [a, b]);
    OnesHave(s.bits, 0, 0);
    assert Ones(s.bits, 0)[0] == 0;
    assert s.sizes[0].None?;
  }

  /* ---- The driver's loops ---- */

  datatype Message = Disable | Enable(rules: seq<nat>) | Append(rules: seq<nat>)

  /** What goes out: everything is switched off first. `more` says whether there is memory for a second message. */
  function Messages(s: Setup, more: bool): seq<Message>
    requires Shaped(s)
  {
    [Disable] + (if First(s) == [] then [] else [Enable(First(s))])
              + (if Second(s) == [] || !more then [] else [Append(Second(s))])
  }

  /** The rules that a list of messages carries. */
  function Carried(msgs: seq<Message>): seq<nat> {
    if msgs == [] then []
    else (if msgs[0].Disable? then [] else msgs[0].rules) + Carried(msgs[1..])
  }

  lemma {:induction false} CarriedJoin(a: seq<Message>, b: seq<Message>)
    ensures Carried(a + b) == Carried(a) + Carried(b)
  {
    if a == [] {
      assert a + b == b;
    } else {
      assert (a + b)[1..] == a[1..] + b;
      CarriedJoin(a[1..], b);
    }
  }

  lemma CarriedOne(m: Message)
    ensures Carried([m]) == if m.Disable? then [] else m.rules
  {
    assert [m][1..] == [];
  }

  lemma MessagesCarry(s: Setup)
    requires Shaped(s)
    ensures Carried(Messages(s, true)) == Sent(s)
  {
    var a := if First(s) == [] then [] else [Enable(First(s))];
    var b := if Second(s) == [] then [] else [Append(Second(s))];
    CarriedJoin([Disable] + a, b);
    CarriedJoin([Disable], a);
    CarriedOne(Disable);
    CarriedOne(Enable(First(s)));
    CarriedOne(Append(Second(s)));
  }

  /** First everything is switched off; then at most one message enables rules and at most one after it appends. */
  lemma MessagesOrder(s: Setup, more: bool)
    requires Shaped(s)
    ensures var msgs := Messages(s, more);
            && 1 <= |msgs| <= 3 && msgs[0].Disable?
            && (|msgs| > 1 ==> msgs[1].Enable? && msgs[1].rules != [])
            && (|msgs| > 2 ==> msgs[2].Append? && msgs[2].rules != [] && more)
  {
    NoneTwice(s);
  }

  /** All enabled rules travel exactly if a packet is stored for each. */
  predicate CarriesAll(s: Setup, msgs: seq<Message>)
    requires Shaped(s)
  {
    Carried(msgs) == Ones(s.bits, 0) <==> Stored(Ones(s.bits, 0), s.sizes)
  }

  lemma ShortCarries(s: Setup)
    requires Short(s)
    ensures CarriesAll(s, Messages(s, true))
  {
    MessagesCarry(s);
    ShortExact(s);
  }

  /** What the sender returns when it has the memory it needs. */
  function Result(s: Setup, send: nat -> int): int
    requires Shaped(s)
  {
    if |First(s)| < HALF then send(if First(s) == [] then 0 else 1)
    else if Second(s) == [] then 0
    else send(2)
  }

  /** The result is that of the last message, and zero if nothing is left for a second one after a full first. */
  lemma ResultLast(s: Setup, send: nat -> int)
    requires Shaped(s)
    ensures var n := |Messages(s, true)|;
            && (Result(s, send) == send(n - 1) || (|First(s)| == HALF && n == 2 && Result(s, send) == 0))
            && ((forall k :: 0 <= k < n ==> send(k) == 0) ==> Result(s, send) == 0)
  {
    MessageCount(s);
    NoneTwice(s);
    LastOf(|First(s)|, |Second(s)|, |Messages(s, true)|, Result(s, send), send);
  }

  lemma LastOf(first: nat, second: nat, n: nat, result: int, send: nat -> int)
    requires n == 1 + (if first == 0 then 0 else 1) + (if second == 0 then 0 else 1)
    requires first <= HALF && (first < HALF ==> second == 0)
    requires result == if first < HALF then send(if first == 0 then 0 else 1) else if second == 0 then 0 else send(2)
    ensures result == send(n - 1) || (first == HALF && n == 2 && result == 0)
    ensures (forall k :: 0 <= k < n ==> send(k) == 0) ==> result == 0
  {
  }

  lemma MessageCount(s: Setup)
    requires Shaped(s)
    ensures |Messages(s, true)| == 1 + (if First(s) == [] then 0 else 1) + (if Second(s) == [] then 0 else 1)
  {
  }

  lemma NoneTwice(s: Setup)
    requires Shaped(s)
    ensures |First(s)| < HALF ==> Second(s) == []
    ensures |First(s)| == HALF ==> First(s) != []
  {
  }

  /** A result of zero means that every message with rules was accepted. */
  predicate Honest(s: Setup, send: nat -> int)
    requires Shaped(s)
  {
    Result(s, send) == 0 ==> forall k :: 1 <= k < |Messages(s, true)| ==> send(k) == 0
  }

  /** That holds whatever the transmissions return if and only if the first message is not full. */
  lemma {:induction false} HonestExact(s: Setup)
    requires Shaped(s)
    ensures (forall send: nat -> int :: Honest(s, send)) <==> |First(s)| < HALF
  {
    if |First(s)| == HALF {
      var send := (k: nat) => if k == 1 then -1 else 0;
      assert send(1) != 0;
      assert !Honest(s, send);
    }
  }

  /** Packets for the first `n` indices. */
  function Packets(n: nat): seq<Request> {
    if n == 0 then [] else Packets(n - 1) + [Request(n - 1, true, 1000, 10)]
  }

  predicate FirstOnly(s: Setup, n: nat) {
    Short(s) && forall i :: 0 <= i < RULES ==> (s.bits[i] <==> i < n) && (s.sizes[i].Some? <==> i < n)
  }

  lemma {:induction false} PacketsHold(n: nat)
    requires n <= RULES
    ensures FirstOnly(Run(EMPTY, Packets(n)), n)
  {
    if n > 0 {
      PacketsHold(n - 1);
      var qs := Packets(n);
      assert qs[..|qs| - 1] == Packets(n - 1) && qs[|qs| - 1] == Request(n - 1, true, 1000, 10);
    }
  }

  lemma {:induction false} OnesBelow(bits: seq<bool>, k: nat, n: nat)
    requires k <= n <= |bits| && forall i :: 0 <= i < |bits| ==> (bits[i] <==> i < n)
    ensures |Ones(bits, k)| == n - k
    decreases |bits| - k
  {
    if k < n {
      OnesBelow(bits, k + 1, n);
    } else if k < |bits| {
      OnesEnd(bits, k);
    }
  }

  lemma {:induction false} OnesEnd(bits: seq<bool>, k: nat)
    requires k <= |bits| && forall i :: k <= i < |bits| ==> !bits[i]
    ensures Ones(bits, k) == []
    decreases |bits| - k
  {
    if k < |bits| {
      OnesEnd(bits, k + 1);
    }
  }

  /** Nine rules and a first message that is refused: the sender returns zero, and no rule has arrived. */
  lemma NineUntold(n: nat, send: nat -> int)
    requires n == HALF && send(1) != 0
    ensures var s := Run(EMPTY, Packets(n));
            && |Ones(s.bits, 0)| == n && Messages(s, true) == [Disable, Enable(Ones(s.bits, 0))]
            && Result(s, send) == 0 && !Honest(s, send)
  {
    var s := Run(EMPTY, Packets(n));
    PacketsHold(n);
    OnesBelow(s.bits, 0, n);
    JustFull(s);
    RefusedUntold(s, send);
  }

  /** Nine stored rules fill the first message and leave nothing for a second. */
  lemma JustFull(s: Setup)
    requires Short(s) && |Ones(s.bits, 0)| == HALF && Stored(Ones(s.bits, 0), s.sizes)
    ensures First(s) == Ones(s.bits, 0) && Second(s) == []
  {
    BytesBound(Ones(s.bits, 0), s.sizes);
    FittingAll(Ones(s.bits, 0), s.sizes, BUFFER, HALF);
  }

  lemma RefusedUntold(s: Setup, send: nat -> int)
    requires Shaped(s) && |First(s)| == HALF && Second(s) == [] && send(1) != 0
    ensures Messages(s, true) == [Disable, Enable(First(s))] && Result(s, send) == 0 && !Honest(s, send)
  {
  }

  lemma {:induction false} OnesLowest(bits: seq<bool>, k: nat)
    requires k <= |bits|
    ensures var i := Lowest(bits, k);
            Ones(bits, k) == if i == |bits| then [] else [i] + Ones(bits[i := false], k)
    decreases |bits| - k
  {
    if k < |bits| {
      if bits[k] {
        OnesAfter(bits, bits[k := false], k + 1);
      } else {
        OnesLowest(bits, k + 1);
      }
    }
  }

  lemma {:induction false} OnesAfter(a: seq<bool>, b: seq<bool>, k: nat)
    requires |a| == |b| && k <= |a| && a[k..] == b[k..]
    ensures Ones(a, k) == Ones(b, k)
    decreases |a| - k
  {
    if k < |a| {
      assert a[k] == a[k..][0] == b[k..][0] == b[k];
      assert a[k + 1..] == a[k..][1..] == b[k + 1..];
      OnesAfter(a, b, k + 1);
    }
  }

  /** What has been copied and what still fits are all that fits. */
  predicate Copying(all: seq<nat>, sizes: seq<Option<nat>>, limit: nat, rules: seq<nat>, rest: seq<nat>, used: nat) {
    && Within(all, |sizes|) && Within(rest, |sizes|) && all == rules + rest && |rules| <= limit && used <= BUFFER
    && Fitting(all, sizes, BUFFER, limit) == rules + Fitting(rest, sizes, BUFFER - used, limit - |rules|)
  }

  lemma CopyOne(all: seq<nat>, sizes: seq<Option<nat>>, limit: nat, rules: seq<nat>, i: nat, rest: seq<nat>,
                used: nat)
    requires Copying(all, sizes, limit, rules, [i] + rest, used) && |rules| < limit
    ensures i < |sizes|
    ensures sizes[i].None? || used + sizes[i].value > BUFFER ==> Fitting(all, sizes, BUFFER, limit) == rules
    ensures sizes[i].Some? && used + sizes[i].value <= BUFFER ==>
              Copying(all, sizes, limit, rules + [i], rest, used + sizes[i].value)
  {
    assert ([i] + rest)[0] == i && ([i] + rest)[1..] == rest;
    assert rules + ([i] + rest) == rules + [i] + rest;
    if sizes[i].Some? && used + sizes[i].value <= BUFFER {
      var more := Fitting(rest, sizes, BUFFER - used - sizes[i].value, limit - |rules| - 1);
      assert rules + ([i] + more) == rules + [i] + more;
    }
  }

  /** Copies the enabled rules into a message, lowest index first. */
  method Fill(bits: seq<bool>, sizes: seq<Option<nat>>, limit: nat) returns (rules: seq<nat>, left: seq<bool>)
    requires |bits| == |sizes| && 0 < limit
    ensures rules == Fitting(Ones(bits, 0), sizes, BUFFER, limit)
    ensures |rules| == limit ==> |left| == |bits| && Ones(left, 0) == Ones(bits, 0)[limit..]
  {
    rules, left := [], bits;
    var used: nat := 0;
    while Lowest(left, 0) < |left|
      invariant |left| == |bits| && |rules| < limit
      invariant Copying(Ones(bits, 0), sizes, limit, rules, Ones(left, 0), used)
      decreases |Ones(left, 0)|
    {
      var i := Lowest(left, 0);
      OnesLowest(left, 0);
      CopyOne(Ones(bits, 0), sizes, limit, rules, i, Ones(left[i := false], 0), used);
      left := left[i := false];
      if sizes[i].None? || used + sizes[i].value > BUFFER {
        return;
      }
      used, rules := used + sizes[i].value, rules + [i];
      if |rules| >= limit {
        return;
      }
    }
    OnesLowest(left, 0);
  }

  class KeepSet {
    var bits: seq<bool>
    var sizes: seq<Option<nat>>

    ghost function View(): Setup
      reads this
    {
      Setup(bits, sizes)
    }

    ghost predicate Valid()
      reads this
    {
      Short(View())
    }

    constructor ()
      ensures Valid() && View() == EMPTY
    {
      bits, sizes := seq(RULES, _ => false), seq(RULES, _ => None);
    }

    method Save(rule: Option<nat>, idx: nat, enable: bool) returns (ret: int)
      requires Valid() && (rule.Some? ==> rule.value <= MAX_SIZE)
      modifies this
      ensures Valid() && ret == if idx < RULES then 0 else EFAULT
      ensures ret != 0 ==> View() == old(View())
      ensures ret == 0 ==> View() == Saved(old(View()), rule, idx, enable)
    {
      if idx >= RULES {
        return EFAULT;
      }
      if rule.Some? {
        sizes := sizes[idx := rule];
      }
      bits := bits[idx := enable];
      ret := 0;
    }

    /** The rules left over, in one more message. */
    method AppendRules(left: seq<bool>, memory: bool, sent: int) returns (msgs: seq<Message>, ret: int)
      requires Valid() && |left| == RULES
      ensures !memory ==> msgs == [] && ret == ENOMEM
      ensures memory ==>
                var more := Fitting(Ones(left, 0), sizes, BUFFER, HALF + 1);
                msgs == (if more == [] then [] else [Append(more)]) && ret == if more == [] then 0 else sent
    {
      if !memory {
        return [], ENOMEM;
      }
      var more, _ := Fill(left, sizes, HALF + 1);
      if more == [] {
        return [], 0;
      }
      return [Append(more)], sent;
    }

    /** The first message, after everything has been switched off. */
    method EnableRules(send: nat -> int) returns (msgs: seq<Message>, left: seq<bool>, full: bool, ret: int)
      requires Valid()
      ensures msgs == [Disable] + (if First(View()) == [] then [] else [Enable(First(View()))])
      ensures ret == send(|msgs| - 1) && full == (|First(View())| == HALF)
      ensures full ==> |left| == RULES && Ones(left, 0) == Ones(bits, 0)[HALF..]
    {
      var rules;
      rules, left := Fill(bits, sizes, HALF);
      msgs, ret, full := [Disable], send(0), |rules| >= HALF;
      if rules != [] {
        msgs, ret := msgs + [Enable(rules)], send(1);
      }
    }

    /** Sends all enabled rules in at most two messages; `send` is what each transmission returns. */
    method SendRules(memory: nat -> bool, send: nat -> int) returns (msgs: seq<Message>, ret: int)
      requires Valid()
      ensures !memory(0) ==> msgs == [] && ret == ENOMEM
      ensures memory(0) ==> msgs == Messages(View(), memory(1))
      ensures memory(0) && memory(1) ==> CarriesAll(View(), msgs)
      ensures memory(0) ==> ret == if |First(View())| < HALF || memory(1) then Result(View(), send) else ENOMEM
    {
      msgs, ret := [], ENOMEM;
      if !memory(0) {
        return;
      }
      ShortCarries(View());
      var left, full;
      msgs, left, full, ret := EnableRules(send);
      if full {
        var more;
        more, ret := AppendRules(left, memory(1), send(2));
        msgs := msgs + more;
      }
    }

    /** A request; all enabled rules go out again exactly if a packet is stored for each. */
    method Set(q: Request, memory: nat -> bool, send: nat -> int) returns (msgs: seq<Message>, ret: int)
      requires Valid()
      modifies this
      ensures Valid() && View() == Requested(old(View()), q)
      ensures Refused(q) ==> msgs == [] && ret < 0
      ensures !Refused(q) && !memory(0) ==> msgs == [] && ret == ENOMEM
      ensures !Refused(q) && memory(0) ==> msgs == Messages(View(), memory(1))
      ensures !Refused(q) && memory(0) && memory(1) ==> CarriesAll(View(), msgs)
    {
      msgs, ret := [], ENOSPC;
      if q.packet + HEADERS > MAX_SIZE {
        return;
      }
      ret := Save(if q.interval != 0 && q.packet > 0 then Some(HEADERS + q.packet) else None, q.idx, q.enable);
      if ret == 0 {
        msgs, ret := SendRules(memory, send);
      }
    }
  }
}
