/**
 The channel that hands empty receive buffers to the hardware: 24 nodes of 32 addresses of 8
 bytes. Addresses are posted one by one; a node that cannot take another one is closed.
 */
module EdmaRefill {
  import opened Basics

  const ADDR: nat := 8
  const PER_NODE: nat := 32
  const NODES: nat := 24
  const NODE_LEN: nat := 256
  const TOTAL: nat := 768

  /**
   `words` are the node buffers one after the other, `lens` the lengths in the headers. `node` and
   `used` are the current node and its fill in bytes; `closed` counts the nodes closed since the
   last submission, `free` those not in flight. `queue` holds the buffers posted and not returned,
   `avail` is the driver's counter for them, `sent` counts the nodes given to the hardware.
   */
  datatype Chan = Chan(words: seq<nat>, lens: seq<nat>, node: nat, used: nat, closed: nat, free: int,
                       queue: seq<nat>, avail: int, sent: nat)

  predicate Wf(c: Chan) {
    && |c.words| == TOTAL && |c.lens| == NODES && c.node < NODES
    && c.used < NODE_LEN && c.used % ADDR == 0
  }

  /** Where the next address goes. */
  function Pos(c: Chan): nat {
    c.node * PER_NODE + c.used / ADDR
  }

  function NextNode(c: Chan): Chan {
    c.(node := if c.node == NODES - 1 then 0 else c.node + 1, used := 0, closed := c.closed + 1, free := c.free - 1)
  }

  /** Posts one address; Dafny checks that the write stays inside the current node's buffer. */
  function SetData(c: Chan, x: nat): (r: Chan)
    requires Wf(c)
    ensures Wf(r)
  {
    assert c.used + ADDR <= NODE_LEN;
    var p := c.(words := c.words[Pos(c) := x], used := c.used + ADDR, lens := c.lens[c.node := c.used + ADDR]);
    if p.used + ADDR > NODE_LEN then NextNode(p) else p
  }

  /** Posts a buffer and remembers it. */
  function Post(c: Chan, x: nat): Chan
    requires Wf(c)
  {
    var p := SetData(c, x);
    p.(queue := c.queue + [x])
  }

  function PostAll(c: Chan, xs: seq<nat>): (r: Chan)
    requires Wf(c)
    ensures Wf(r)
    decreases |xs|
  {
    if xs == [] then c else PostAll(Post(c, xs[0]), xs[1..])
  }

  /** Where the `k`-th posted address went. */
  function Place(c: Chan, k: nat): nat {
    (Pos(c) + k) % TOTAL
  }

  lemma PostPlace(c: Chan, x: nat)
    requires Wf(c)
    ensures var p := Post(c, x);
            && Pos(p) == Place(c, 1)
            && p.closed == c.closed + (c.used / ADDR + 1) / PER_NODE
            && p.free == c.free - (c.used / ADDR + 1) / PER_NODE
            && p.used / ADDR == (c.used / ADDR + 1) % PER_NODE
            && p.queue == c.queue + [x] && p.avail == c.avail && p.sent == c.sent
            && p.words == c.words[Pos(c) := x]
  {
  }

  /** The header of the current node announces its fill, also when this closes the node. */
  lemma PostAnnounces(c: Chan, x: nat)
    requires Wf(c)
    ensures Post(c, x).lens == c.lens[c.node := 8 * (Pos(c) % 32) + 8]
  {
  }

  lemma PlaceMore(a: nat, n: nat)
    ensures ((a + 1) % TOTAL + n) % TOTAL == (a + n + 1) % TOTAL
  {
  }

  /** How far around the ring place `i` lies from position `a`. */
  function Ahead(i: nat, a: nat): nat
    requires i < TOTAL && a < TOTAL
  {
    if a <= i then i - a else i + TOTAL - a
  }

  /** From any fill: how many nodes `xs` closes, and where the channel then stands. */
  lemma {:induction false} PostAllMoves(c: Chan, xs: seq<nat>)
    requires Wf(c)
    ensures var r := PostAll(c, xs);
            && r.closed == c.closed + (c.used / ADDR + |xs|) / PER_NODE
            && r.free == c.free - (c.used / ADDR + |xs|) / PER_NODE
            && r.used / ADDR == (c.used / ADDR + |xs|) % PER_NODE
            && r.queue == c.queue + xs && r.avail == c.avail && r.sent == c.sent
    decreases |xs|
  {
    if xs != [] {
      PostPlace(c, xs[0]);
      PostAllMoves(Post(c, xs[0]), xs[1..]);
      assert c.queue + [xs[0]] + xs[1..] == c.queue + xs;
    }
  }

  lemma {:induction false} PostAllPlace(c: Chan, xs: seq<nat>)
    requires Wf(c)
    ensures Pos(PostAll(c, xs)) == Place(c, |xs|)
    decreases |xs|
  {
    if xs != [] {
      PostPlace(c, xs[0]);
      PostAllPlace(Post(c, xs[0]), xs[1..]);
      PlaceMore(Pos(c), |xs| - 1);
    }
  }

  /** The addresses stand one after the other in the node buffers, and nothing else is written. */
  lemma {:induction false} PostAllWrites(c: Chan, xs: seq<nat>, i: nat)
    requires Wf(c) && |xs| <= TOTAL && i < TOTAL
    ensures var k := Ahead(i, Pos(c));
            PostAll(c, xs).words[i] == if k < |xs| then xs[k] else c.words[i]
    decreases |xs|
  {
    if xs != [] {
      PostPlace(c, xs[0]);
      var p := Post(c, xs[0]);
      assert Pos(p) == if Pos(c) == TOTAL - 1 then 0 else Pos(c) + 1;
      PostAllWrites(p, xs[1..], i);
      assert p.words[i] == if i == Pos(c) then xs[0] else c.words[i];
    }
  }

  /** The node `d` places before `n`. */
  function Back(n: nat, d: nat): nat
    requires n < NODES && d <= NODES
  {
    if d <= n then n - d else n + NODES - d
  }

  /** The headers of the last `m` nodes announce full nodes. */
  predicate Sealed(c: Chan, m: nat)
    requires Wf(c)
  {
    m <= NODES && forall d :: 1 <= d <= m ==> c.lens[Back(c.node, d)] == NODE_LEN
  }

  lemma PostSeals(c: Chan, x: nat, m: nat)
    requires Wf(c) && Sealed(c, m) && m < NODES
    ensures Sealed(Post(c, x), m + (c.used / ADDR + 1) / PER_NODE)
  {
    var p := Post(c, x);
    if c.used / ADDR + 1 == PER_NODE {
      assert p.node == if c.node == NODES - 1 then 0 else c.node + 1;
      forall d | 1 <= d <= m + 1 ensures p.lens[Back(p.node, d)] == NODE_LEN {
        if d > 1 {
          assert Back(p.node, d) == Back(c.node, d - 1);
        }
      }
    }
  }

  /** The nodes that posting closes are full ones, as long as it does not lap the ring. */
  lemma {:induction false} PostAllSeals(c: Chan, xs: seq<nat>, m: nat)
    requires Wf(c) && Sealed(c, m) && m * PER_NODE + c.used / ADDR + |xs| <= TOTAL
    ensures Sealed(PostAll(c, xs), m + (c.used / ADDR + |xs|) / PER_NODE)
    decreases |xs|
  {
    if xs != [] {
      PostSeals(c, xs[0], m);
      PostPlace(c, xs[0]);
      PostAllSeals(Post(c, xs[0]), xs[1..], m + (c.used / ADDR + 1) / PER_NODE);
    }
  }

  /* ---- Allocation and refill ---- */

  function Min(a: int, b: nat): nat {
    if a < 0 then 0 else if a < b then a else b
  }

  /** Allocates and posts `num` buffers; `got` are those that memory yields. False if it runs out. */
  function AllocSkb(c: Chan, num: int, got: seq<nat>, submit: bool): (Chan, bool)
    requires Wf(c)
  {
    var p := PostAll(c.(closed := 0), got[..Min(num, |got|)]);
    if |got| < num then (p, false)
    else if submit then (p.(sent := p.sent + p.closed, avail := p.avail + num, closed := 0), true)
    else (p.(closed := 0), true)
  }

  /**
   How many buffers a refill asks for, in the driver's arithmetic: a 16-bit counter, a 32-bit
   difference, a signed argument.
   */
  function Wanted(avail: int): Option<int> {
    var d := (TOTAL - avail % 0x1_0000) % 0x1_0000_0000;
    if d < PER_NODE then None
    else
      var n := d / PER_NODE * PER_NODE;
      Some(if n >= 0x8000_0000 then n - 0x1_0000_0000 else n)
  }

  function Refill(c: Chan, enabled: bool, got: seq<nat>, submit: bool): Chan
    requires Wf(c)
  {
    if Wanted(c.avail).Some? && enabled then AllocSkb(c, Wanted(c.avail).value, got, submit).0 else c
  }

  /**
   A refill leaves the counter between 737 and 768, exactly if it was a 16-bit number; it asks for
   nothing in that range.
   */
  lemma WantedExact(avail: int)
    ensures Wanted(avail).None? <==> TOTAL - PER_NODE < avail % 0x1_0000 <= TOTAL
    ensures Wanted(avail).Some? ==>
              var n := Wanted(avail).value;
              && n % PER_NODE == 0
              && (n > 0 <==> avail % 0x1_0000 <= TOTAL - PER_NODE) && (n < 0 <==> avail % 0x1_0000 > TOTAL)
              && (TOTAL - PER_NODE < avail + n <= TOTAL <==> 0 <= avail < 0x1_0000)
  {
  }

  /** The counter says what is posted. */
  predicate Counted(c: Chan) {
    c.avail == |c.queue|
  }

  /** From an empty node, a multiple of 32 buffers closes that many full nodes and leaves the next one empty. */
  lemma AllocExact(c: Chan, num: nat, got: seq<nat>)
    requires Wf(c) && c.used == 0 && num % PER_NODE == 0 && num <= TOTAL && |got| >= num
    ensures var (r, ok) := AllocSkb(c, num, got, true);
            && ok && Wf(r) && r.used == 0
            && r.sent == c.sent + num / PER_NODE && r.free == c.free - num / PER_NODE
            && Sealed(r, num / PER_NODE)
            && r.queue == c.queue + got[..num] && r.avail == c.avail + num
            && forall i :: 0 <= i < TOTAL ==>
                r.words[i] == var k := Ahead(i, Pos(c)); if k < num then got[k] else c.words[i]
  {
    var s := c.(closed := 0);
    var xs := got[..num];
    PostAllMoves(s, xs);
    PostAllSeals(s, xs, 0);
    forall i | 0 <= i < TOTAL ensures PostAll(s, xs).words[i]
        == var k := Ahead(i, Pos(c)); if k < num then got[k] else c.words[i] {
      PostAllWrites(s, xs, i);
    }
  }

  /**
   Refilling keeps the counter right, at most 768 and the current node empty, and tops it up to the
   last whole node.
   */
  lemma RefillExact(c: Chan, got: seq<nat>)
    requires Wf(c) && c.used == 0 && Counted(c) && c.avail <= TOTAL && |got| >= TOTAL
    ensures var r := Refill(c, true, got, true);
            && Wf(r) && r.used == 0 && Counted(r)
            && TOTAL - PER_NODE < r.avail <= TOTAL
            && c.queue <= r.queue && r.sent == c.sent + (r.avail - c.avail) / PER_NODE
  {
    WantedExact(c.avail);
    match Wanted(c.avail)
    case Some(n) => AllocExact(c, n, got);
    case None =>
  }

  /** When a call of the allocator keeps the counter right. */
  lemma AllocCounted(c: Chan, num: int, got: seq<nat>, submit: bool)
    requires Wf(c) && Counted(c)
    ensures Counted(AllocSkb(c, num, got, submit).0) <==>
              if num <= 0 then num == 0 || !submit else if |got| < num then |got| == 0 else submit
  {
    PostAllMoves(c.(closed := 0), got[..Min(num, |got|)]);
  }

  /**
   From any fill, an allocation succeeds exactly if memory yields all that is asked for. The nodes
   that it closes are submitted if it does, and otherwise remembered; buffers posted stay posted.
   */
  lemma AllocFlag(c: Chan, num: int, got: seq<nat>, submit: bool)
    requires Wf(c)
    ensures var (r, ok) := AllocSkb(c, num, got, submit);
            var n := Min(num, |got|);
            var nodes := (c.used / ADDR + n) / PER_NODE;
            && (ok <==> num <= |got|)
            && r.queue == c.queue + got[..n] && r.used / ADDR == (c.used / ADDR + n) % PER_NODE
            && r.closed == (if ok then 0 else nodes)
            && r.sent == c.sent + (if ok && submit then nodes else 0)
            && r.avail == c.avail + (if ok && submit then num else 0)
  {
    PostAllMoves(c.(closed := 0), got[..Min(num, |got|)]);
  }

  /** With memory and submissions, a refill keeps the counter right exactly if it did not exceed 768. */
  lemma RefillCounted(c: Chan, got: seq<nat>)
    requires Wf(c) && Counted(c) && |got| >= TOTAL && c.avail < 0x1_0000
    ensures Counted(Refill(c, true, got, true)) <==> c.avail <= TOTAL
  {
    WantedExact(c.avail);
    match Wanted(c.avail)
    case Some(n) => AllocCounted(c, n, got, true);
    case None =>
  }

  /** Whatever fails, a refill does not take the counter above 768. */
  lemma RefillNeverOver(c: Chan, enabled: bool, got: seq<nat>, submit: bool)
    requires Wf(c) && c.avail <= TOTAL
    ensures Refill(c, enabled, got, submit).avail <= TOTAL
  {
    WantedExact(c.avail);
    if Wanted(c.avail).Some? {
      PostAllMoves(c.(closed := 0), got[..Min(Wanted(c.avail).value, |got|)]);
    }
  }

  /** A refill takes buffers exactly if it is enabled, memory yields one and a whole node is missing. */
  lemma RefillTakes(c: Chan, enabled: bool, got: seq<nat>, submit: bool)
    requires Wf(c) && 0 <= c.avail < 0x1_0000
    ensures var r := Refill(c, enabled, got, submit);
            && c.queue <= r.queue
            && (c.queue != r.queue <==> enabled && got != [] && c.avail + PER_NODE <= TOTAL)
            && (!enabled ==> r == c)
  {
    WantedExact(c.avail);
    if Wanted(c.avail).Some? {
      PostAllMoves(c.(closed := 0), got[..Min(Wanted(c.avail).value, |got|)]);
    }
  }

  /** Opening the data channels posts 768 buffers whatever is still out. */
  function Open(c: Chan, got: seq<nat>): Chan
    requires Wf(c)
  {
    AllocSkb(c, TOTAL, got, true).0
  }

  /**
   Opening again with buffers still out pushes the counter over 768; the refill after that forgets
   buffers it never frees.
   */
  lemma ReopenOverfills(c: Chan, got: seq<nat>, more: seq<nat>)
    requires Wf(c) && c.used == 0 && Counted(c) && 0 < c.avail <= TOTAL && |got| >= TOTAL && |more| >= TOTAL
    ensures var o := Open(c, got);
            var r := Refill(o, true, more, true);
            && Wf(o) && Counted(o) && o.avail > TOTAL
            && r.queue == o.queue && r.avail <= TOTAL < |r.queue|
  {
    AllocExact(c, TOTAL, got);
    var o := Open(c, got);
    WantedExact(o.avail);
    PostAllMoves(o.(closed := 0), []);
  }

  /* ---- Runs ---- */

  function Remove(q: seq<nat>, x: nat): seq<nat> {
    if q == [] then [] else if q[0] == x then q[1..] else [q[0]] + Remove(q[1..], x)
  }

  lemma {:induction false} RemoveOne(q: seq<nat>, x: nat)
    ensures |Remove(q, x)| == if x in q then |q| - 1 else |q|
    ensures multiset(Remove(q, x)) == multiset(q) - multiset{x}
  {
    if q != [] {
      assert q == [q[0]] + q[1..];
      if q[0] != x {
        RemoveOne(q[1..], x);
      }
    }
  }

  /** The hardware returns a filled buffer; an address that is not out is ignored. */
  function Return(c: Chan, x: nat): Chan {
    if x in c.queue then c.(queue := Remove(c.queue, x), avail := c.avail - 1) else c
  }

  /** A buffer that was out comes back once and is counted; any other address changes nothing. */
  lemma ReturnExact(c: Chan, x: nat)
    ensures var r := Return(c, x);
            && multiset(r.queue) == multiset(c.queue) - multiset{x}
            && r.avail == (if x in c.queue then c.avail - 1 else c.avail)
            && r == c.(queue := r.queue, avail := r.avail)
  {
    RemoveOne(c.queue, x);
  }

  datatype Event = Refilled(got: seq<nat>) | Returned(x: nat)

  function Step(c: Chan, e: Event): Chan
    requires Wf(c)
  {
    match e
    case Refilled(got) => Refill(c, true, got, true)
    case Returned(x) => Return(c, x)
  }

  /** The current node is empty and the counter is right and within bounds. */
  predicate Steady(c: Chan) {
    Wf(c) && c.used == 0 && Counted(c) && c.avail <= TOTAL
  }

  predicate Ample(e: Event) {
    e.Refilled? ==> |e.got| >= TOTAL
  }

  lemma StepSteady(c: Chan, e: Event)
    requires Steady(c) && Ample(e)
    ensures Steady(Step(c, e))
  {
    match e
    case Refilled(got) => RefillExact(c, got);
    case Returned(x) => RemoveOne(c.queue, x);
  }

  function Run(c: Chan, evs: seq<Event>): (r: Chan)
    requires Steady(c) && forall i :: 0 <= i < |evs| ==> Ample(evs[i])
    ensures Steady(r)
    decreases |evs|
  {
    if evs == [] then c
    else
      StepSteady(c, evs[0]);
      Run(Step(c, evs[0]), evs[1..])
  }

  function Idle(): Chan {
    Chan(seq(TOTAL, _ => 0), seq(NODES, _ => 0), 0, 0, 0, NODES, [], 0, 0)
  }

  /**
   Opened once, then refilled and emptied in any order: whole nodes only, a right counter, never
   more than 768 out.
   */
  lemma OpenRunSteady(got: seq<nat>, evs: seq<Event>)
    requires |got| >= TOTAL && forall i :: 0 <= i < |evs| ==> Ample(evs[i])
    ensures Steady(Open(Idle(), got)) && Open(Idle(), got).avail == TOTAL && Steady(Run(Open(Idle(), got), evs))
  {
    AllocExact(Idle(), TOTAL, got);
  }

  /* ---- The channel as the driver keeps it ---- */

  class RefillChannel {
    const words: array<nat>
    const lens: array<nat>
    var node: nat
    var used: nat
    var closed: nat
    var free: int
    var queue: seq<nat>
    var avail: int
    ghost var sent: nat

    ghost function View(): Chan
      reads this, words, lens
    {
      Chan(words[..], lens[..], node, used, closed, free, queue, avail, sent)
    }

    constructor ()
      ensures fresh(words) && fresh(lens) && View() == Idle()
    {
      words := new nat[TOTAL](_ => 0);
      lens := new nat[NODES](_ => 0);
      node, used, closed, free, queue, avail := 0, 0, 0, NODES, [], 0;
      sent := 0;
    }

    method PutData(x: nat)
      requires Wf(View())
      modifies this, words, lens
      ensures View() == SetData(old(View()), x)
    {
      words[node * PER_NODE + used / ADDR] := x;
      used := used + ADDR;
      lens[node] := used;
      if used + ADDR > NODE_LEN {
        TakeNextNode();
      }
    }

    method TakeNextNode()
      modifies this
      ensures View() == NextNode(old(View()))
    {
      if node == NODES - 1 {
        node := 0;
      } else {
        node := node + 1;
      }
      used, closed, free := 0, closed + 1, free - 1;
    }

    method Allocate(num: int, got: seq<nat>, submit: bool) returns (ok: bool)
      requires Wf(View())
      modifies this, words, lens
      ensures (View(), ok) == AllocSkb(old(View()), num, got, submit)
    {
      closed := 0;
      ghost var start := View();
      var i := 0;
      ghost var all := got[..Min(num, |got|)];
      while i < num && i < |got|
        invariant 0 <= i <= |all| && Wf(View())
        invariant PostAll(View(), all[i..]) == PostAll(start, all)
        decreases num - i
      {
        assert all[i..][0] == got[i] && all[i..][1..] == all[i + 1..];
        PutData(got[i]);
        queue := queue + [got[i]];
        i := i + 1;
      }
      assert all[i..] == [];
      if i < num {
        return false;
      }
      if submit {
        sent := sent + closed;
        avail := avail + num;
      }
      closed := 0;
      return true;
    }

    method RefillSkbs(enabled: bool, got: seq<nat>, submit: bool)
      requires Wf(View())
      modifies this, words, lens
      ensures View() == Refill(old(View()), enabled, got, submit)
    {
      var a := avail % 0x1_0000;
      var d := (TOTAL - a) % 0x1_0000_0000;
      if d >= PER_NODE && enabled {
        var n := d / PER_NODE * PER_NODE;
        var _ := Allocate(if n >= 0x8000_0000 then n - 0x1_0000_0000 else n, got, submit);
      }
    }
  }
}
