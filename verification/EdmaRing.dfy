/**
 A receive ring of the EDMA engine. The headers lie in a page-rounded area filled with 0x6a; the
 poll loop walks them with a pointer that does not wrap, while `tail` and the current node do.
 Between any two iterations the hardware may complete headers of the nodes that it owns.
 */
module EdmaRing {
  import opened Basics

  const HDR_SIZE: nat := 16
  const PAGE: nat := 4096
  const FILL: nat := 0x6a

  /* ---- The header area ---- */

  function PageAlign(n: nat): nat {
    (n + PAGE - 1) / PAGE * PAGE
  }

  /** The area as it is allocated for a ring of `max` headers. */
  function FreshArea(max: nat): seq<nat> {
    seq(PageAlign(max * HDR_SIZE), _ => FILL)
  }

  /** The done flag is the top bit of the eighth byte of a header. */
  predicate DoneBit(area: seq<nat>, i: nat)
    requires HDR_SIZE * i + HDR_SIZE <= |area|
  {
    area[HDR_SIZE * i + 7] / 128 % 2 == 1
  }

  /** The length field is the last two bytes of a header. */
  function LenField(area: seq<nat>, i: nat): nat
    requires HDR_SIZE * i + HDR_SIZE <= |area|
  {
    area[HDR_SIZE * i + 14] + 256 * area[HDR_SIZE * i + 15]
  }

  /** Whether there is a header behind the ring: exactly when the ring does not fill its pages. */
  lemma AreaExceedsRing(max: nat)
    requires max > 0
    ensures HDR_SIZE * max + HDR_SIZE <= |FreshArea(max)| <==> max % 256 != 0
    ensures forall i: nat :: HDR_SIZE * i + HDR_SIZE <= |FreshArea(max)| ==> !DoneBit(FreshArea(max), i)
  {
    assert max == 256 * (max / 256) + max % 256;
  }

  /** A header is a little-endian number of 128 bits: bit 63 is the done flag, the top 16 bits are the length. */
  lemma HeaderLayout(area: seq<nat>, i: nat)
    requires HDR_SIZE * i + HDR_SIZE <= |area| && forall k :: 0 <= k < |area| ==> area[k] < 256
    ensures var low, high := Word(area, 16 * i), Word(area, 16 * i + 8);
            (DoneBit(area, i) <==> low / 0x8000_0000_0000_0000 == 1) && LenField(area, i) == high / 0x1_0000_0000_0000
  {
  }

  /** Eight bytes, the lowest first. */
  function Word(area: seq<nat>, k: nat): nat
    requires k + 8 <= |area|
  {
    area[k] + 0x100 * area[k + 1] + 0x1_0000 * area[k + 2] + 0x100_0000 * area[k + 3]
    + 0x1_0000_0000 * area[k + 4] + 0x100_0000_0000 * area[k + 5]
    + 0x1_0000_0000_0000 * area[k + 6] + 0x100_0000_0000_0000 * area[k + 7]
  }

  /** What the fill pattern reads as: not done, and a length that no packet has. */
  lemma FreshHeader(max: nat, i: nat)
    requires max > 0 && i < Room(max)
    ensures FirstHdr(max, i) == Hdr(false, 0x6a6a, i)
  {
    AreaExceedsRing(max);
  }

  /* ---- State ---- */

  datatype Hdr = Hdr(done: bool, len: nat, addr: nat)

  /** Where a node is: with the hardware, consumed and waiting to be given back, or lost by a failed submission. */
  datatype Place = Owned | Waiting | Lost

  /**
   `bufs` are the buffers of the nodes in list order, `rx` counts the consumed nodes that are not
   yet given back and `place` says where each node is. `log` and `handed` record the headers
   consumed and the buffers passed up.
   */
  datatype Ring = Ring(max: nat, filter: bool, hdrs: seq<Hdr>, bufs: seq<nat>, tail: nat, node: nat, rx: nat,
                       place: seq<Place>, next: nat, log: seq<nat>, handed: seq<nat>, locked: bool)

  /** During one iteration: completed headers with their lengths, and the outcomes of calls. */
  datatype Env = Env(arrivals: map<nat, nat>, alloc: bool, submit: bool)

  function At(envs: seq<Env>, t: nat): Env {
    if t < |envs| then envs[t] else Env(map[], true, true)
  }

  /** The waiting nodes are submitted to the hardware. */
  function Return(place: seq<Place>, ok: bool): (r: seq<Place>)
    ensures |r| == |place|
  {
    seq(|place|, i requires 0 <= i < |place| => if place[i] != Waiting then place[i] else if ok then Owned else Lost)
  }

  /** How many headers the area has room for. */
  function Room(max: nat): (n: nat)
    ensures n * HDR_SIZE == |FreshArea(max)|
  {
    PageAlign(max * HDR_SIZE) / HDR_SIZE
  }

  /** Header `i` of a new ring: the fill pattern, with the address of its own node's buffer. */
  function FirstHdr(max: nat, i: nat): Hdr
    requires i < Room(max)
  {
    var area := FreshArea(max);
    Hdr(DoneBit(area, i), LenField(area, i), i)
  }

  function Created(max: nat, filter: bool, submitted: bool): Ring
    requires max > 0
  {
    Ring(max, filter, seq(Room(max), i requires 0 <= i < Room(max) => FirstHdr(max, i)), seq(max, i => i), 0, 0, 0,
         Return(seq(max, _ => Waiting), submitted), max, [], [], false)
  }

  /* ---- Places on the ring ---- */

  /** The place after `i` in a ring of `m`. */
  function Next(i: nat, m: nat): nat {
    if i + 1 == m then 0 else i + 1
  }

  /** The place reached from the first one in `k` steps. */
  function Slot(k: nat, m: nat): nat {
    if k == 0 then 0 else Next(Slot(k - 1, m), m)
  }

  lemma NextModulo(n: nat, m: nat)
    requires m > 0
    ensures (n + 1) % m == Next(n % m, m)
  {
    var q, k := n / m, n % m;
    assert n == m * q + k;
    if k + 1 == m {
      assert m * (q + 1) == m * q + m;
      QuotientUnique(n + 1, m, q + 1, 0);
    } else {
      QuotientUnique(n + 1, m, q, k + 1);
    }
  }

  lemma {:induction false} SlotModulo(k: nat, m: nat)
    requires m > 0
    ensures Slot(k, m) == k % m
  {
    if k > 0 {
      SlotModulo(k - 1, m);
      NextModulo(k - 1, m);
    }
  }

  /** Within one lap, a step further is a place further. */
  lemma {:induction false} SlotAdd(k: nat, d: nat, m: nat)
    requires d <= m && 0 < m
    ensures Slot(k, m) < m
    ensures Slot(k + d, m) == if Slot(k, m) + d < m then Slot(k, m) + d else Slot(k, m) + d - m
    decreases k, d
  {
    if d > 0 {
      SlotAdd(k, d - 1, m);
    } else if k > 0 {
      SlotAdd(k - 1, 0, m);
    }
  }

  /* ---- The poll loop ---- */

  function Land(h: Hdr, i: nat, arrivals: map<nat, nat>): Hdr {
    if i in arrivals then Hdr(true, arrivals[i], h.addr) else h
  }

  /** The hardware owns node `i`. */
  predicate Has(r: Ring, i: nat) {
    i < |r.place| && r.place[i].Owned?
  }

  /** The hardware completes headers that it owns. */
  function Arrive(r: Ring, arrivals: map<nat, nat>): Ring {
    r.(hdrs := seq(|r.hdrs|, i requires 0 <= i < |r.hdrs| =>
         if i < r.max && Has(r, i) then Land(r.hdrs[i], i, arrivals) else r.hdrs[i]))
  }

  function Resubmit(r: Ring, ok: bool): Ring {
    if r.rx != r.max then r else r.(rx := 0, place := Return(r.place, ok))
  }

  /** Header `p` and its buffer are passed up; the node waits to be given back. */
  function PassUp(r: Ring, p: nat): Ring
    requires p < |r.hdrs| && r.max > 0 && p < |r.place|
  {
    r.(tail := Next(r.tail, r.max), rx := r.rx + 1, place := r.place[p := Waiting],
       log := r.log + [p], handed := r.handed + [r.hdrs[p].addr])
  }

  /** A filter ring replaces the buffer that it passed up. */
  function Replace(r: Ring, p: nat): Ring
    requires p < |r.hdrs| && r.node < |r.bufs|
  {
    if r.filter
    then r.(hdrs := r.hdrs[p := r.hdrs[p].(addr := r.next)], bufs := r.bufs[r.node := r.next], next := r.next + 1)
    else r
  }

  function Clear(r: Ring, p: nat): Ring
    requires p < |r.hdrs| && r.max > 0
  {
    r.(hdrs := r.hdrs[p := r.hdrs[p].(done := false)], node := Next(r.node, r.max))
  }

  /** One iteration; without memory for a new buffer it returns with the lock held. */
  function Consume(r: Ring, p: nat, env: Env): (Ring, bool)
    requires p < |r.hdrs| && r.max > 0 && r.node < |r.bufs| && p < |r.place|
  {
    var u := PassUp(r, p);
    if r.filter && !env.alloc then (u.(locked := true), false)
    else (Clear(Resubmit(Replace(u, p), env.submit), p), true)
  }

  predicate Padded(r: Ring) {
    && 0 < r.max < |r.hdrs|
    && forall i :: r.max <= i < |r.hdrs| ==> !r.hdrs[i].done
  }

  predicate Sized(r: Ring) {
    |r.bufs| == |r.place| == r.max && r.node < r.max && r.rx < r.max
  }

  datatype Polled = Polled(ring: Ring, quota: nat, count: nat, ok: bool)

  function Left(quota: nat, count: nat): nat {
    if quota >= count then quota - count else 0
  }

  /** The iteration that the loop makes at `p`: nothing, if it stops there. */
  function Advance(r: Ring, p: nat, quota: nat, env: Env): Option<(Ring, bool)>
    requires Padded(r) && Sized(r) && p <= r.max
  {
    var a := Arrive(r, env.arrivals);
    if a.hdrs[p].done && quota > 0 then Some(Consume(a, p, env)) else None
  }

  function Sum(r: Ring, p: nat, count: nat, env: Env): nat
    requires p < |r.hdrs|
  {
    count + Arrive(r, env.arrivals).hdrs[p].len / 8
  }

  /** The loop from pointer `p` at iteration `t`. It is defined only if no header behind the padding one is read. */
  function PollFrom(r: Ring, p: nat, quota: nat, count: nat, envs: seq<Env>, t: nat): Polled
    requires Padded(r) && Sized(r) && p <= r.max
    decreases r.max - p
  {
    var sum := Sum(r, p, count, At(envs, t));
    match Advance(r, p, quota, At(envs, t))
    case None => Polled(Arrive(r, At(envs, t).arrivals), quota, count, true)
    case Some((c, ok)) =>
      AdvanceSized(r, p, quota, At(envs, t));
      if ok then PollFrom(c, p + 1, Left(quota, sum), sum, envs, t + 1) else Polled(c, Left(quota, sum), sum, false)
  }

  lemma AdvanceSized(r: Ring, p: nat, quota: nat, env: Env)
    requires Padded(r) && Sized(r) && p <= r.max && Advance(r, p, quota, env).Some?
    ensures p < r.max
    ensures var (c, ok) := Advance(r, p, quota, env).value;
            c.max == r.max && |c.hdrs| == |r.hdrs| && (ok ==> Padded(c) && Sized(c))
  {
  }

  /* ---- What every step keeps ---- */

  /** The cursors agree and headers have been consumed in ring order since the start. */
  predicate Lockstep(r: Ring) {
    && 0 < r.max && r.tail < r.max
    && r.tail == r.node == Slot(|r.log|, r.max)
    && InOrder(r)
  }

  predicate InOrder(r: Ring) {
    forall k :: 0 <= k < |r.log| ==> r.log[k] == Slot(k, r.max)
  }

  /** How many of the first `n` nodes are in place `x`. */
  function Count(place: seq<Place>, x: Place, n: nat): nat
    requires n <= |place|
  {
    if n == 0 then 0 else Count(place, x, n - 1) + if place[n - 1] == x then 1 else 0
  }

  /** How many places `i` lies behind the tail, from zero on. */
  function Behind(i: nat, tail: nat, max: nat): int {
    if i < tail then tail - 1 - i else tail - 1 - i + max
  }

  /** What waits is as much as the driver counts, and it is what lies just behind the tail. */
  predicate Accounted(r: Ring) {
    && |r.place| == r.max && r.rx <= |r.log|
    && Count(r.place, Waiting, r.max) == r.rx
    && forall i :: 0 <= i < r.max ==> (r.place[i].Waiting? <==> Behind(i, r.tail, r.max) < r.rx)
  }

  /** Only headers that the hardware owns are complete. */
  predicate Earned(r: Ring) {
    r.max <= |r.hdrs| && forall i :: 0 <= i < r.max && r.hdrs[i].done ==> Has(r, i)
  }

  /** Every header points to the buffer of its own node. */
  predicate Matched(r: Ring) {
    && r.max <= |r.hdrs| && |r.bufs| == r.max
    && forall i :: 0 <= i < r.max ==> r.hdrs[i].addr == r.bufs[i]
  }

  predicate Distinct(s: seq<nat>) {
    forall i, j :: 0 <= i < j < |s| ==> s[i] != s[j]
  }

  /** No two nodes share a buffer, and a filter ring has passed each buffer up once and keeps none of those. */
  predicate Exclusive(r: Ring) {
    && Distinct(r.bufs)
    && (forall i :: 0 <= i < |r.bufs| ==> r.bufs[i] < r.next)
    && (r.filter ==>
          && Distinct(r.handed)
          && (forall i :: 0 <= i < |r.handed| ==> r.handed[i] < r.next)
          && (forall i :: 0 <= i < |r.handed| ==> r.handed[i] !in r.bufs))
  }

  ghost predicate Inv(r: Ring) {
    Padded(r) && Sized(r) && Lockstep(r) && Accounted(r) && Earned(r) && Matched(r) && Exclusive(r) && !r.locked
  }

  lemma RoomExceeds(max: nat)
    requires max > 0 && max % 256 != 0
    ensures Room(max) > max
    ensures forall i :: 0 <= i < Room(max) ==> FirstHdr(max, i).addr == i && !FirstHdr(max, i).done
  {
    AreaExceedsRing(max);
  }

  lemma CreatedInv(max: nat, filter: bool, submitted: bool)
    requires max > 0 && max % 256 != 0
    ensures Inv(Created(max, filter, submitted))
  {
    RoomExceeds(max);
    ReturnCount(seq(max, _ => Waiting), submitted, max);
  }

  lemma ArriveInv(r: Ring, arrivals: map<nat, nat>)
    requires Inv(r)
    ensures Inv(Arrive(r, arrivals))
  {
  }

  lemma ConsumeLockstep(r: Ring, env: Env)
    requires Padded(r) && Sized(r) && Lockstep(r)
    ensures var (c, ok) := Consume(r, r.tail, env);
            && c.log == r.log + [r.tail]
            && InOrder(c) && (ok ==> Lockstep(c))
            && (!ok ==> c.node == r.node && c.tail == Next(r.node, r.max) == Slot(|c.log|, r.max))
  {
  }

  /** The buffer passed up belongs to no other node and was not passed up before. */
  lemma PassUpExclusive(handed: seq<nat>, bufs: seq<nat>, p: nat, next: nat)
    requires Distinct(bufs) && Distinct(handed) && p < |bufs|
    requires forall i :: 0 <= i < |handed| ==> handed[i] !in bufs && handed[i] < next
    requires forall i :: 0 <= i < |bufs| ==> bufs[i] < next
    ensures var h := handed + [bufs[p]];
            var b := bufs[p := next];
            && Distinct(h) && Distinct(b)
            && (forall i :: 0 <= i < |h| ==> h[i] !in b && h[i] < next)
  {
    var h := handed + [bufs[p]];
    var b := bufs[p := next];
    forall i | 0 <= i < |h| ensures h[i] !in b && h[i] < next {
      if i < |handed| {
        assert h[i] == handed[i];
      }
    }
  }

  lemma ConsumeExclusive(r: Ring, env: Env)
    requires Padded(r) && Sized(r) && r.tail == r.node && Matched(r) && Exclusive(r)
    ensures var (c, ok) := Consume(r, r.tail, env);
            c.handed == r.handed + [r.bufs[r.tail]] && (ok ==> Exclusive(c))
  {
    if r.filter {
      PassUpExclusive(r.handed, r.bufs, r.tail, r.next);
    }
  }

  lemma ConsumeMatched(r: Ring, env: Env)
    requires Padded(r) && Sized(r) && r.tail == r.node && Matched(r)
    ensures var (c, ok) := Consume(r, r.tail, env);
            ok ==> Padded(c) && Sized(c) && Matched(c)
  {
  }

  lemma {:induction false} CountUpdate(place: seq<Place>, p: nat, x: Place, y: Place, n: nat)
    requires p < |place| && n <= |place| && place[p] != y
    ensures Count(place[p := y], x, n)
         == Count(place, x, n) + if p >= n then 0 else if x == y then 1 else if x == place[p] then -1 else 0
  {
    if n > 0 {
      CountUpdate(place, p, x, y, n - 1);
    }
  }

  lemma {:induction false} ReturnCount(place: seq<Place>, ok: bool, n: nat)
    requires n <= |place|
    ensures Count(Return(place, ok), Waiting, n) == 0
  {
    if n > 0 {
      ReturnCount(place, ok, n - 1);
    }
  }

  lemma PassUpAccounted(r: Ring)
    requires Padded(r) && r.tail < r.max && Accounted(r) && Has(r, r.tail)
    ensures Accounted(PassUp(r, r.tail))
  {
    CountUpdate(r.place, r.tail, Waiting, Waiting, r.max);
  }

  lemma ResubmitAccounted(r: Ring, ok: bool)
    requires Accounted(r) && r.tail < r.max
    ensures Accounted(Resubmit(r, ok))
  {
    ReturnCount(r.place, ok, r.max);
  }

  /** The header consumed was the hardware's, so it changes hands once. */
  lemma ConsumeAccounted(r: Ring, env: Env)
    requires Padded(r) && Sized(r) && r.tail < r.max && Accounted(r) && Has(r, r.tail)
    ensures Accounted(Consume(r, r.tail, env).0)
  {
    var u := PassUp(r, r.tail);
    PassUpAccounted(r);
    var v := Replace(u, r.tail);
    assert Accounted(v);
    ResubmitAccounted(v, env.submit);
  }

  lemma ConsumeEarned(r: Ring, env: Env)
    requires Padded(r) && Sized(r) && r.tail < r.max && Earned(r)
    ensures var (c, ok) := Consume(r, r.tail, env); ok ==> Earned(c)
  {
  }

  lemma ConsumeInv(r: Ring, env: Env)
    requires Inv(r) && r.hdrs[r.tail].done
    ensures var (c, ok) := Consume(r, r.tail, env);
            && (ok ==> Inv(c)) && Accounted(c)
            && c.locked == !ok && c.max == r.max && c.filter == r.filter
            && c.log == r.log + [r.tail] && c.handed == r.handed + [r.bufs[r.tail]]
  {
    ConsumeLockstep(r, env);
    ConsumeMatched(r, env);
    ConsumeExclusive(r, env);
    ConsumeAccounted(r, env);
    ConsumeEarned(r, env);
  }

  /** The pointer is the tail, except that it stays behind the ring when the tail wraps. */
  predicate Points(r: Ring, p: nat) {
    p == r.tail || (p == r.max && r.tail == 0)
  }

  /** A ring that stopped inside an iteration: the tail is one ahead of the node. */
  predicate Broken(r: Ring) {
    && r.filter && r.locked && r.node < r.max && r.tail == Next(r.node, r.max) == Slot(|r.log|, r.max)
    && InOrder(r) && Accounted(r)
  }

  /** One whole iteration. */
  lemma Turn(r: Ring, p: nat, env: Env)
    requires Inv(r) && Points(r, p) && Arrive(r, env.arrivals).hdrs[p].done
    ensures p < r.max
    ensures var (c, ok) := Consume(Arrive(r, env.arrivals), p, env);
            && (ok ==> Inv(c) && Points(c, p + 1)) && (!ok ==> Broken(c))
            && c.max == r.max && c.filter == r.filter && c.log == r.log + [p]
  {
    var a := Arrive(r, env.arrivals);
    ArriveInv(r, env.arrivals);
    assert p < r.max;
    ConsumeInv(a, env);
    ConsumeLockstep(a, env);
  }

  /* ---- Induction over the loop ---- */

  /** One iteration takes a good ring to a good one, or to a bad one if it fails. */
  predicate Leads(good: Ring -> bool, bad: Ring -> bool, r: Ring, p: nat, quota: nat, env: Env) {
    && Padded(r) && Sized(r) && p <= r.max && good(Arrive(r, env.arrivals))
    && var a := Advance(r, p, quota, env);
       a.Some? ==> if a.value.1 then good(a.value.0) && Points(a.value.0, p + 1) else bad(a.value.0)
  }

  /** The same for every good ring, as long as the surroundings behave. */
  ghost predicate Inductive(good: Ring -> bool, bad: Ring -> bool, tame: Env -> bool) {
    forall r, p, quota, env {:trigger Leads(good, bad, r, p, quota, env)} ::
      good(r) && Points(r, p) && tame(env) ==> Leads(good, bad, r, p, quota, env)
  }

  /** How the loop goes on from an iteration that it makes. */
  lemma Unfold(r: Ring, p: nat, quota: nat, count: nat, envs: seq<Env>, t: nat)
    returns (c: Ring, ok: bool, q: nat, sum: nat)
    requires Padded(r) && Sized(r) && p <= r.max && Advance(r, p, quota, At(envs, t)).Some?
    ensures Advance(r, p, quota, At(envs, t)).value == (c, ok)
    ensures p < r.max == c.max && c.log == r.log + [p] && |c.hdrs| == |r.hdrs|
    ensures sum == Sum(r, p, count, At(envs, t)) && q == Left(quota, sum)
    ensures ok ==> Padded(c) && Sized(c)
    ensures ok ==> PollFrom(r, p, quota, count, envs, t) == PollFrom(c, p + 1, q, sum, envs, t + 1)
    ensures !ok ==> PollFrom(r, p, quota, count, envs, t) == Polled(c, q, sum, false)
  {
    AdvanceSized(r, p, quota, At(envs, t));
    c, ok := Advance(r, p, quota, At(envs, t)).value.0, Advance(r, p, quota, At(envs, t)).value.1;
    sum := Sum(r, p, count, At(envs, t));
    q := Left(quota, sum);
  }

  lemma InductStep(good: Ring -> bool, bad: Ring -> bool, r: Ring, p: nat, quota: nat, count: nat,
      envs: seq<Env>, t: nat)
    returns (c: Ring, q: nat, sum: nat, on: bool)
    requires Padded(r) && Sized(r) && p <= r.max && Leads(good, bad, r, p, quota, At(envs, t))
    ensures on ==>
              && Padded(c) && Sized(c) && p < r.max == c.max && good(c) && Points(c, p + 1)
              && PollFrom(r, p, quota, count, envs, t) == PollFrom(c, p + 1, q, sum, envs, t + 1)
    ensures !on ==>
              var res := PollFrom(r, p, quota, count, envs, t);
              (res.ok ==> good(res.ring)) && (!res.ok ==> bad(res.ring))
  {
    c, q, sum, on := r, 0, 0, false;
    if Advance(r, p, quota, At(envs, t)).Some? {
      c, on, q, sum := Unfold(r, p, quota, count, envs, t);
    }
  }

  ghost predicate Ends(good: Ring -> bool, bad: Ring -> bool, res: Polled) {
    (res.ok ==> good(res.ring)) && (!res.ok ==> bad(res.ring))
  }

  lemma {:induction false} PollInduct(good: Ring -> bool, bad: Ring -> bool, tame: Env -> bool,
                                      r: Ring, p: nat, quota: nat, count: nat, envs: seq<Env>, t: nat, res: Polled)
    requires Inductive(good, bad, tame) && (forall u: nat :: tame(At(envs, u)))
    requires Padded(r) && Sized(r) && p <= r.max && good(r) && Points(r, p)
    requires res == PollFrom(r, p, quota, count, envs, t)
    ensures Ends(good, bad, res)
    decreases r.max - p
  {
    assert Leads(good, bad, r, p, quota, At(envs, t));
    var c, q, sum, on := InductStep(good, bad, r, p, quota, count, envs, t);
    if on {
      PollInduct(good, bad, tame, c, p + 1, q, sum, envs, t + 1, res);
    }
  }

  /** What a poll must leave behind. */
  ghost predicate Outcome(r: Ring, res: Polled) {
    && (if res.ok then Inv(res.ring) else Broken(res.ring))
    && res.ring.max == r.max && res.ring.filter == r.filter
  }

  ghost function Good(max: nat, filter: bool): Ring -> bool {
    (r: Ring) => Inv(r) && r.max == max && r.filter == filter
  }

  ghost function Bad(max: nat, filter: bool): Ring -> bool {
    (r: Ring) => Broken(r) && r.max == max && r.filter == filter
  }

  /** For every pattern of completions and every quota the poll keeps the invariant, unless memory ran out. */
  lemma PollKeeps(r: Ring, p: nat, quota: nat, count: nat, envs: seq<Env>, t: nat)
    requires Inv(r) && Points(r, p)
    ensures Outcome(r, PollFrom(r, p, quota, count, envs, t))
  {
    var good, bad, tame := Good(r.max, r.filter), Bad(r.max, r.filter), (env: Env) => true;
    forall s, u, q, env | good(s) && Points(s, u) && tame(env) ensures Leads(good, bad, s, u, q, env) {
      ArriveInv(s, env.arrivals);
      if Advance(s, u, q, env).Some? {
        Turn(s, u, env);
      }
    }
    PollInduct(good, bad, tame, r, p, quota, count, envs, t, PollFrom(r, p, quota, count, envs, t));
  }

  /* ---- What else a poll carries along ---- */

  predicate CarriedAt(extra: Ring -> bool, r: Ring, p: nat, quota: nat, env: Env)
    requires Padded(r) && Sized(r) && p <= r.max
  {
    && extra(Arrive(r, env.arrivals))
    && (Advance(r, p, quota, env).Some? ==> extra(Advance(r, p, quota, env).value.0))
  }

  /** Every iteration of a ring in order keeps `extra`, as long as the surroundings behave. */
  ghost predicate Carries(extra: Ring -> bool, tame: Env -> bool) {
    forall r, p, quota, env {:trigger CarriedAt(extra, r, p, quota, env)} ::
      Inv(r) && Points(r, p) && extra(r) && tame(env) ==> CarriedAt(extra, r, p, quota, env)
  }

  lemma CarryStep(extra: Ring -> bool, r: Ring, p: nat, quota: nat, count: nat, envs: seq<Env>, t: nat)
    returns (c: Ring, q: nat, sum: nat, on: bool)
    requires Inv(r) && Points(r, p) && CarriedAt(extra, r, p, quota, At(envs, t))
    ensures on ==>
              && Inv(c) && p < r.max == c.max && extra(c) && Points(c, p + 1)
              && PollFrom(r, p, quota, count, envs, t) == PollFrom(c, p + 1, q, sum, envs, t + 1)
    ensures !on ==> extra(PollFrom(r, p, quota, count, envs, t).ring)
  {
    c, q, sum, on := r, 0, 0, false;
    if Advance(r, p, quota, At(envs, t)).Some? {
      Turn(r, p, At(envs, t));
      c, on, q, sum := Unfold(r, p, quota, count, envs, t);
    }
  }

  lemma {:induction false} PollCarries(extra: Ring -> bool, tame: Env -> bool,
                                       r: Ring, p: nat, quota: nat, count: nat, envs: seq<Env>, t: nat, res: Polled)
    requires Carries(extra, tame) && (forall u: nat :: tame(At(envs, u)))
    requires Inv(r) && Points(r, p) && extra(r) && res == PollFrom(r, p, quota, count, envs, t)
    ensures extra(res.ring)
    decreases r.max - p
  {
    assert CarriedAt(extra, r, p, quota, At(envs, t));
    var c, q, sum, on := CarryStep(extra, r, p, quota, count, envs, t);
    if on {
      PollCarries(extra, tame, c, p + 1, q, sum, envs, t + 1, res);
    }
  }
}
