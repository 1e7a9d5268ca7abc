/**
 Wake-on-WLAN patterns: a masked byte pattern is compiled into the runs of bytes that a 64-byte
 firmware rule lists. What the rule accepts is compared with what the mask asks for.
 */
module WowCompiler {
  import opened Basics

  const RULE_SIZE: nat := 64
  const HEADER_SIZE: nat := 5
  const OP_SAME: Byte := 0
  const TYPE_ETH: Byte := 0

  /** `want[k]` says that byte `k` has to match; the pattern starts `offset` bytes into the packet. */
  datatype Pattern = Pattern(bytes: seq<Byte>, want: seq<bool>, offset: nat)

  /** Bytes to be found at a packet offset. */
  datatype Run = Run(offset: nat, bytes: seq<Byte>)

  /** 16-bit offsets reach the end of the pattern. */
  predicate GoodPattern(p: Pattern) {
    |p.want| == |p.bytes| && p.offset + |p.bytes| <= 0x1_0000
  }

  function Power(b: nat): (w: nat)
    requires b < 8
    ensures 0 < w
  {
    [1, 2, 4, 8, 16, 32, 64, 128][b]
  }

  function U16(x: nat): (r: nat)
    ensures r < 0x1_0000
    ensures x < 0x1_0000 ==> r == x
  {
    x % 0x1_0000
  }

  /** The mask byte that the driver computes with round_up. */
  function MaskIndex(j: nat): (y: nat)
    ensures 8 * y <= j < 8 * y + 8
  {
    (j + 1 + 7) / 8 * 8 / 8 - 1
  }

  predicate MaskBit(mask: seq<Byte>, j: nat)
    requires j < 8 * |mask|
  {
    mask[MaskIndex(j)] / Power(j % 8) % 2 == 1
  }

  function Unmask(bytes: seq<Byte>, mask: seq<Byte>, offset: nat): (p: Pattern)
    requires |bytes| <= 8 * |mask|
    ensures |p.want| == |p.bytes|
  {
    Pattern(bytes, seq(|bytes|, j requires 0 <= j < |bytes| => MaskBit(mask, j)), offset)
  }

  /* ---- What a pattern and a rule accept ---- */

  predicate ByteAt(packet: seq<Byte>, at: nat, b: Byte) {
    at < |packet| && packet[at] == b
  }

  /** The packet agrees with the first `n` pattern bytes wherever the mask asks for it. */
  predicate Agrees(p: Pattern, n: nat, packet: seq<Byte>)
    requires GoodPattern(p) && n <= |p.bytes|
  {
    forall k :: 0 <= k < n && p.want[k] ==> ByteAt(packet, p.offset + k, p.bytes[k])
  }

  predicate Found(r: Run, packet: seq<Byte>) {
    forall i :: 0 <= i < |r.bytes| ==> ByteAt(packet, r.offset + i, r.bytes[i])
  }

  predicate Satisfies(runs: seq<Run>, packet: seq<Byte>) {
    forall i :: 0 <= i < |runs| ==> Found(runs[i], packet)
  }

  /* ---- The rule bytes ---- */

  predicate GoodRun(r: Run) {
    r.offset < 0x1_0000 && 0 < |r.bytes| < 256
  }

  predicate GoodRuns(runs: seq<Run>) {
    forall i :: 0 <= i < |runs| ==> GoodRun(runs[i])
  }

  function Header(offset: nat, len: Byte): (h: seq<Byte>)
    requires offset < 0x1_0000
    ensures |h| == HEADER_SIZE
  {
    [OP_SAME, TYPE_ETH, offset % 256, offset / 256, len]
  }

  function Encode(r: Run): (data: seq<Byte>)
    requires GoodRun(r)
    ensures |data| == HEADER_SIZE + |r.bytes|
  {
    Header(r.offset, |r.bytes|) + r.bytes
  }

  function Flatten(runs: seq<Run>): seq<Byte>
    requires GoodRuns(runs)
  {
    if runs == [] then [] else Flatten(runs[..|runs| - 1]) + Encode(runs[|runs| - 1])
  }

  /** A reader of rule bytes: runs of bytes to be found unchanged, counted from the Ethernet header. */
  function Decode(data: seq<Byte>): Option<seq<Run>>
    decreases |data|
  {
    if data == [] then Some([])
    else if |data| < HEADER_SIZE || data[0] != 0 || data[1] != 0 then None
    else if data[4] == 0 || |data| < HEADER_SIZE + data[4] then None
    else
      match Decode(data[HEADER_SIZE + data[4]..])
      case None => None
      case Some(rest) => Some([Run(data[2] as int + 256 * data[3] as int,
          data[HEADER_SIZE..HEADER_SIZE + data[4]])] + rest)
  }

  /* ---- The compiler, byte by byte ---- */

  /**
   `size` is the length of the rule so far, `cut` counts the pattern bytes dealt with, `open` says
   that the last byte ended in a run.
   */
  datatype State = State(runs: seq<Run>, size: nat, open: bool, stopped: bool, cut: nat)

  predicate GoodState(p: Pattern, s: State) {
    && GoodRuns(s.runs)
    && s.cut <= |p.bytes|
    && (s.open ==> s.runs != [] && var r := s.runs[|s.runs| - 1]; r.offset + |r.bytes| == p.offset + s.cut)
    && s.size == |Flatten(s.runs)| <= RULE_SIZE
    && (!s.stopped ==> s.size < RULE_SIZE)
  }

  function Push(runs: seq<Run>, b: Byte): seq<Run>
    requires runs != []
  {
    var r := runs[|runs| - 1];
    runs[..|runs| - 1] + [Run(r.offset, r.bytes + [b])]
  }

  /** The next pattern byte. */
  function Take(p: Pattern, s: State): State
    requires GoodPattern(p) && GoodState(p, s) && s.cut < |p.bytes|
  {
    var b := p.bytes[s.cut];
    if !p.want[s.cut] then s.(open := false, cut := s.cut + 1)
    else if s.open then
      State(Push(s.runs, b), s.size + 1, true, s.size + 1 >= RULE_SIZE, s.cut + 1)
    else if s.size + HEADER_SIZE >= RULE_SIZE then s.(stopped := true)
    else
      State(s.runs + [Run(U16(p.offset + s.cut), [b])], s.size + HEADER_SIZE + 1, true,
          s.size + HEADER_SIZE + 1 >= RULE_SIZE, s.cut + 1)
  }

  const START: State := State([], 0, false, false, 0)

  /** The remaining pattern bytes, up to where the compiler stops. */
  function Finish(p: Pattern, s: State): (t: State)
    requires GoodPattern(p) && GoodState(p, s)
    ensures GoodState(p, t) && (t.stopped || t.cut == |p.bytes|)
    decreases |p.bytes| - s.cut, !s.stopped
  {
    if s.stopped || s.cut == |p.bytes| then s
    else
      TakeGood(p, s);
      Finish(p, Take(p, s))
  }

  /** The rule that the firmware gets. */
  function Rule(p: Pattern): (runs: seq<Run>)
    requires GoodPattern(p)
    ensures GoodRuns(runs) && |Flatten(runs)| <= RULE_SIZE
  {
    Finish(p, START).runs
  }

  lemma FlattenPush(runs: seq<Run>, b: Byte)
    requires GoodRuns(runs) && runs != [] && |runs[|runs| - 1].bytes| < 255
    ensures GoodRuns(Push(runs, b))
    ensures var r := runs[|runs| - 1];
            Flatten(Push(runs, b)) == Flatten(runs[..|runs| - 1]) + Encode(Run(r.offset, r.bytes + [b]))
  {
    var pushed := Push(runs, b);
    assert pushed[..|pushed| - 1] == runs[..|runs| - 1];
  }

  lemma FlattenOpen(runs: seq<Run>, r: Run)
    requires GoodRuns(runs) && GoodRun(r)
    ensures Flatten(runs + [r]) == Flatten(runs) + Encode(r)
  {
    assert (runs + [r])[..|runs|] == runs;
  }

  lemma TakeGood(p: Pattern, s: State)
    requires GoodPattern(p) && GoodState(p, s) && s.cut < |p.bytes| && !s.stopped
    ensures GoodState(p, Take(p, s))
    ensures !Take(p, s).stopped ==> Take(p, s).cut == s.cut + 1
  {
    if p.want[s.cut] && s.open {
      PushGood(p, s);
    } else if p.want[s.cut] && s.size + HEADER_SIZE < RULE_SIZE {
      FlattenOpen(s.runs, Run(p.offset + s.cut, [p.bytes[s.cut]]));
    }
  }

  lemma PushGood(p: Pattern, s: State)
    requires GoodPattern(p) && GoodState(p, s) && s.cut < |p.bytes| && !s.stopped && p.want[s.cut] && s.open
    ensures GoodState(p, Take(p, s))
  {
    LastFits(s.runs);
    FlattenPush(s.runs, p.bytes[s.cut]);
  }

  lemma LastFits(runs: seq<Run>)
    requires GoodRuns(runs) && runs != []
    ensures |runs[|runs| - 1].bytes| + HEADER_SIZE <= |Flatten(runs)|
  {
  }

  /* ---- The rule means what the mask asks for ---- */

  lemma TakeMeans(p: Pattern, s: State, packet: seq<Byte>)
    requires GoodPattern(p) && GoodState(p, s) && s.cut < |p.bytes|
    requires Satisfies(s.runs, packet) <==> Agrees(p, s.cut, packet)
    ensures Take(p, s).cut <= |p.bytes|
    ensures Satisfies(Take(p, s).runs, packet) <==> Agrees(p, Take(p, s).cut, packet)
  {
    var t, b := Take(p, s), p.bytes[s.cut];
    if p.want[s.cut] {
      if s.open {
        var n := |s.runs| - 1;
        var r := s.runs[n];
        assert t.runs[n].bytes == r.bytes + [b];
        assert Found(t.runs[n], packet) <==> Found(r, packet) && ByteAt(packet, p.offset + s.cut, b) by {
          assert t.runs[n].bytes[|r.bytes|] == b;
          assert forall i :: 0 <= i < |r.bytes| ==> t.runs[n].bytes[i] == r.bytes[i];
        }
        assert forall i :: 0 <= i < n ==> t.runs[i] == s.runs[i];
      } else if !t.stopped || t.cut > s.cut {
        var n := |s.runs|;
        assert Found(t.runs[n], packet) <==> ByteAt(packet, p.offset + s.cut, b) by {
          assert t.runs[n].bytes[0] == b;
        }
        assert forall i :: 0 <= i < n ==> t.runs[i] == s.runs[i];
      }
    }
  }

  /** Exactly the masked bytes before the cut are asked for. */
  lemma {:induction false} FinishMeans(p: Pattern, s: State, packet: seq<Byte>)
    requires GoodPattern(p) && GoodState(p, s)
    requires Satisfies(s.runs, packet) <==> Agrees(p, s.cut, packet)
    ensures Satisfies(Finish(p, s).runs, packet) <==> Agrees(p, Finish(p, s).cut, packet)
    decreases |p.bytes| - s.cut, !s.stopped
  {
    if !s.stopped && s.cut < |p.bytes| {
      TakeGood(p, s);
      TakeMeans(p, s, packet);
      FinishMeans(p, Take(p, s), packet);
    }
  }

  /** No packet that the pattern wants is turned down, truncated or not. */
  lemma NeverMisses(p: Pattern, packet: seq<Byte>)
    requires GoodPattern(p) && Agrees(p, |p.bytes|, packet)
    ensures Satisfies(Rule(p), packet)
  {
    FinishMeans(p, START, packet);
  }

  /* ---- When the rule is exact ---- */

  /** The size of an untruncated rule: a byte for each masked one and a header wherever a run begins. */
  function Weight(p: Pattern, n: nat): nat
    requires GoodPattern(p) && n <= |p.bytes|
  {
    if n == 0 then 0
    else
      Weight(p, n - 1) +
      (if !p.want[n - 1] then 0 else if n >= 2 && p.want[n - 2] then 1 else HEADER_SIZE + 1)
  }

  /**
   As long as the compiler runs, the rule has the full weight; when it stops, the next masked byte
   would exceed it.
   */
  predicate Weighed(p: Pattern, s: State)
    requires GoodPattern(p) && s.cut <= |p.bytes|
  {
    && s.size == Weight(p, s.cut)
    && (!s.stopped ==> (s.open <==> s.cut > 0 && p.want[s.cut - 1]))
    && (s.stopped ==> s.size == RULE_SIZE || (s.cut < |p.bytes| && Weight(p, s.cut + 1) > RULE_SIZE && p.want[s.cut]))
  }

  lemma {:induction false} FinishWeighs(p: Pattern, s: State)
    requires GoodPattern(p) && GoodState(p, s) && Weighed(p, s)
    ensures Weighed(p, Finish(p, s))
    decreases |p.bytes| - s.cut, !s.stopped
  {
    if !s.stopped && s.cut < |p.bytes| {
      TakeGood(p, s);
      FinishWeighs(p, Take(p, s));
    }
  }

  lemma {:induction false} WeightGrows(p: Pattern, m: nat, n: nat)
    requires GoodPattern(p) && m <= n <= |p.bytes|
    ensures Weight(p, m) <= Weight(p, n)
    ensures Weight(p, m) == Weight(p, n) <==> forall k :: m <= k < n ==> !p.want[k]
    decreases n
  {
    if m < n {
      WeightGrows(p, m, n - 1);
    }
  }

  /** All masked bytes have been dealt with. */
  predicate Whole(p: Pattern, cut: nat)
    requires GoodPattern(p)
  {
    forall k :: cut <= k < |p.bytes| ==> !p.want[k]
  }

  lemma WholeIffLight(p: Pattern)
    requires GoodPattern(p)
    ensures Whole(p, Finish(p, START).cut) <==> Weight(p, |p.bytes|) <= RULE_SIZE
  {
    var n := |p.bytes|;
    var s := Finish(p, START);
    FinishWeighs(p, START);
    WeightGrows(p, s.cut, n);
    if s.cut < n && p.want[s.cut] {
      WeightGrows(p, s.cut + 1, n);
    }
  }

  /** A packet that the truncated rule takes and the pattern does not want. */
  function Decoy(p: Pattern, k: nat): seq<Byte>
    requires k < |p.bytes|
  {
    seq(p.offset, _ => 0) + p.bytes[k := (p.bytes[k] as int + 1) % 256]
  }

  /**
   The rule accepts exactly the packets that the pattern wants if and only if the pattern's
   weight fits the rule.
   */
  lemma ExactIffLight(p: Pattern)
    requires GoodPattern(p)
    ensures (forall packet :: Satisfies(Rule(p), packet) <==> Agrees(p, |p.bytes|, packet))
        <==> Weight(p, |p.bytes|) <= RULE_SIZE
  {
    var s := Finish(p, START);
    WholeIffLight(p);
    if Whole(p, s.cut) {
      forall packet
        ensures Satisfies(Rule(p), packet) <==> Agrees(p, |p.bytes|, packet)
      {
        FinishMeans(p, START, packet);
      }
    } else {
      var k :| s.cut <= k < |p.bytes| && p.want[k];
      var packet := Decoy(p, k);
      FinishMeans(p, START, packet);
      assert Agrees(p, s.cut, packet);
      assert Satisfies(Rule(p), packet);
      assert packet[p.offset + k] == (p.bytes[k] as int + 1) % 256;
      assert !ByteAt(packet, p.offset + k, p.bytes[k]);
      assert !Agrees(p, |p.bytes|, packet);
    }
  }

  /* ---- In terms of the bytes and the mask ---- */

  /** Bit `b` of a byte, counted from the low end. */
  predicate BitOf(x: Byte, b: nat)
    requires b < 8
  {
    (x as bv8 >> b) & 1 == 1
  }

  /** The mask asks for pattern byte `k`. */
  predicate Asked(mask: seq<Byte>, k: nat)
    requires k < 8 * |mask|
  {
    BitOf(mask[k / 8], k % 8)
  }

  lemma BitExact(x: Byte, b: nat)
    requires b < 8
    ensures BitOf(x, b) <==> x / Power(b) % 2 == 1
  {
  }

  /** Pattern byte 8 * q + b is wanted exactly if bit `b` of mask byte `q` is set. */
  lemma WantExact(bytes: seq<Byte>, mask: seq<Byte>, offset: nat, q: nat, b: nat)
    requires |bytes| <= 8 * |mask| && b < 8 && 8 * q + b < |bytes|
    ensures Unmask(bytes, mask, offset).want[8 * q + b] <==> BitOf(mask[q], b)
  {
    BitExact(mask[q], b);
  }

  /** The packet has the pattern's byte, at its place behind the offset, wherever the mask asks for it. */
  predicate Wanted(bytes: seq<Byte>, mask: seq<Byte>, offset: nat, packet: seq<Byte>)
    requires |bytes| <= 8 * |mask|
  {
    forall k :: 0 <= k < |bytes| && Asked(mask, k) ==> offset + k < |packet| && packet[offset + k] == bytes[k]
  }

  /** A byte for each one asked for, and five for each stretch of them, among the first `n`. */
  function Cost(mask: seq<Byte>, n: nat): nat
    requires n <= 8 * |mask|
  {
    if n == 0 then 0
    else Cost(mask, n - 1) + (if !Asked(mask, n - 1) then 0 else if n >= 2 && Asked(mask, n - 2) then 1 else 6)
  }

  lemma AskedExact(bytes: seq<Byte>, mask: seq<Byte>, offset: nat, k: nat)
    requires k < |bytes| <= 8 * |mask|
    ensures Unmask(bytes, mask, offset).want[k] <==> Asked(mask, k)
  {
    WantExact(bytes, mask, offset, k / 8, k % 8);
  }

  lemma {:induction false} CostIsWeight(p: Pattern, mask: seq<Byte>, n: nat)
    requires GoodPattern(p) && n <= |p.bytes| <= 8 * |mask|
    requires forall k :: 0 <= k < |p.bytes| ==> (p.want[k] <==> Asked(mask, k))
    ensures Weight(p, n) == Cost(mask, n)
  {
    if n > 0 {
      CostIsWeight(p, mask, n - 1);
      CostStep(p, mask, n);
    }
  }

  lemma CostStep(p: Pattern, mask: seq<Byte>, n: nat)
    requires GoodPattern(p) && 0 < n <= |p.bytes| <= 8 * |mask| && Weight(p, n - 1) == Cost(mask, n - 1)
    requires p.want[n - 1] <==> Asked(mask, n - 1)
    requires n > 1 ==> (p.want[n - 2] <==> Asked(mask, n - 2))
    ensures Weight(p, n) == Cost(mask, n)
  {
  }

  lemma WantedExact(bytes: seq<Byte>, mask: seq<Byte>, offset: nat, packet: seq<Byte>)
    requires |bytes| <= 8 * |mask| && offset + |bytes| <= 0x1_0000
    ensures Wanted(bytes, mask, offset, packet) <==> Agrees(Unmask(bytes, mask, offset), |bytes|, packet)
  {
    forall k | 0 <= k < |bytes| ensures Unmask(bytes, mask, offset).want[k] <==> Asked(mask, k) {
      AskedExact(bytes, mask, offset, k);
    }
  }

  /** The firmware reads this rule and it takes the packet. */
  predicate Takes(rule: seq<Byte>, packet: seq<Byte>) {
    Decode(rule).Some? && Satisfies(Decode(rule).value, packet)
  }

  /** The rule takes every packet that is wanted, and no other exactly if the cost is at most 64. */
  ghost predicate Compiled(bytes: seq<Byte>, mask: seq<Byte>, offset: nat, rule: seq<Byte>)
    requires |bytes| <= 8 * |mask|
  {
    && |rule| <= RULE_SIZE && Decode(rule).Some?
    && (forall packet :: Wanted(bytes, mask, offset, packet) ==> Takes(rule, packet))
    && ((forall packet :: Takes(rule, packet) <==> Wanted(bytes, mask, offset, packet))
        <==> Cost(mask, |bytes|) <= RULE_SIZE)
  }

  lemma RuleCompiled(bytes: seq<Byte>, mask: seq<Byte>, offset: nat)
    requires |bytes| <= 8 * |mask| && offset + |bytes| <= 0x1_0000
    ensures Compiled(bytes, mask, offset, Flatten(Rule(Unmask(bytes, mask, offset))))
  {
    var p := Unmask(bytes, mask, offset);
    var rule := Flatten(Rule(p));
    DecodeFlatten(Rule(p));
    forall k | 0 <= k < |bytes| ensures p.want[k] <==> Asked(mask, k) {
      AskedExact(bytes, mask, offset, k);
    }
    CostIsWeight(p, mask, |bytes|);
    ExactIffLight(p);
    forall packet
      ensures Wanted(bytes, mask, offset, packet) <==> Agrees(p, |bytes|, packet)
      ensures Takes(rule, packet) <==> Satisfies(Rule(p), packet)
      ensures Wanted(bytes, mask, offset, packet) ==> Takes(rule, packet)
    {
      WantedExact(bytes, mask, offset, packet);
      if Wanted(bytes, mask, offset, packet) {
        NeverMisses(p, packet);
      }
    }
  }

  /* ---- Round trip ---- */

  lemma {:induction false} FlattenFirst(runs: seq<Run>)
    requires GoodRuns(runs) && runs != []
    ensures Flatten(runs) == Encode(runs[0]) + Flatten(runs[1..])
  {
    var n := |runs| - 1;
    if n == 0 {
      assert runs[..0] == [] && runs[1..] == [];
    } else {
      FlattenFirst(runs[..n]);
      var mid := runs[1..n];
      assert runs[..n][1..] == mid && runs[1..][..n - 1] == mid;
      assert (Encode(runs[0]) + Flatten(mid)) + Encode(runs[n]) == Encode(runs[0]) + (Flatten(mid) + Encode(runs[n]));
    }
  }

  lemma DecodeOne(r: Run, rest: seq<Byte>)
    requires GoodRun(r)
    ensures Decode(Encode(r) + rest) == match Decode(rest) case None => None case Some(runs) => Some([r] + runs)
  {
    var data := Encode(r) + rest;
    assert data[0] == 0 && data[1] == 0 && data[4] == |r.bytes|;
    assert data[2] == r.offset % 256 && data[3] == r.offset / 256;
    assert data[HEADER_SIZE..HEADER_SIZE + data[4]] == r.bytes;
    assert data[HEADER_SIZE + data[4]..] == rest;
  }

  /** Reading the rule bytes gives back the runs. */
  lemma {:induction false} DecodeFlatten(runs: seq<Run>)
    requires GoodRuns(runs)
    ensures Decode(Flatten(runs)) == Some(runs)
  {
    if runs != [] {
      DecodeFlatten(runs[1..]);
      DecodeFirst(runs);
    }
  }

  lemma DecodeFirst(runs: seq<Run>)
    requires GoodRuns(runs) && runs != [] && Decode(Flatten(runs[1..])) == Some(runs[1..])
    ensures Decode(Flatten(runs)) == Some(runs)
  {
    FlattenFirst(runs);
    assert runs == [runs[0]] + runs[1..];
    DecodeStep(runs[0], Flatten(runs[1..]), runs[1..], Flatten(runs));
  }

  lemma DecodeStep(r: Run, rest: seq<Byte>, runs: seq<Run>, data: seq<Byte>)
    requires GoodRun(r) && data == Encode(r) + rest && Decode(rest) == Some(runs)
    ensures Decode(data) == Some([r] + runs)
  {
    DecodeOne(r, rest);
  }

  /* ---- The loop of the driver ---- */

  method PutHeader(rule: array<Byte>, vi: nat, offset: nat)
    requires vi + HEADER_SIZE <= rule.Length && offset < 0x1_0000
    modifies rule
    ensures rule[..vi + HEADER_SIZE] == old(rule[..vi]) + Header(offset, 0)
  {
    rule[vi], rule[vi + 1] := OP_SAME, TYPE_ETH;
    rule[vi + 2], rule[vi + 3] := offset % 256, offset / 256;
    rule[vi + 4] := 0;
  }

  /** Writes a byte and counts it in the header of its run. */
  method PutByte(rule: array<Byte>, vi: nat, hdr: nat, b: Byte)
    requires hdr + HEADER_SIZE <= vi < rule.Length && rule[hdr + 4] < 255
    modifies rule
    ensures rule[..vi + 1] == old(rule[..vi])[hdr + 4 := old(rule[hdr + 4]) + 1] + [b]
  {
    rule[vi] := b;
    rule[hdr + 4] := rule[hdr + 4] + 1;
  }

  lemma OpensRun(data: seq<Byte>, runs: seq<Run>, offset: nat, b: Byte)
    requires GoodRuns(runs) && offset < 0x1_0000 && data == Flatten(runs) + Header(offset, 0)
    ensures data[|Flatten(runs)| + 4 := 1] + [b] == Flatten(runs + [Run(offset, [b])])
  {
    FlattenOpen(runs, Run(offset, [b]));
  }

  lemma EncodeGrows(r: Run, b: Byte)
    requires GoodRun(r) && |r.bytes| < 255
    ensures Encode(r)[4] == |r.bytes|
    ensures Encode(r)[4 := |r.bytes| + 1] + [b] == Encode(Run(r.offset, r.bytes + [b]))
  {
    assert Header(r.offset, |r.bytes|)[4 := |r.bytes| + 1] == Header(r.offset, |r.bytes| + 1);
  }

  lemma GrowsRun(runs: seq<Run>, b: Byte, hdr: nat, data: seq<Byte>, n: Byte)
    requires GoodRuns(runs) && runs != [] && n as int == |runs[|runs| - 1].bytes| < 255 && data == Flatten(runs)
    requires hdr + HEADER_SIZE + n as int == |data|
    ensures data[hdr + 4] == n && GoodRuns(Push(runs, b))
    ensures data[hdr + 4 := n as int + 1] + [b] == Flatten(Push(runs, b))
  {
    var front, r := Flatten(runs[..|runs| - 1]), runs[|runs| - 1];
    assert data == front + Encode(r) && |front| == hdr;
    FlattenPush(runs, b);
    GrowsLast(front, r, b);
  }

  lemma GrowsLast(front: seq<Byte>, r: Run, b: Byte)
    requires GoodRun(r) && |r.bytes| < 255
    ensures var data: seq<Byte> := front + Encode(r);
            && data[|front| + 4] == |r.bytes|
            && data[|front| + 4 := |r.bytes| + 1] + [b] == front + Encode(Run(r.offset, r.bytes + [b]))
  {
    EncodeGrows(r, b);
    UpdateTail(front, Encode(r), 4, |r.bytes| + 1, b);
  }

  lemma UpdateTail(front: seq<Byte>, e: seq<Byte>, k: nat, x: Byte, b: Byte)
    requires k < |e|
    ensures (front + e)[|front| + k] == e[k]
    ensures var data: seq<Byte> := front + e; data[|front| + k := x] + [b] == front + (e[k := x] + [b])
  {
  }

  /** Opens a run with its first byte. */
  method PutFirst(rule: array<Byte>, vi: nat, offset: nat, b: Byte, ghost runs: seq<Run>)
    requires vi + HEADER_SIZE < rule.Length && offset < 0x1_0000
    requires GoodRuns(runs) && rule[..vi] == Flatten(runs)
    modifies rule
    ensures rule[..vi + HEADER_SIZE + 1] == Flatten(runs + [Run(offset, [b])])
  {
    PutHeader(rule, vi, offset);
    OpensRun(rule[..vi + HEADER_SIZE], runs, offset, b);
    assert rule[vi + 4] == rule[..vi + HEADER_SIZE][vi + 4];
    PutByte(rule, vi + HEADER_SIZE, vi, b);
  }

  method PutNext(rule: array<Byte>, vi: nat, hdr: nat, b: Byte, ghost runs: seq<Run>)
    requires vi < rule.Length <= RULE_SIZE
    requires GoodRuns(runs) && rule[..vi] == Flatten(runs)
    requires runs != [] && hdr + HEADER_SIZE + |runs[|runs| - 1].bytes| == vi
    modifies rule
    ensures GoodRuns(Push(runs, b)) && rule[..vi + 1] == Flatten(Push(runs, b))
  {
    ghost var data, n := rule[..vi], |runs[|runs| - 1].bytes|;
    GrowsRun(runs, b, hdr, data, n);
    assert rule[hdr + 4] == data[hdr + 4] == n;
    PutByte(rule, vi, hdr, b);
  }

  /** A masked byte: it opens a run unless the byte before it was masked too. */
  method PutMasked(rule: array<Byte>, vi: nat, start: bool, hdr: nat, offset: nat, b: Byte,
      ghost runs: seq<Run>) returns (vi': nat, hdr': nat)
    requires rule.Length == RULE_SIZE && vi < RULE_SIZE && (!start ==> vi + HEADER_SIZE < RULE_SIZE)
        && offset < 0x1_0000
    requires GoodRuns(runs) && rule[..vi] == Flatten(runs)
    requires start ==> runs != [] && hdr + HEADER_SIZE + |runs[|runs| - 1].bytes| == vi
    modifies rule
    ensures var runs' := if start then Push(runs, b) else runs + [Run(offset, [b])];
            && GoodRuns(runs') && vi' <= RULE_SIZE && rule[..vi'] == Flatten(runs')
            && vi' == vi + (if start then 1 else HEADER_SIZE + 1)
            && hdr' + HEADER_SIZE + |runs'[|runs'| - 1].bytes| == vi'
  {
    if start {
      PutNext(rule, vi, hdr, b, runs);
      vi', hdr' := vi + 1, hdr;
    } else {
      PutFirst(rule, vi, offset, b, runs);
      vi', hdr' := vi + HEADER_SIZE + 1, vi;
    }
  }

  /** The loop variables hold what the compiler's state says. */
  ghost predicate Mirrors(p: Pattern, s: State, data: seq<Byte>, start: bool, hdr: int) {
    && GoodState(p, s) && data == Flatten(s.runs)
    && (!s.stopped ==> start == s.open)
    && (!s.stopped && start ==> hdr + HEADER_SIZE + |s.runs[|s.runs| - 1].bytes| == |data|)
  }

  /** One pattern byte. */
  method CompileByte(rule: array<Byte>, vi: nat, start: bool, hdr: nat, at: nat, b: Byte, masked: bool,
      ghost p: Pattern, ghost s: State)
    returns (vi': nat, start': bool, hdr': nat, stop: bool)
    requires rule.Length == RULE_SIZE && vi < RULE_SIZE
    requires GoodPattern(p) && s.cut < |p.bytes| && !s.stopped && GoodState(p, s)
    requires masked == p.want[s.cut] && b == p.bytes[s.cut] && at == p.offset + s.cut
    requires Mirrors(p, s, rule[..vi], start, hdr)
    modifies rule
    ensures vi' <= RULE_SIZE && Mirrors(p, Take(p, s), rule[..vi'], start', hdr') && stop == Take(p, s).stopped
  {
    TakeGood(p, s);
    vi', start', hdr', stop := vi, masked, hdr, false;
    if masked {
      if !start && vi + HEADER_SIZE >= RULE_SIZE {
        return vi, start, hdr, true;
      }
      vi', hdr' := PutMasked(rule, vi, start, hdr, at, b, s.runs);
      stop := vi' >= RULE_SIZE;
    }
  }

  /**
   Fills the rule in place: a header when a run begins, and a length byte that grows with the run.
   `Compiled` says what the bytes written are good for.
   */
  method CompileRule(bytes: seq<Byte>, mask: seq<Byte>, offset: nat, rule: array<Byte>) returns (len: nat)
    requires |bytes| <= 8 * |mask| && offset + |bytes| <= 0x1_0000 && rule.Length == RULE_SIZE
    modifies rule
    ensures len <= RULE_SIZE && rule[..len] == Flatten(Rule(Unmask(bytes, mask, offset)))
    ensures Compiled(bytes, mask, offset, rule[..len])
  {
    ghost var p, s := Unmask(bytes, mask, offset), START;
    var vi: nat, start, hdr: nat, j, stop := 0, false, 0, 0, false;
    while j < |bytes| && !stop
      invariant vi <= RULE_SIZE && stop == s.stopped && j <= |bytes| && (!stop ==> s.cut == j)
      invariant Mirrors(p, s, rule[..vi], start, hdr)
      invariant Finish(p, START) == Finish(p, s)
    {
      vi, start, hdr, stop := CompileByte(rule, vi, start, hdr, U16(offset + j), bytes[j], MaskBit(mask, j), p, s);
      s := Take(p, s);
      j := j + 1;
    }
    len := vi;
    RuleCompiled(bytes, mask, offset);
  }
}
