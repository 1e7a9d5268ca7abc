/**
 Sending the enabled wake-on-WLAN rules in batches, and mapping the firmware's rule position back
 to the user's rule index. A 64-bit map is a number; its bits are counted from the low end.
 */
module WowSender {
  import opened Basics

  const MAX_RULES: nat := 64
  const BATCH: nat := 20
  const SPD_SIZE: nat := 4          // struct skw_spd_action_param
  const PARAM_SIZE: nat := 5        // struct skw_wow_input_param
  const RULE_BYTES: nat := 66       // struct skw_wow_rule
  const FIXED: nat := SPD_SIZE + PARAM_SIZE
  const TOTAL: nat := FIXED + 1400

  function Pow2(n: nat): (w: nat)
    ensures 0 < w
  {
    if n == 0 then 1 else 2 * Pow2(n - 1)
  }

  lemma {:induction false} Pow2Add(m: nat, n: nat)
    ensures Pow2(m + n) == Pow2(m) * Pow2(n)
  {
    if m > 0 {
      Pow2Add(m - 1, n);
      Assoc(2, Pow2(m - 1), Pow2(n));
    }
  }

  /* ---- The bits of a map ---- */

  predicate Bit(x: nat, i: nat) {
    x / Pow2(i) % 2 == 1
  }

  /** The positions of the set bits of `x`, shifted by `base`, in ascending order. */
  function BitsFrom(x: nat, base: nat): seq<nat> {
    if x == 0 then []
    else (if x % 2 == 1 then [base] else []) + BitsFrom(x / 2, base + 1)
  }

  function Bits(x: nat): seq<nat> {
    BitsFrom(x, 0)
  }

  lemma HalveBit(x: nat, i: nat)
    requires 0 < i
    ensures Bit(x, i) <==> Bit(x / 2, i - 1)
  {
    var w := Pow2(i - 1);
    assert x / (2 * w) == (x / 2) / w by {
      var q := x / (2 * w);
      var h := x / 2;
      assert x == 2 * w * q + x % (2 * w);
      assert 2 * w * q == 2 * (w * q);
      assert h == w * q + (x % (2 * w)) / 2;
      assert 0 <= (x % (2 * w)) / 2 < w;
      QuotientUnique(h, w, q, (x % (2 * w)) / 2);
    }
  }

  /** Every set bit is listed, nothing else is, and the list ascends. */
  lemma {:induction false} BitsFromExact(x: nat, base: nat, i: nat)
    ensures base + i in BitsFrom(x, base) <==> Bit(x, i)
    ensures forall k :: 0 <= k < |BitsFrom(x, base)| ==> base <= BitsFrom(x, base)[k]
    ensures forall j, k :: 0 <= j < k < |BitsFrom(x, base)| ==> BitsFrom(x, base)[j] < BitsFrom(x, base)[k]
    decreases x, i
  {
    if x > 0 {
      var rest := BitsFrom(x / 2, base + 1);
      if i > 0 {
        HalveBit(x, i);
        BitsFromExact(x / 2, base + 1, i - 1);
        assert base + i == base + 1 + (i - 1);
      } else {
        BitsFromExact(x / 2, base + 1, 0);
        assert base !in rest;
      }
    }
  }

  lemma BitsExact(x: nat, i: nat)
    ensures i in Bits(x) <==> Bit(x, i)
    ensures forall j, k :: 0 <= j < k < |Bits(x)| ==> Bits(x)[j] < Bits(x)[k]
  {
    BitsFromExact(x, 0, i);
  }

  /** Below 2^n there are at most `n` bits. */
  lemma {:induction false} BitsBound(x: nat, base: nat, n: nat)
    requires x < Pow2(n)
    ensures |BitsFrom(x, base)| <= n
    ensures forall k :: 0 <= k < |BitsFrom(x, base)| ==> BitsFrom(x, base)[k] < base + n
  {
    if x > 0 {
      BitsBound(x / 2, base + 1, n - 1);
    }
  }

  /** An odd number times 2^k has its lowest bit at `k`; taking it away leaves the other bits. */
  lemma {:induction false} LowestBit(x: nat, y: nat, k: nat, base: nat)
    requires x == y * Pow2(k) && y % 2 == 1
    ensures x >= Pow2(k)
    ensures BitsFrom(x, base) == [base + k] + BitsFrom(x - Pow2(k), base)
    decreases k
  {
    if k == 0 {
      assert (x - 1) / 2 == x / 2;
    } else {
      var half := y * Pow2(k - 1);
      assert y * (2 * Pow2(k - 1)) == 2 * half;
      LowestBit(half, y, k - 1, base + 1);
      assert (x - Pow2(k)) / 2 == half - Pow2(k - 1);
      assert (x - Pow2(k)) % 2 == 0;
    }
  }

  /* ---- ffs64 ---- */

  lemma Assoc(a: nat, b: nat, c: nat)
    ensures a * b * c == a * (b * c)
  {
  }

  lemma MultipleMod(q: nat, w: nat)
    requires 0 < w
    ensures (q * w) % w == 0
  {
    QuotientUnique(q * w, w, q, 0);
  }

  /** A multiple of 2^(2m) is one of every smaller power. */
  lemma BigMultiple(z: nat, m: nat, n: nat)
    requires n <= 2 * m
    ensures (z * Pow2(m) * Pow2(m)) % Pow2(n) == 0
  {
    var v, u := Pow2(2 * m - n), Pow2(n);
    Pow2Add(m, m);
    Pow2Add(2 * m - n, n);
    Assoc(z, Pow2(m), Pow2(m));
    Assoc(z, v, u);
    MultipleMod(z * v, u);
  }

  lemma DivMod(x: nat, w: nat)
    requires 0 < w
    ensures x == x / w * w + x % w
  {
  }

  /** What is left after shifting out `m` clear bits is not clear that far down again. */
  lemma Stage(x: nat, y: nat, m: nat, before: nat)
    requires x == y * Pow2(m) && x % Pow2(before) != 0 && before <= 2 * m
    ensures y % Pow2(m) != 0
  {
    if y % Pow2(m) == 0 {
      DivMod(y, Pow2(m));
      BigMultiple(y / Pow2(m), m, before);
      assert false;
    }
  }

  lemma ShiftWeight(y: nat, m: nat, r: nat)
    ensures y * Pow2(m) * Pow2(r) == y * Pow2(r + m)
  {
    Pow2Add(m, r);
    Assoc(y, Pow2(m), Pow2(r));
  }

  method Shift(x: nat, r: nat, m: nat, ghost x0: nat, ghost before: nat) returns (y: nat, r': nat)
    requires 0 < x && 0 < r && x % Pow2(before) != 0 && before <= 2 * m && x0 == x * Pow2(r - 1)
    ensures 0 < y && 0 < r' && y % Pow2(m) != 0 && x0 == y * Pow2(r' - 1)
  {
    y, r' := x, r;
    if x % Pow2(m) == 0 {
      DivMod(x, Pow2(m));
      y, r' := x / Pow2(m), r + m;
      Stage(x, y, m, before);
      ShiftWeight(y, m, r - 1);
    }
  }

  /** Each stage tests the low bits and shifts them out. */
  method ShiftOut(x: nat) returns (y: nat, r: nat)
    requires 0 < x < Pow2(64)
    ensures 0 < r && y % Pow2(1) != 0 && x == y * Pow2(r - 1)
  {
    y, r := x, 1;
    SmallMod(x, Pow2(64));
    y, r := Shift(y, r, 56, x, 64);
    y, r := Shift(y, r, 48, x, 56);
    y, r := Shift(y, r, 40, x, 48);
    y, r := Shift(y, r, 32, x, 40);
    y, r := Shift(y, r, 24, x, 32);
    y, r := Shift(y, r, 16, x, 24);
    y, r := Shift(y, r, 8, x, 16);
    y, r := Shift(y, r, 4, x, 8);
    y, r := Shift(y, r, 2, x, 4);
    y, r := Shift(y, r, 1, x, 2);
  }

  /** One plus the position of the lowest set bit, or zero. */
  method Ffs64(x: nat) returns (r: nat)
    requires x < Pow2(64)
    ensures x == 0 <==> r == 0
    ensures x != 0 ==> Pow2(r - 1) <= x && Bits(x) == [r - 1] + Bits(x - Pow2(r - 1))
  {
    if x == 0 {
      return 0;
    }
    var y;
    y, r := ShiftOut(x);
    Odd(y);
    LowestBit(x, y, r - 1, 0);
  }

  lemma SmallMod(x: nat, w: nat)
    requires x < w
    ensures x % w == x
  {
    QuotientUnique(x, w, 0, x);
  }

  lemma Odd(y: nat)
    requires y % Pow2(1) != 0
    ensures y % 2 == 1
  {
    assert Pow2(1) == 2 * Pow2(0);
  }

  /* ---- Batches ---- */

  /** The sub-command of a message. It is only set along with a rule, and zero means to disable everything. */
  datatype Command = DisAll | EnWow | EnWowAppend

  datatype Message = Message(command: Command, rules: seq<nat>)

  /** A rule that the size test of the sender lets through. */
  predicate Sendable(len: nat) {
    FIXED + PARAM_SIZE + len <= TOTAL
  }

  /** The indices before the first rule that is too long. */
  function Fit(idx: seq<nat>, lens: seq<nat>): seq<nat>
    requires forall k :: 0 <= k < |idx| ==> idx[k] < |lens|
  {
    if idx == [] || !Sendable(lens[idx[0]]) then [] else [idx[0]] + Fit(idx[1..], lens)
  }

  /** Whole batches, then a last one that is not full and may be empty. */
  function Batches(idx: seq<nat>): seq<seq<nat>> {
    if |idx| < BATCH then [idx] else [idx[..BATCH]] + Batches(idx[BATCH..])
  }

  function Concat(batches: seq<seq<nat>>): seq<nat> {
    if batches == [] then [] else batches[0] + Concat(batches[1..])
  }

  /** Nothing is lost, repeated or reordered, and the number of messages is known. */
  lemma {:induction false} BatchesExact(idx: seq<nat>)
    ensures Concat(Batches(idx)) == idx
    ensures |Batches(idx)| == |idx| / BATCH + 1
    ensures forall k :: 0 <= k < |Batches(idx)| ==> FIXED + RULE_BYTES * |Batches(idx)[k]| <= TOTAL
  {
    if |idx| >= BATCH {
      BatchesExact(idx[BATCH..]);
      assert idx == idx[..BATCH] + idx[BATCH..];
      var rest := Batches(idx[BATCH..]);
      assert Batches(idx)[1..] == rest;
      forall k | 0 <= k < |Batches(idx)|
        ensures FIXED + RULE_BYTES * |Batches(idx)[k]| <= TOTAL
      {
        assert k > 0 ==> Batches(idx)[k] == rest[k - 1];
      }
    }
  }

  lemma {:induction false} FitAll(idx: seq<nat>, lens: seq<nat>)
    requires forall k :: 0 <= k < |idx| ==> idx[k] < |lens|
    ensures Fit(idx, lens) <= idx
    ensures Fit(idx, lens) == idx <==> forall k :: 0 <= k < |idx| ==> lens[idx[k]] <= 1395
  {
    if idx != [] {
      assert forall k :: 0 <= k < |idx[1..]| ==> idx[1..][k] == idx[k + 1];
      FitAll(idx[1..], lens);
      if Sendable(lens[idx[0]]) && Fit(idx, lens) == idx {
        assert Fit(idx[1..], lens) == idx[1..];
        assert forall k :: 1 <= k < |idx| ==> idx[k] == idx[1..][k - 1];
      }
      if forall k :: 0 <= k < |idx| ==> Sendable(lens[idx[k]]) {
        assert idx == [idx[0]] + idx[1..];
      }
    }
  }

  /** And otherwise the first one left out is too long. */
  lemma {:induction false} FitCut(idx: seq<nat>, lens: seq<nat>)
    requires forall k :: 0 <= k < |idx| ==> idx[k] < |lens|
    ensures |Fit(idx, lens)| <= |idx|
    ensures |Fit(idx, lens)| < |idx| ==> lens[idx[|Fit(idx, lens)|]] > 1395
  {
    if idx != [] {
      FitCut(idx[1..], lens);
    }
  }

  predicate Table(bitmap: nat, lens: seq<nat>) {
    bitmap < Pow2(MAX_RULES) && |lens| == MAX_RULES
  }

  /** The enabled rules that get sent, in ascending order. */
  function Enabled(bitmap: nat, lens: seq<nat>): seq<nat>
    requires Table(bitmap, lens)
  {
    BitsBound(bitmap, 0, MAX_RULES);
    Fit(Bits(bitmap), lens)
  }

  /** Takes the lowest index out of the map. */
  method TakeLowest(bitmap: nat) returns (idx: nat, left: nat)
    requires 0 < bitmap < Pow2(MAX_RULES)
    ensures idx < MAX_RULES && left < bitmap && Bits(bitmap) == [idx] + Bits(left)
  {
    var r := Ffs64(bitmap);
    idx := r - 1;
    left := bitmap - Pow2(idx);
    BitsBound(bitmap, 0, MAX_RULES);
    assert Bits(bitmap)[0] == idx;
  }

  lemma FitStep(idx: nat, rest: seq<nat>, lens: seq<nat>)
    requires idx < |lens| && forall k :: 0 <= k < |rest| ==> rest[k] < |lens|
    ensures Fit([idx] + rest, lens) == if Sendable(lens[idx]) then [idx] + Fit(rest, lens) else []
  {
    assert ([idx] + rest)[1..] == rest;
  }

  lemma EnabledStep(bitmap: nat, idx: nat, left: nat, lens: seq<nat>)
    requires Table(bitmap, lens) && left < bitmap && idx < MAX_RULES && Bits(bitmap) == [idx] + Bits(left)
    ensures Enabled(bitmap, lens) == if Sendable(lens[idx]) then [idx] + Enabled(left, lens) else []
  {
    BitsBound(left, 0, MAX_RULES);
    FitStep(idx, Bits(left), lens);
  }

  /** The rules copied so far, and those still enabled, are all that get sent. */
  predicate Copying(bitmap: nat, lens: seq<nat>, rules: seq<nat>, left: nat) {
    Table(bitmap, lens) && Table(left, lens) && Enabled(bitmap, lens) == rules + Enabled(left, lens)
  }

  lemma CopyOne(bitmap: nat, lens: seq<nat>, rules: seq<nat>, left: nat, idx: nat, rest: nat)
    requires Copying(bitmap, lens, rules, left) && rest < left && idx < MAX_RULES && Bits(left) == [idx] + Bits(rest)
    ensures Sendable(lens[idx]) ==> Copying(bitmap, lens, rules + [idx], rest)
    ensures !Sendable(lens[idx]) ==> Enabled(bitmap, lens) == rules
  {
    EnabledStep(left, idx, rest, lens);
    if Sendable(lens[idx]) {
      assert rules + ([idx] + Enabled(rest, lens)) == rules + [idx] + Enabled(rest, lens);
    }
  }

  lemma CopyDone(bitmap: nat, lens: seq<nat>, rules: seq<nat>)
    requires Copying(bitmap, lens, rules, 0)
    ensures Enabled(bitmap, lens) == rules
  {
    assert Bits(0) == [];
  }

  /** Copies rules into one message until it is full, a rule is too long or none is left. */
  method FillMessage(bitmap: nat, lens: seq<nat>) returns (rules: seq<nat>, left: nat, full: bool)
    requires Table(bitmap, lens)
    ensures var all := Enabled(bitmap, lens);
            && full == (|all| >= BATCH)
            && (!full ==> rules == all)
            && (full ==> rules == all[..BATCH] && Table(left, lens) && Enabled(left, lens) == all[BATCH..])
  {
    rules, left, full := [], bitmap, false;
    while left != 0
      invariant |rules| < BATCH && Copying(bitmap, lens, rules, left)
      decreases left
    {
      var idx, rest := TakeLowest(left);
      CopyOne(bitmap, lens, rules, left, idx, rest);
      if FIXED + PARAM_SIZE + lens[idx] > TOTAL {
        return;
      }
      rules := rules + [idx];
      left := rest;
      if |rules| >= BATCH {
        full := true;
        return;
      }
    }
    CopyDone(bitmap, lens, rules);
  }

  function Contents(msgs: seq<Message>): (c: seq<seq<nat>>)
    ensures |c| == |msgs|
  {
    seq(|msgs|, k requires 0 <= k < |msgs| => msgs[k].rules)
  }

  /** The message that carries these rules; without any, the sub-command stays zero. */
  function Carrying(command: Command, rules: seq<nat>): (m: Message)
    ensures m.rules == rules && (m.command.DisAll? <==> command.DisAll? || rules == [])
  {
    Message(if rules == [] then DisAll else command, rules)
  }

  /** Every message with rules enables or appends them; one without disables everything. */
  predicate Commanded(msgs: seq<Message>, first: Command) {
    forall k :: 0 <= k < |msgs| ==>
      msgs[k].command == if msgs[k].rules == [] then DisAll else if k == 0 then first else EnWowAppend
  }

  /**
   The remaining rules as append messages, the first one being transmission `k`; a full message is
   always followed by another, and the last transmission decides the result.
   */
  method SendAppend(bitmap: nat, lens: seq<nat>, send: nat -> int, k: nat) returns (msgs: seq<Message>, ret: int)
    requires Table(bitmap, lens)
    ensures Contents(msgs) == Batches(Enabled(bitmap, lens)) && Commanded(msgs, EnWowAppend)
    ensures msgs != [] && ret == send(k + |msgs| - 1)
    decreases |Enabled(bitmap, lens)|
  {
    var rules, left, full := FillMessage(bitmap, lens);
    msgs, ret := [Carrying(EnWowAppend, rules)], send(k);
    if full {
      var rest;
      rest, ret := SendAppend(left, lens, send, k + 1);
      MoreMessages(EnWowAppend, rest, Enabled(bitmap, lens));
      msgs := msgs + rest;
    } else {
      OneMessage(EnWowAppend, rules);
    }
  }

  lemma OneMessage(command: Command, idx: seq<nat>)
    requires |idx| < BATCH && !command.DisAll?
    ensures var msgs := [Carrying(command, idx)]; Contents(msgs) == Batches(idx) && Commanded(msgs, command)
  {
  }

  /** A full message in front of those for the rest. */
  lemma MoreMessages(command: Command, rest: seq<Message>, idx: seq<nat>)
    requires |idx| >= BATCH && !command.DisAll?
    requires Contents(rest) == Batches(idx[BATCH..]) && Commanded(rest, EnWowAppend)
    ensures var msgs := [Carrying(command, idx[..BATCH])] + rest;
            Contents(msgs) == Batches(idx) && Commanded(msgs, command)
  {
    var first := Carrying(command, idx[..BATCH]);
    assert Contents([first] + rest) == [first.rules] + Contents(rest);
    assert forall k :: 0 < k <= |rest| ==> ([first] + rest)[k] == rest[k - 1];
  }

  /**
   All enabled rules: one first message and as many others as needed, whatever `send` returns for
   each; see `SendingExact` for what the firmware is left with.
   */
  method SendFilter(bitmap: nat, lens: seq<nat>, send: nat -> int) returns (msgs: seq<Message>, ret: int)
    requires Table(bitmap, lens)
    ensures Contents(msgs) == Batches(Enabled(bitmap, lens)) && Commanded(msgs, EnWow)
    ensures msgs != [] && ret == send(|msgs| - 1)
    ensures Kept(msgs, send) == Enabled(bitmap, lens) <==> Reaches(Enabled(bitmap, lens), |msgs|, send)
  {
    var rules, left, full := FillMessage(bitmap, lens);
    msgs, ret := [Carrying(EnWow, rules)], send(0);
    if full {
      var rest;
      rest, ret := SendAppend(left, lens, send, 1);
      MoreMessages(EnWow, rest, Enabled(bitmap, lens));
      msgs := msgs + rest;
    } else {
      OneMessage(EnWow, rules);
    }
    SendingExact(Enabled(bitmap, lens), msgs, send);
  }

  /* ---- What is left of the filter ---- */

  /** What the firmware keeps after a message: enabling replaces, appending adds, disabling clears. */
  function Apply(kept: seq<nat>, m: Message): seq<nat> {
    match m.command
    case DisAll => []
    case EnWow => m.rules
    case EnWowAppend => kept + m.rules
  }

  /** What an empty firmware keeps after these transmissions; one that fails changes nothing. */
  function Kept(msgs: seq<Message>, send: nat -> int): seq<nat> {
    if msgs == [] then []
    else
      var before, n := Kept(msgs[..|msgs| - 1], send), |msgs| - 1;
      if send(n) == 0 then Apply(before, msgs[n]) else before
  }

  /** Only the last batch can be empty, and it is exactly for a multiple of twenty. */
  lemma {:induction false} BatchesLast(idx: seq<nat>)
    ensures Batches(idx) != []
    ensures forall k :: 0 <= k < |Batches(idx)| - 1 ==> Batches(idx)[k] != []
    ensures Batches(idx)[|Batches(idx)| - 1] == [] <==> |idx| % BATCH == 0
  {
    if |idx| >= BATCH {
      BatchesLast(idx[BATCH..]);
    }
  }

  lemma {:induction false} ConcatLast(batches: seq<seq<nat>>)
    requires batches != []
    ensures Concat(batches) == Concat(batches[..|batches| - 1]) + batches[|batches| - 1]
  {
    var n := |batches| - 1;
    if n == 0 {
      assert batches[1..] == [] && batches[..0] == [];
    } else {
      ConcatLast(batches[1..]);
      assert batches[1..][..n - 1] == batches[..n][1..];
      assert batches[0] + (Concat(batches[1..n]) + batches[n]) == batches[0] + Concat(batches[1..n]) + batches[n];
    }
  }

  predicate Arrives(send: nat -> int, n: nat) {
    forall k :: 0 <= k < n ==> send(k) == 0
  }

  /** As long as no message is empty, the firmware collects the rules in order, and all of them if each one arrives. */
  lemma {:induction false} KeptConcat(msgs: seq<Message>, send: nat -> int)
    requires Commanded(msgs, EnWow) && forall k :: 0 <= k < |msgs| ==> msgs[k].rules != []
    ensures |Kept(msgs, send)| <= |Concat(Contents(msgs))|
    ensures Kept(msgs, send) == Concat(Contents(msgs)) <==> Arrives(send, |msgs|)
    ensures !Arrives(send, |msgs|) ==> |Kept(msgs, send)| < |Concat(Contents(msgs))|
  {
    if msgs != [] {
      var front, n := msgs[..|msgs| - 1], |msgs| - 1;
      KeptConcat(front, send);
      assert Contents(front) == Contents(msgs)[..n];
      ConcatLast(Contents(msgs));
      assert Arrives(send, |msgs|) <==> Arrives(send, n) && send(n) == 0;
      if n == 0 {
        assert Concat(Contents(front)) == [] && Kept(front, send) == [];
      }
    }
  }

  /** When an empty firmware is left with all the rules of `n` messages. */
  predicate Reaches(idx: seq<nat>, n: nat, send: nat -> int) {
    || idx == []
    || (|idx| % BATCH != 0 && Arrives(send, n))
    || (|idx| % BATCH == 0 && 0 < n && Arrives(send, n - 1) && send(n - 1) != 0)
  }

  /** The messages without the last, when that one is empty. */
  lemma FrontKept(idx: seq<nat>, msgs: seq<Message>, send: nat -> int)
    requires Contents(msgs) == Batches(idx) && Commanded(msgs, EnWow) && |idx| % BATCH == 0
    ensures msgs != []
    ensures var front := msgs[..|msgs| - 1];
            && Kept(msgs, send) == (if send(|msgs| - 1) == 0 then [] else Kept(front, send))
            && (Kept(front, send) == idx <==> Arrives(send, |front|))
  {
    BatchesLast(idx);
    BatchesExact(idx);
    var n := |msgs| - 1;
    var front := msgs[..n];
    assert msgs[n].rules == Contents(msgs)[n];
    forall k | 0 <= k < n ensures front[k].rules != [] {
      assert front[k].rules == Contents(msgs)[k];
    }
    KeptConcat(front, send);
    assert Contents(front) == Contents(msgs)[..n];
    ConcatLast(Contents(msgs));
  }

  /**
   The firmware is left with all rules sent if and only if every message arrives and their number
   is not a multiple of twenty; for a multiple of twenty the last message is empty and disables
   everything, so that the filter survives exactly if that one, and no other, is lost.
   */
  lemma {:induction false} SendingExact(idx: seq<nat>, msgs: seq<Message>, send: nat -> int)
    requires Contents(msgs) == Batches(idx) && Commanded(msgs, EnWow)
    ensures msgs != [] && (msgs[|msgs| - 1].command.DisAll? <==> |idx| % BATCH == 0)
    ensures Kept(msgs, send) == idx <==> Reaches(idx, |msgs|, send)
    ensures |idx| % BATCH == 0 && send(|msgs| - 1) == 0 ==> Kept(msgs, send) == []
  {
    BatchesLast(idx);
    BatchesExact(idx);
    assert msgs[|msgs| - 1].rules == Contents(msgs)[|msgs| - 1];
    if |idx| % BATCH != 0 {
      forall k | 0 <= k < |msgs| ensures msgs[k].rules != [] {
        assert msgs[k].rules == Contents(msgs)[k];
      }
      KeptConcat(msgs, send);
    } else {
      FrontKept(idx, msgs, send);
      if idx == [] {
        NothingKept(msgs, send);
      }
    }
  }

  lemma NothingKept(msgs: seq<Message>, send: nat -> int)
    requires Contents(msgs) == Batches([]) && Commanded(msgs, EnWow)
    ensures Kept(msgs, send) == []
  {
    assert |msgs| == |Contents(msgs)| == 1;
    assert msgs[..0] == [] && Kept([], send) == [];
    assert msgs[0].rules == Contents(msgs)[0] == [];
  }

  /** A result of zero means that all rules have arrived, whatever happens on the way, exactly below twenty rules. */
  lemma {:induction false} FilterHonest(idx: seq<nat>, msgs: seq<Message>)
    requires Contents(msgs) == Batches(idx) && Commanded(msgs, EnWow)
    ensures msgs != []
    ensures (forall send: nat -> int :: Told(idx, msgs, send)) <==> |idx| < BATCH
  {
    BatchesExact(idx);
    if |idx| < BATCH {
      forall send: nat -> int ensures Told(idx, msgs, send) {
        SendingExact(idx, msgs, send);
      }
    } else {
      var send := (k: nat) => if k == 0 then -1 else 0;
      SendingExact(idx, msgs, send);
      assert send(0) != 0 && send(|msgs| - 1) == 0;
      assert !Arrives(send, |msgs|);
      assert !Told(idx, msgs, send);
    }
  }

  /** If the last transmission succeeds, the firmware has all rules. */
  predicate Told(idx: seq<nat>, msgs: seq<Message>, send: nat -> int) {
    msgs != [] && send(|msgs| - 1) == 0 ==> Kept(msgs, send) == idx
  }

  lemma {:induction false} LowBits(n: nat, base: nat)
    ensures BitsFrom(Pow2(n) - 1, base) == seq(n, k requires 0 <= k => base + k)
  {
    if n > 0 {
      LowBits(n - 1, base + 1);
      assert (Pow2(n) - 1) / 2 == Pow2(n - 1) - 1;
    }
  }

  lemma {:induction false} Pow2Less(m: nat, n: nat)
    requires m < n
    ensures Pow2(m) < Pow2(n)
  {
    if m + 1 < n {
      Pow2Less(m, n - 1);
    }
  }

  function UpTo(n: nat): (s: seq<nat>)
    ensures |s| == n
  {
    seq(n, k requires 0 <= k => k)
  }

  /** The map with the `n` lowest bits set. */
  function Low(n: nat): nat {
    Pow2(n) - 1
  }

  lemma LowEnabled(n: nat, lens: seq<nat>)
    requires n < MAX_RULES == |lens| && forall k :: 0 <= k < |lens| ==> Sendable(lens[k])
    ensures Table(Low(n), lens) && Enabled(Low(n), lens) == UpTo(n)
  {
    LowBits(n, 0);
    Pow2Less(n, MAX_RULES);
    assert Bits(Low(n)) == UpTo(n);
    FitAll(UpTo(n), lens);
  }

  /**
   The twenty lowest rules, enabled together, go out whole and are switched off by the message after
   them, with every transmission successful.
   */
  method TwentyRulesVanish(lens: seq<nat>, send: nat -> int) returns (msgs: seq<Message>, ret: int)
    requires |lens| == MAX_RULES && forall k :: 0 <= k < |lens| ==> Sendable(lens[k])
    requires forall k :: send(k) == 0
    ensures Contents(msgs) == [UpTo(20), []] && Commanded(msgs, EnWow) && Kept(msgs, send) == [] && ret == 0
  {
    LowEnabled(20, lens);
    msgs, ret := SendFilter(Low(20), lens, send);
    SendingExact(UpTo(20), msgs, send);
    TwoBatches(UpTo(20));
  }

  lemma TwoBatches(idx: seq<nat>)
    requires |idx| == BATCH
    ensures Batches(idx) == [idx, []]
  {
    assert idx[..BATCH] == idx && idx[BATCH..] == [];
    assert Batches([]) == [[]];
  }

  /** What the driver makes of the firmware's rule position. */
  function Remapped(bitmap: nat, count: nat): nat {
    if count >= MAX_RULES then 255
    else if count < |Bits(bitmap)| then Bits(bitmap)[count]
    else if Bits(bitmap) == [] then 0 else Bits(bitmap)[|Bits(bitmap)| - 1]
  }

  /** The walk has seen `count` indices before this one, or all of them. */
  lemma RemapSeen(bitmap: nat, count: nat, seen: seq<nat>, rest: seq<nat>)
    requires count < MAX_RULES && Bits(bitmap) == seen + rest
    requires |seen| == count + 1 || (rest == [] && |seen| <= count)
    ensures Remapped(bitmap, count) == if seen == [] then 0 else seen[|seen| - 1]
  {
  }

  method RemapIdx(bitmap: nat, count: nat) returns (idx: nat)
    requires bitmap < Pow2(MAX_RULES)
    ensures idx == Remapped(bitmap, count)
  {
    if count >= MAX_RULES {
      return 255;
    }
    var left: nat, rules := bitmap, 0;
    idx := 0;
    ghost var seen: seq<nat> := [];
    while left != 0
      invariant left < Pow2(MAX_RULES) && rules == |seen| <= count && Bits(bitmap) == seen + Bits(left)
      invariant idx == if seen == [] then 0 else seen[|seen| - 1]
      decreases left
    {
      idx, left := TakeLowest(left);
      seen := seen + [idx];
      if rules == count {
        RemapSeen(bitmap, count, seen, Bits(left));
        return;
      }
      rules := rules + 1;
    }
    RemapSeen(bitmap, count, seen, []);
  }

  /** Positions beyond the enabled rules: the last of these up to 63, and from 64 on none. */
  lemma RemapBeyond(bitmap: nat, k: nat)
    requires bitmap < Pow2(MAX_RULES) && k >= |Bits(bitmap)|
    ensures k >= 64 ==> Remapped(bitmap, k) == 255
    ensures k < 64 && bitmap != 0 ==>
              Bit(bitmap, Remapped(bitmap, k)) && forall i :: Remapped(bitmap, k) < i ==> !Bit(bitmap, i)
    ensures k < 64 && bitmap == 0 ==> Remapped(bitmap, k) == 0
  {
    if k < 64 && bitmap != 0 {
      SomeBit(bitmap, 0);
      HighestBit(bitmap);
    }
  }

  lemma HighestBit(bitmap: nat)
    requires Bits(bitmap) != []
    ensures var last := Bits(bitmap)[|Bits(bitmap)| - 1]; Bit(bitmap, last) && forall i :: last < i ==> !Bit(bitmap, i)
  {
    var last := Bits(bitmap)[|Bits(bitmap)| - 1];
    BitsExact(bitmap, last);
    forall i | last < i ensures !Bit(bitmap, i) {
      BitAtMost(bitmap, i);
    }
  }

  lemma BitAtMost(bitmap: nat, i: nat)
    requires Bits(bitmap) != []
    ensures Bit(bitmap, i) ==> i <= Bits(bitmap)[|Bits(bitmap)| - 1]
  {
    BitsExact(bitmap, i);
    if Bit(bitmap, i) {
      var k :| 0 <= k < |Bits(bitmap)| && Bits(bitmap)[k] == i;
    }
  }

  lemma {:induction false} SomeBit(x: nat, base: nat)
    requires x > 0
    ensures BitsFrom(x, base) != []
  {
    if x % 2 == 0 {
      SomeBit(x / 2, base + 1);
    }
  }

  /**
   The k-th rule that went out, over all messages, is the one that the remapping names, and all
   enabled rules go out exactly when none is too long.
   */
  lemma RemapInverse(bitmap: nat, lens: seq<nat>, k: nat)
    requires Table(bitmap, lens)
    ensures var sent := Concat(Batches(Enabled(bitmap, lens)));
            && sent <= Bits(bitmap)
            && (k < |sent| ==> sent[k] == Remapped(bitmap, k))
            && (sent == Bits(bitmap) <==> forall i :: 0 <= i < MAX_RULES && Bit(bitmap, i) ==> lens[i] <= 1395)
  {
    var idx := Bits(bitmap);
    BitsBound(bitmap, 0, MAX_RULES);
    BatchesExact(Enabled(bitmap, lens));
    FitAll(idx, lens);
    if forall i :: 0 <= i < MAX_RULES && Bit(bitmap, i) ==> Sendable(lens[i]) {
      forall j | 0 <= j < |idx|
        ensures Sendable(lens[idx[j]])
      {
        BitsExact(bitmap, idx[j]);
      }
    }
    if forall j :: 0 <= j < |idx| ==> Sendable(lens[idx[j]]) {
      forall i | 0 <= i < MAX_RULES && Bit(bitmap, i)
        ensures Sendable(lens[i])
      {
        BitsExact(bitmap, i);
      }
    }
  }
}
