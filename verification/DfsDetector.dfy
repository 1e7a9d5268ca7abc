/**
 The radar pulse detector of one rule, as functions on values: interval matching, the
 live candidate sequences, the two nested scans that build new ones, and the pulse queue.
 DfsRuns states what holds over whole runs; DfsDriver holds the imperative form.
 */
module DfsDetector {

  const PRI_TOLERANCE: nat := 16
  const TWO32: nat := 0x1_0000_0000
  const TWO64: nat := 0x1_0000_0000_0000_0000

  datatype Rule = Rule(widthMin: nat, widthMax: nat, priMin: nat, priMax: nat, nrPri: nat,
                       ppb: nat, ppbThresh: nat, tolerance: nat, chirp: bool)

  datatype Pulse = Pulse(ts: nat, width: nat, chirp: bool)

  /** One candidate pulse-repetition-interval sequence. */
  datatype Pseq = Pseq(pri: nat, dur: nat, count: nat, falses: nat, firstTs: nat, lastTs: nat, deadlineTs: nat)

  /**
   `pulses` is newest first. `log` records the pulses taken in since the last reset; the driver
   keeps it as ghost state.
   */
  datatype Detector = Detector(lastTs: nat, count: nat, pulses: seq<nat>, seqs: seq<Pseq>, log: seq<Pulse>)

  /** What every rule of the three tables satisfies; see TablesWellFormed. */
  predicate WellFormed(r: Rule) {
    && r.widthMin <= r.widthMax < 256 && r.tolerance == PRI_TOLERANCE
    && r.tolerance < r.priMin <= r.priMax < 0x1_0000
    && 1 <= r.ppb < 256
    && 1 <= r.ppbThresh <= r.ppb
    && 1 <= r.nrPri < 256
  }

  /* ---- The rule tables ---- */

  function PpbThresh(ppb: nat, rate: nat): nat
    requires rate <= 100
  {
    (ppb * rate + 100 - rate) / 100
  }

  function IntervalRule(wMin: nat, wMax: nat, pMin: nat, pMax: nat, prf: nat, ppb: nat, rate: nat, chirp: bool): Rule
    requires PRI_TOLERANCE <= pMin && rate <= 100
  {
    Rule((wMin * 95 + 50) / 100, (wMax * 105 + 50) / 100, pMin - PRI_TOLERANCE, pMax * prf + PRI_TOLERANCE,
         prf, ppb * prf, PpbThresh(ppb, rate), PRI_TOLERANCE, chirp)
  }

  function PrfToPri(prf: nat): nat
    requires 0 < prf
  {
    (1000000 + prf / 2) / prf
  }

  /** The ETSI table gives frequencies, so the largest one bounds the smallest interval. */
  function FrequencyRule(wMin: nat, wMax: nat, fMin: nat, fMax: nat, prf: nat, ppb: nat): Rule
    requires 0 < fMin && 0 < fMax && PRI_TOLERANCE <= PrfToPri(fMax)
  {
    IntervalRule(wMin, wMax, PrfToPri(fMax), PrfToPri(fMin), prf, ppb, 50, false)
  }

  function EtsiRules(): seq<Rule> {
    [FrequencyRule(0, 1, 700, 700, 1, 18), FrequencyRule(0, 5, 200, 1000, 1, 10),
     FrequencyRule(0, 15, 200, 1600, 1, 15), FrequencyRule(0, 15, 2300, 4000, 1, 25),
     FrequencyRule(20, 30, 2000, 4000, 1, 20), FrequencyRule(0, 2, 300, 400, 3, 10),
     FrequencyRule(0, 2, 400, 1200, 3, 15)]
  }

  function FccRules(): seq<Rule> {
    [IntervalRule(0, 1, 1428, 1428, 1, 18, 50, false), IntervalRule(0, 1, 518, 938, 1, 57, 50, false),
     IntervalRule(0, 1, 938, 2000, 1, 27, 50, false), IntervalRule(0, 1, 2000, 3066, 1, 18, 50, false),
     IntervalRule(0, 5, 150, 230, 1, 23, 50, false), IntervalRule(6, 10, 200, 500, 1, 16, 50, false),
     IntervalRule(11, 20, 200, 500, 1, 12, 50, false), IntervalRule(50, 100, 1000, 2000, 1, 1, 50, true),
     IntervalRule(0, 1, 333, 333, 1, 9, 50, false)]
  }

  function JpRules(): seq<Rule> {
    [IntervalRule(0, 1, 1428, 1428, 1, 18, 29, false), IntervalRule(2, 3, 3846, 3846, 1, 18, 29, false),
     IntervalRule(0, 1, 1388, 1388, 1, 18, 50, false), IntervalRule(0, 4, 4000, 4000, 1, 18, 50, false),
     IntervalRule(0, 5, 150, 230, 1, 23, 50, false), IntervalRule(6, 10, 200, 500, 1, 16, 50, false),
     IntervalRule(11, 20, 200, 500, 1, 12, 50, false), IntervalRule(50, 100, 1000, 2000, 1, 3, 50, true),
     IntervalRule(0, 1, 333, 333, 1, 9, 50, false)]
  }

  lemma EtsiWellFormed()
    ensures forall r :: r in EtsiRules() ==> WellFormed(r)
  {
  }

  lemma FccWellFormed()
    ensures forall r :: r in FccRules() ==> WellFormed(r)
  {
  }

  lemma JpWellFormed()
    ensures forall r :: r in JpRules() ==> WellFormed(r)
  {
  }

  lemma TablesWellFormed()
    ensures forall r :: r in EtsiRules() || r in FccRules() || r in JpRules() ==> WellFormed(r)
  {
    EtsiWellFormed();
    FccWellFormed();
    JpWellFormed();
  }

  /* ---- Interval matching ---- */

  /** C's conversion of a 64-bit difference to u32. */
  function U32(x: int): nat {
    x % TWO32
  }

  /** `val` lies within `tolerance` of `k` intervals. */
  predicate Within(val: nat, k: nat, fraction: nat, tolerance: nat) {
    0 - tolerance <= val - k * fraction <= tolerance
  }

  ghost predicate NearMultiple(val: nat, fraction: nat, tolerance: nat) {
    exists k: nat :: 0 < k && Within(val, k, fraction, tolerance)
  }

  function Multiple(val: nat, fraction: nat, tolerance: nat): nat {
    if fraction == 0 then 0
    else
      var delta := if val < fraction then fraction - val else val - fraction;
      if delta <= tolerance then 1
      else
        var factor := val / fraction;
        var remainder := val % fraction;
        if remainder > tolerance then
          if fraction - remainder <= tolerance then factor + 1 else 0
        else factor
  }

  /** The quotient and its successor are the only multiples that can be closest. */
  lemma NearestMultiples(val: nat, k: nat, fraction: nat)
    requires 0 < fraction && 0 < k
    ensures k <= val / fraction ==> val - k * fraction >= val % fraction
    ensures k > val / fraction ==> k * fraction - val >= fraction - val % fraction
  {
    var f, r := val / fraction, val % fraction;
    assert val == f * fraction + r;
    if k <= f {
      assert (f - k) * fraction >= 0;
    } else {
      assert (k - f - 1) * fraction >= 0;
    }
  }

  lemma MultipleSound(val: nat, fraction: nat, tolerance: nat)
    requires 0 < fraction && Multiple(val, fraction, tolerance) > 0
    ensures Within(val, Multiple(val, fraction, tolerance), fraction, tolerance)
  {
    var f, r := val / fraction, val % fraction;
    assert val == f * fraction + r;
    assert (f + 1) * fraction == f * fraction + fraction;
  }

  lemma MultipleZero(val: nat, fraction: nat, tolerance: nat)
    requires 0 < fraction && Multiple(val, fraction, tolerance) == 0
    ensures fraction - val % fraction > tolerance && (val % fraction > tolerance || val / fraction == 0)
  {
    if val / fraction == 0 {
      assert val == val / fraction * fraction + val % fraction;
    }
  }

  lemma MultipleComplete(val: nat, k: nat, fraction: nat, tolerance: nat)
    requires 0 < fraction && 0 < k && Multiple(val, fraction, tolerance) == 0
    ensures !Within(val, k, fraction, tolerance)
  {
    NearestMultiples(val, k, fraction);
    MultipleZero(val, fraction, tolerance);
  }

  /** A positive result is a multiple within tolerance, and zero means that there is none. */
  lemma {:induction false} MultipleExact(val: nat, fraction: nat, tolerance: nat)
    requires 0 < fraction
    ensures Multiple(val, fraction, tolerance) > 0 ==>
              Within(val, Multiple(val, fraction, tolerance), fraction, tolerance)
    ensures Multiple(val, fraction, tolerance) > 0 <==> NearMultiple(val, fraction, tolerance)
  {
    if Multiple(val, fraction, tolerance) > 0 {
      MultipleSound(val, fraction, tolerance);
    } else {
      forall k: nat | 0 < k ensures !Within(val, k, fraction, tolerance) {
        MultipleComplete(val, k, fraction, tolerance);
      }
    }
  }

  /* ---- Live sequences ---- */

  function Bump(ps: Pseq, ts: nat, tolerance: nat): Pseq {
    if Multiple(U32(ts - ps.lastTs), ps.pri, tolerance) > 0
    then ps.(lastTs := ts, count := ps.count + 1)
    else ps.(falses := ps.falses + 1)
  }

  /** Expired sequences go; the others count the pulse as a match or as a false one. */
  function Extend(seqs: seq<Pseq>, ts: nat, tolerance: nat): seq<Pseq> {
    if seqs == [] then []
    else if ts > seqs[0].deadlineTs then Extend(seqs[1..], ts, tolerance)
    else [Bump(seqs[0], ts, tolerance)] + Extend(seqs[1..], ts, tolerance)
  }

  function Max(a: nat, b: nat): nat {
    if a < b then b else a
  }

  /** The largest count that this pulse brought a live sequence to. */
  function BestCount(seqs: seq<Pseq>, ts: nat, tolerance: nat): nat {
    if seqs == [] then 0
    else if ts > seqs[0].deadlineTs || Multiple(U32(ts - seqs[0].lastTs), seqs[0].pri, tolerance) == 0
    then BestCount(seqs[1..], ts, tolerance)
    else Max(seqs[0].count + 1, BestCount(seqs[1..], ts, tolerance))
  }

  /** The sequences that this pulse finds alive. */
  function Live(seqs: seq<Pseq>, ts: nat): seq<Pseq> {
    if seqs == [] then []
    else (if ts <= seqs[0].deadlineTs then [seqs[0]] else []) + Live(seqs[1..], ts)
  }

  predicate Current(seqs: seq<Pseq>, ts: nat) {
    forall i :: 0 <= i < |seqs| ==> seqs[i].lastTs <= ts && 0 < seqs[i].pri
  }

  /** The pulse comes any positive number of intervals after the last one counted. */
  ghost predicate Matches(ps: Pseq, ts: nat, tolerance: nat) {
    ps.lastTs <= ts && NearMultiple(ts - ps.lastTs, ps.pri, tolerance)
  }

  /** A match raises the count and moves the last timestamp, a miss raises the false count. */
  ghost predicate Followed(live: seq<Pseq>, out: seq<Pseq>, ts: nat, tolerance: nat) {
    && |out| == |live|
    && forall i :: 0 <= i < |live| ==>
         out[i] == if Matches(live[i], ts, tolerance) then live[i].(lastTs := ts, count := live[i].count + 1)
                   else live[i].(falses := live[i].falses + 1)
  }

  /** `best` is the largest count that a match was raised to, and zero without a match. */
  ghost predicate Largest(live: seq<Pseq>, ts: nat, tolerance: nat, best: nat) {
    && (forall i :: 0 <= i < |live| && Matches(live[i], ts, tolerance) ==> live[i].count + 1 <= best)
    && (best == 0 || exists i :: 0 <= i < |live| && Matches(live[i], ts, tolerance) && live[i].count + 1 == best)
  }

  lemma MatchesExact(ps: Pseq, ts: nat, tolerance: nat)
    requires ps.lastTs <= ts < TWO32 && 0 < ps.pri
    ensures Matches(ps, ts, tolerance) <==> Multiple(U32(ts - ps.lastTs), ps.pri, tolerance) > 0
  {
    MultipleExact(ts - ps.lastTs, ps.pri, tolerance);
  }

  lemma LargestMore(live: seq<Pseq>, ps: Pseq, ts: nat, tolerance: nat, best: nat)
    requires Largest(live, ts, tolerance, best)
    ensures Largest([ps] + live, ts, tolerance, if Matches(ps, ts, tolerance) then Max(ps.count + 1, best) else best)
  {
    var all := [ps] + live;
    assert forall i :: 0 < i < |all| ==> all[i] == live[i - 1];
    if best != 0 {
      var i :| 0 <= i < |live| && Matches(live[i], ts, tolerance) && live[i].count + 1 == best;
      assert all[i + 1] == live[i];
    }
    assert all[0] == ps;
  }

  lemma FollowedMore(live: seq<Pseq>, out: seq<Pseq>, ps: Pseq, q: Pseq, ts: nat, tolerance: nat)
    requires Followed(live, out, ts, tolerance) && Followed([ps], [q], ts, tolerance)
    ensures Followed([ps] + live, [q] + out, ts, tolerance)
  {
    var all, outs := [ps] + live, [q] + out;
    assert [ps][0] == ps && [q][0] == q;
    assert forall i :: 0 < i < |all| ==> all[i] == live[i - 1] && outs[i] == out[i - 1];
  }

  lemma BumpFollows(ps: Pseq, ts: nat, tolerance: nat)
    requires ps.lastTs <= ts < TWO32 && 0 < ps.pri
    ensures Followed([ps], [Bump(ps, ts, tolerance)], ts, tolerance)
  {
    MatchesExact(ps, ts, tolerance);
  }

  lemma {:induction false} ExtendFollows(seqs: seq<Pseq>, ts: nat, tolerance: nat)
    requires Current(seqs, ts) && ts < TWO32
    ensures Followed(Live(seqs, ts), Extend(seqs, ts, tolerance), ts, tolerance)
  {
    if seqs != [] {
      var rest := seqs[1..];
      ExtendFollows(rest, ts, tolerance);
      if ts <= seqs[0].deadlineTs {
        BumpFollows(seqs[0], ts, tolerance);
        FollowedMore(Live(rest, ts), Extend(rest, ts, tolerance), seqs[0], Bump(seqs[0], ts, tolerance), ts, tolerance);
      }
    }
  }

  lemma {:induction false} BestIsLargest(seqs: seq<Pseq>, ts: nat, tolerance: nat)
    requires Current(seqs, ts) && ts < TWO32
    ensures Largest(Live(seqs, ts), ts, tolerance, BestCount(seqs, ts, tolerance))
  {
    if seqs != [] {
      BestIsLargest(seqs[1..], ts, tolerance);
      BestStep(seqs, ts, tolerance);
      if ts <= seqs[0].deadlineTs {
        LargestMore(Live(seqs[1..], ts), seqs[0], ts, tolerance, BestCount(seqs[1..], ts, tolerance));
        assert Live(seqs, ts) == [seqs[0]] + Live(seqs[1..], ts);
      } else {
        assert Live(seqs, ts) == Live(seqs[1..], ts);
      }
    }
  }

  lemma BestStep(seqs: seq<Pseq>, ts: nat, tolerance: nat)
    requires seqs != [] && Current(seqs, ts) && ts < TWO32
    ensures var rest := BestCount(seqs[1..], ts, tolerance);
            BestCount(seqs, ts, tolerance)
            == if ts > seqs[0].deadlineTs || !Matches(seqs[0], ts, tolerance) then rest
               else Max(seqs[0].count + 1, rest)
  {
    MatchesExact(seqs[0], ts, tolerance);
  }

  /** What a pulse does to the live sequences. */
  lemma {:induction false} ExtendExact(seqs: seq<Pseq>, ts: nat, tolerance: nat)
    requires Current(seqs, ts) && ts < TWO32
    ensures Followed(Live(seqs, ts), Extend(seqs, ts, tolerance), ts, tolerance)
    ensures Largest(Live(seqs, ts), ts, tolerance, BestCount(seqs, ts, tolerance))
  {
    ExtendFollows(seqs, ts, tolerance);
    BestIsLargest(seqs, ts, tolerance);
  }

  /* ---- New sequences ---- */

  function PriToUse(r: Rule, delta: nat): nat {
    if r.priMin + PRI_TOLERANCE == r.priMax - PRI_TOLERANCE then r.priMin + PRI_TOLERANCE else delta
  }

  function Duration(r: Rule, pri: nat): nat
    requires 1 <= r.ppb
  {
    pri * (r.ppb - 1) + 2 * r.tolerance
  }

  /** `ts - dur` in unsigned 64-bit arithmetic. */
  function MinValid(ts: nat, dur: nat): nat
    requires ts < TWO64 && dur < TWO64
  {
    if dur <= ts then ts - dur else ts - dur + TWO64
  }

  datatype Scan = Scan(count: nat, firstTs: nat, falses: nat, pending: nat)

  /** Which past pulses fit an interval, seen from `ts`. */
  function Fits(ts: nat, pri: nat, tolerance: nat): nat -> bool {
    p => Multiple(U32(ts - p), pri, tolerance) > 0
  }

  /** A past pulse fits if it lies any positive number of intervals back. */
  lemma FitsExact(ts: nat, pri: nat, tolerance: nat, p: nat)
    requires p <= ts < TWO32 && 0 < pri
    ensures Fits(ts, pri, tolerance)(p) <==> NearMultiple(ts - p, pri, tolerance)
  {
    MultipleExact(ts - p, pri, tolerance);
    Narrow(ts, p);
    assert Fits(ts, pri, tolerance)(p) <==> Multiple(U32(ts - p), pri, tolerance) > 0;
  }

  /** The inner scan over the pulses older than the seed; it stops at the window border. */
  function ScanOlder(older: seq<nat>, fits: nat -> bool, minValid: nat, acc: Scan): Scan {
    if older == [] || older[0] < minValid then acc
    else if fits(older[0])
    then ScanOlder(older[1..], fits, minValid, Scan(acc.count + 1, older[0], acc.falses + acc.pending, 0))
    else ScanOlder(older[1..], fits, minValid, acc.(pending := acc.pending + 1))
  }

  function Sequence(pri: nat, dur: nat, s: Scan, ts: nat): Pseq {
    Pseq(pri, dur, s.count, s.falses, s.firstTs, ts, s.firstTs + dur)
  }

  /** The sequence of interval `pri` that starts with `seed` and counts the older pulses that fit. */
  function BuildWith(r: Rule, seed: nat, older: seq<nat>, ts: nat, pri: nat): Pseq
    requires WellFormed(r) && ts < TWO32 && pri < TWO32
  {
    DurationFits(r, pri);
    var dur := Duration(r, pri);
    Sequence(pri, dur, ScanOlder(older, Fits(ts, pri, r.tolerance), MinValid(ts, dur), Scan(2, seed, 0, 0)), ts)
  }

  /** The sequence seeded by the newest of `pulses`. */
  function Build(r: Rule, pulses: seq<nat>, ts: nat): Pseq
    requires pulses != [] && WellFormed(r) && ts < TWO32
  {
    BuildWith(r, pulses[0], pulses[1..], ts, PriToUse(r, U32(ts - pulses[0])))
  }

  lemma DurationFits(r: Rule, pri: nat)
    requires WellFormed(r) && pri < TWO32
    ensures Duration(r, pri) < TWO32 * 256
  {
    MulBound(pri, r.ppb - 1, TWO32, 255);
  }

  lemma MulBound(a: nat, b: nat, x: nat, y: nat)
    requires a <= x && b <= y
    ensures a * b <= x * y
  {
    assert a * b <= a * y;
    assert a * y <= x * y;
  }

  /** The outer scan: a later sequence is put in front of an earlier one. */
  function Create(r: Rule, pulses: seq<nat>, ts: nat, minCount: nat): seq<Pseq>
    requires WellFormed(r) && ts < TWO32
  {
    if pulses == [] || U32(ts - pulses[0]) > r.priMax then []
    else if U32(ts - pulses[0]) < r.priMin then Create(r, pulses[1..], ts, minCount)
    else Create(r, pulses[1..], ts, minCount) + Seeded(r, pulses, ts, minCount)
  }

  /** The sequence seeded by the newest pulse here, if it counts more pulses than `minCount`. */
  function Seeded(r: Rule, pulses: seq<nat>, ts: nat, minCount: nat): seq<Pseq>
    requires WellFormed(r) && pulses != [] && ts < TWO32
  {
    if Build(r, pulses, ts).count > minCount then [Build(r, pulses, ts)] else []
  }

  lemma Narrow(ts: nat, earlier: nat)
    requires earlier <= ts < TWO32
    ensures U32(ts - earlier) == ts - earlier
  {
  }

  /* ---- The scans are plain filters ---- */

  /** Newest first, neighbours at least `gap` apart. */
  predicate Spaced(pulses: seq<nat>, gap: nat) {
    forall i, j :: 0 <= i < j < |pulses| ==> pulses[i] >= pulses[j] + gap
  }

  predicate AtMost(pulses: seq<nat>, bound: int) {
    forall i :: 0 <= i < |pulses| ==> pulses[i] <= bound
  }

  /** Every pulse of the window that fits the interval, no matter where it stands. */
  function Hits(older: seq<nat>, fits: nat -> bool, minValid: nat): seq<nat> {
    if older == [] then []
    else if minValid <= older[0] && fits(older[0]) then [older[0]] + Hits(older[1..], fits, minValid)
    else Hits(older[1..], fits, minValid)
  }

  /** How many pulses newer than `bound` do not fit. */
  function Misses(older: seq<nat>, fits: nat -> bool, bound: nat): nat {
    if older == [] then 0
    else (if older[0] > bound && !fits(older[0]) then 1 else 0) + Misses(older[1..], fits, bound)
  }

  lemma {:induction false} HitsMembers(older: seq<nat>, fits: nat -> bool, minValid: nat)
    ensures forall i :: 0 <= i < |Hits(older, fits, minValid)| ==>
                          var p := Hits(older, fits, minValid)[i]; p in older && minValid <= p && fits(p)
    ensures forall i :: 0 <= i < |older| && minValid <= older[i] && fits(older[i]) ==>
        older[i] in Hits(older, fits, minValid)
    ensures |Hits(older, fits, minValid)| <= |older|
  {
    if older != [] {
      HitsMembers(older[1..], fits, minValid);
    }
  }

  lemma {:induction false} HitsSpaced(older: seq<nat>, fits: nat -> bool, minValid: nat, gap: nat)
    requires Spaced(older, gap)
    ensures Spaced(Hits(older, fits, minValid), gap)
  {
    if older != [] {
      HitsSpaced(older[1..], fits, minValid, gap);
      HitsMembers(older[1..], fits, minValid);
    }
  }

  lemma {:induction false} HitsAtMost(older: seq<nat>, fits: nat -> bool, minValid: nat, bound: int)
    requires AtMost(older, bound)
    ensures AtMost(Hits(older, fits, minValid), bound)
  {
    if older != [] {
      HitsAtMost(older[1..], fits, minValid, bound);
    }
  }

  lemma {:induction false} NoHits(older: seq<nat>, fits: nat -> bool, minValid: nat)
    requires AtMost(older, minValid - 1)
    ensures Hits(older, fits, minValid) == []
  {
    if older != [] {
      NoHits(older[1..], fits, minValid);
    }
  }

  lemma {:induction false} NoneNewer(older: seq<nat>, fits: nat -> bool, bound: nat)
    requires AtMost(older, bound)
    ensures Misses(older, fits, bound) == 0
  {
    if older != [] {
      NoneNewer(older[1..], fits, bound);
    }
  }

  function OldestOr(h: seq<nat>, default: nat): nat {
    if h == [] then default else h[|h| - 1]
  }

  lemma {:induction false} ScanOlderMatches(older: seq<nat>, fits: nat -> bool, minValid: nat, acc: Scan)
    requires Spaced(older, 1)
    ensures var s := ScanOlder(older, fits, minValid, acc);
            var h := Hits(older, fits, minValid);
            s.count == acc.count + |h| && s.firstTs == OldestOr(h, acc.firstTs)
  {
    if older == [] {
    } else if older[0] < minValid {
      NoHits(older, fits, minValid);
    } else if fits(older[0]) {
      ScanOlderMatches(older[1..], fits, minValid, Scan(acc.count + 1, older[0], acc.falses + acc.pending, 0));
    } else {
      ScanOlderMatches(older[1..], fits, minValid, acc.(pending := acc.pending + 1));
    }
  }

  /** The non-matches that stand before the oldest match. */
  function FalsesOf(older: seq<nat>, fits: nat -> bool, h: seq<nat>, falses: nat, pending: nat): nat {
    if h == [] then falses else falses + pending + Misses(older, fits, OldestOr(h, 0))
  }

  lemma FalsesStep(older: seq<nat>, fits: nat -> bool, minValid: nat, falses: nat, pending: nat)
    requires Spaced(older, 1) && older != [] && minValid <= older[0]
    ensures var h := Hits(older[1..], fits, minValid);
            FalsesOf(older, fits, Hits(older, fits, minValid), falses, pending)
            == if fits(older[0]) then FalsesOf(older[1..], fits, h, falses + pending, 0)
               else FalsesOf(older[1..], fits, h, falses, pending + 1)
  {
    var newest: int := older[0];
    HitsAtMost(older[1..], fits, minValid, newest - 1);
    if fits(older[0]) {
      NoneNewer(older[1..], fits, older[0]);
    }
  }

  lemma {:induction false} ScanOlderFalses(older: seq<nat>, fits: nat -> bool, minValid: nat, acc: Scan)
    requires Spaced(older, 1)
    ensures ScanOlder(older, fits, minValid, acc).falses
         == FalsesOf(older, fits, Hits(older, fits, minValid), acc.falses, acc.pending)
  {
    if older == [] {
    } else if older[0] < minValid {
      NoHits(older, fits, minValid);
    } else {
      FalsesStep(older, fits, minValid, acc.falses, acc.pending);
      if fits(older[0]) {
        ScanOlderFalses(older[1..], fits, minValid, Scan(acc.count + 1, older[0], acc.falses + acc.pending, 0));
      } else {
        ScanOlderFalses(older[1..], fits, minValid, acc.(pending := acc.pending + 1));
      }
    }
  }

  /** Exactly the pulses at a distance in [priMin, priMax] seed a sequence. */
  function CreatePlain(r: Rule, pulses: seq<nat>, ts: nat, minCount: nat): seq<Pseq>
    requires WellFormed(r) && ts < TWO32
  {
    if pulses == [] then []
    else
      var delta := U32(ts - pulses[0]);
      var rest := CreatePlain(r, pulses[1..], ts, minCount);
      if r.priMin <= delta <= r.priMax && Build(r, pulses, ts).count > minCount then rest + [Build(r, pulses, ts)]
      else rest
  }

  lemma {:induction false} CreateIsFilter(r: Rule, pulses: seq<nat>, ts: nat, minCount: nat)
    requires WellFormed(r) && ts < TWO32
    requires Spaced(pulses, 1) && AtMost(pulses, ts)
    ensures Create(r, pulses, ts, minCount) == CreatePlain(r, pulses, ts, minCount)
  {
    if pulses != [] {
      var rest := pulses[1..];
      assert Spaced(rest, 1);
      Narrow(ts, pulses[0]);
      CreateIsFilter(r, rest, ts, minCount);
      if U32(ts - pulses[0]) > r.priMax {
        TooOld(r, rest, ts, minCount);
      }
    }
  }

  lemma {:induction false} TooOld(r: Rule, pulses: seq<nat>, ts: nat, minCount: nat)
    requires WellFormed(r) && ts < TWO32
    requires AtMost(pulses, ts - r.priMax - 1)
    ensures CreatePlain(r, pulses, ts, minCount) == []
  {
    if pulses != [] {
      TooOld(r, pulses[1..], ts, minCount);
    }
  }

  /** The older pulses within `dur` of `ts` that fit. */
  function InWindow(older: seq<nat>, ts: nat, pri: nat, tolerance: nat, dur: nat): seq<nat> {
    Hits(older, Fits(ts, pri, tolerance), if dur <= ts then ts - dur else 0)
  }

  /**
   The count of a new sequence is two plus the matches within its duration exactly when the window
   border does not wrap below zero, or when there was nothing to count.
   */
  lemma {:induction false} BuildCountExact(r: Rule, pulses: seq<nat>, ts: nat)
    requires WellFormed(r) && ts < TWO32 && pulses != []
    requires Spaced(pulses, 1) && AtMost(pulses, ts)
    ensures var ps := Build(r, pulses, ts);
            var w := InWindow(pulses[1..], ts, ps.pri, r.tolerance, ps.dur);
            && (ps.count == 2 + |w| <==> (ps.dur <= ts || w == []))
            && (ps.dur <= ts ==>
                  && ps.firstTs == OldestOr(w, pulses[0])
                  && ps.falses == (if w == [] then 0
                                   else Misses(pulses[1..], Fits(ts, ps.pri, r.tolerance), ps.firstTs)))
            && (ts < ps.dur ==> ps.count == 2 && ps.firstTs == pulses[0] && ps.falses == 0)
  {
    var ps := Build(r, pulses, ts);
    var older := pulses[1..];
    var fits := Fits(ts, ps.pri, r.tolerance);
    DurationFits(r, ps.pri);
    ScanOlderMatches(older, fits, MinValid(ts, ps.dur), Scan(2, pulses[0], 0, 0));
    ScanOlderFalses(older, fits, MinValid(ts, ps.dur), Scan(2, pulses[0], 0, 0));
    if ts < ps.dur {
      WrapsAbove(r, ts, ps.pri);
      NoHits(older, fits, MinValid(ts, ps.dur));
    }
  }

  /** A wrapped window border lies above every timestamp. */
  lemma WrapsAbove(r: Rule, ts: nat, pri: nat)
    requires WellFormed(r) && pri < TWO32 && ts < TWO32
    requires ts < Duration(r, pri) < TWO64
    ensures MinValid(ts, Duration(r, pri)) > TWO32
  {
    DurationFits(r, pri);
  }

  /* ---- Detection and the pulse queue ---- */

  predicate Confident(r: Rule, ps: Pseq) {
    ps.count >= r.ppbThresh && ps.count * r.nrPri >= ps.falses
  }

  /** The position of the first sequence with enough confidence, or the length if there is none. */
  function FirstConfident(r: Rule, seqs: seq<Pseq>): (n: nat)
    ensures n <= |seqs|
    ensures n < |seqs| ==> Confident(r, seqs[n])
    ensures forall i :: 0 <= i < n ==> !Confident(r, seqs[i])
  {
    if seqs == [] then 0
    else if Confident(r, seqs[0]) then 0
    else
      var n := FirstConfident(r, seqs[1..]);
      assert forall i :: 0 < i < n + 1 ==> seqs[i] == seqs[1..][i - 1];
      n + 1
  }

  function WindowSize(r: Rule): nat {
    r.priMax * r.ppb * r.nrPri
  }

  function MaxCount(r: Rule): nat {
    r.ppb * 2
  }

  /** Drops pulses from the old end while they are older than `minValid`. */
  function AgeOut(pulses: seq<nat>, minValid: nat): seq<nat> {
    if pulses == [] || pulses[|pulses| - 1] >= minValid then pulses
    else AgeOut(pulses[..|pulses| - 1], minValid)
  }

  function CheckWindow(r: Rule, pulses: seq<nat>, lastTs: nat): seq<nat> {
    if |pulses| < 2 || lastTs <= WindowSize(r) then pulses else AgeOut(pulses, lastTs - WindowSize(r))
  }

  function DropLast(pulses: seq<nat>): seq<nat> {
    if pulses == [] then [] else pulses[..|pulses| - 1]
  }

  function Enqueue(r: Rule, pulses: seq<nat>, ts: nat): seq<nat> {
    var q := CheckWindow(r, [ts] + pulses, ts);
    if |q| >= MaxCount(r) then DropLast(q) else q
  }

  /* ---- One pulse on one detector ---- */

  datatype Outcome = Ignored | Taken | OutOfMemory | Radar

  function Reset(ts: nat): Detector {
    Detector(ts, 0, [], [], [])
  }

  predicate Accepts(r: Rule, p: Pulse) {
    r.widthMin <= p.width <= r.widthMax && (r.chirp ==> p.chirp)
  }

  /** The pulse passes the rule's filters and comes late enough after the last one taken. */
  predicate Eligible(r: Rule, d: Detector, p: Pulse) {
    Accepts(r, p) && (p.ts - d.lastTs) % TWO64 >= r.tolerance
  }

  /** The sequences that a pulse adds. */
  function Added(r: Rule, pulses: seq<nat>, seqs: seq<Pseq>, ts: nat): seq<Pseq>
    requires WellFormed(r) && ts < TWO32
  {
    Create(r, pulses, ts, BestCount(seqs, ts, r.tolerance))
  }

  /** The sequences after a pulse: new ones in front of the extended ones. */
  function NewSeqs(r: Rule, pulses: seq<nat>, seqs: seq<Pseq>, ts: nat): seq<Pseq>
    requires WellFormed(r) && ts < TWO32
  {
    Added(r, pulses, seqs, ts) + Extend(seqs, ts, r.tolerance)
  }

  function Record(r: Rule, d: Detector, p: Pulse, seqs: seq<Pseq>, noPulse: bool): Detector {
    if noPulse then d.(seqs := seqs, log := d.log + [p])
    else
      var q := Enqueue(r, d.pulses, p.ts);
      Detector(p.ts, |q|, q, seqs, d.log + [p])
  }

  /** `noSeq` and `noPulse` say that memory for a sequence or for the queue entry was refused. */
  function Process(r: Rule, d: Detector, p: Pulse, noSeq: bool, noPulse: bool): (Detector, Outcome)
    requires WellFormed(r) && p.ts < TWO32
  {
    if !Eligible(r, d, p) then (d, Ignored)
    else if noSeq && Added(r, d.pulses, d.seqs, p.ts) != [] then (Reset(p.ts), OutOfMemory)
    else
      var seqs := NewSeqs(r, d.pulses, d.seqs, p.ts);
      if FirstConfident(r, seqs) < |seqs| then (d, Radar) else (Record(r, d, p, seqs, noPulse), Taken)
  }
}
