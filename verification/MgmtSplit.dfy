/**
 Management frames that are too long for one command. A radio measurement report is cut between
 its elements, each message carrying the frame header again; any other frame is cut by length.
 */
module MgmtSplit {
  import opened Basics

  const LIMIT: nat := 1500
  const HEAD: nat := 27          // offset of the first element in a measurement report

  function ElemLen(body: seq<Byte>): (n: nat)
    requires 2 <= |body|
    ensures 2 <= n <= 257
  {
    body[1] as int + 2
  }

  /** The element list of a body: id, length, then that many bytes (section 9.4.2.1 of IEEE Std 802.11-2020). */
  function Elements(body: seq<Byte>): Option<seq<seq<Byte>>>
    decreases |body|
  {
    if body == [] then Some([])
    else if |body| < 2 || |body| < ElemLen(body) then None
    else
      match Elements(body[ElemLen(body)..])
      case None => None
      case Some(rest) => Some([body[..ElemLen(body)]] + rest)
  }

  function Flat(parts: seq<seq<Byte>>): seq<Byte> {
    if parts == [] then [] else parts[0] + Flat(parts[1..])
  }

  predicate Short(elems: seq<seq<Byte>>) {
    forall i :: 0 <= i < |elems| ==> 2 <= |elems[i]| <= 257
  }

  /** Reading the elements of a body and joining them gives the body. */
  lemma {:induction false} ElementsFlat(body: seq<Byte>)
    ensures Elements(body).Some? ==> Flat(Elements(body).value) == body && Short(Elements(body).value)
    decreases |body|
  {
    if 2 <= |body| && ElemLen(body) <= |body| {
      var n := ElemLen(body);
      ElementsFlat(body[n..]);
      if Elements(body[n..]).Some? {
        var rest := Elements(body[n..]).value;
        assert ([body[..n]] + rest)[1..] == rest;
        assert body == body[..n] + body[n..];
      }
    }
  }

  /** Consecutive elements fill a message as long as it stays below the limit. */
  function Pack(elems: seq<seq<Byte>>, cur: seq<seq<Byte>>): seq<seq<seq<Byte>>>
    requires Short(elems)
    decreases |elems|, |cur|
  {
    if elems == [] then (if cur == [] then [] else [cur])
    else if |Flat(cur)| + HEAD + |elems[0]| < LIMIT then Pack(elems[1..], cur + [elems[0]])
    else [cur] + Pack(elems, [])
  }

  function Join(groups: seq<seq<seq<Byte>>>): seq<seq<Byte>> {
    if groups == [] then [] else groups[0] + Join(groups[1..])
  }

  lemma {:induction false} FlatAppend(parts: seq<seq<Byte>>, e: seq<Byte>)
    ensures Flat(parts + [e]) == Flat(parts) + e
  {
    if parts == [] {
      assert parts + [e] == [e] && [e][1..] == [];
    } else {
      FlatAppend(parts[1..], e);
      assert (parts + [e])[1..] == parts[1..] + [e];
    }
  }

  /**
   Every message holds whole elements and at least one, stays below the limit, and together they
   are all elements in order.
   */
  lemma {:induction false} PackExact(elems: seq<seq<Byte>>, cur: seq<seq<Byte>>)
    requires Short(elems) && |Flat(cur)| + HEAD < LIMIT
    ensures Join(Pack(elems, cur)) == cur + elems
    ensures forall k :: 0 <= k < |Pack(elems, cur)| ==>
        Pack(elems, cur)[k] != [] && HEAD + |Flat(Pack(elems, cur)[k])| < LIMIT
    decreases |elems|, |cur|
  {
    if elems == [] {
      assert cur + elems == cur;
      if cur != [] {
        assert [cur][1..] == [];
      }
    } else if |Flat(cur)| + HEAD + |elems[0]| < LIMIT {
      FlatAppend(cur, elems[0]);
      PackExact(elems[1..], cur + [elems[0]]);
      assert cur + [elems[0]] + elems[1..] == cur + elems;
    } else {
      PackExact(elems, []);
      var rest := Pack(elems, []);
      assert ([cur] + rest)[1..] == rest;
      assert [] + elems == elems;
    }
  }

  /** The header with the elements of each group. */
  function Messages(head: seq<Byte>, groups: seq<seq<seq<Byte>>>): seq<seq<Byte>> {
    if groups == [] then [] else [head + Flat(groups[0])] + Messages(head, groups[1..])
  }

  lemma {:induction false} MessagesAppend(head: seq<Byte>, groups: seq<seq<seq<Byte>>>, g: seq<seq<Byte>>)
    ensures Messages(head, groups + [g]) == Messages(head, groups) + [head + Flat(g)]
  {
    if groups == [] {
      assert groups + [g] == [g] && [g][1..] == [];
    } else {
      MessagesAppend(head, groups[1..], g);
      assert (groups + [g])[1..] == groups[1..] + [g];
    }
  }

  /* ---- The report loop ---- */

  /** From here on, what is still to be packed and sent. */
  ghost predicate Ahead(body: seq<Byte>, rest: Option<seq<seq<Byte>>>, sent: seq<seq<seq<Byte>>>, cur: seq<seq<Byte>>) {
    match rest
    case None => Elements(body).None?
    case Some(es) =>
      && Elements(body).Some? && Short(es) && Short(Elements(body).value)
      && Pack(Elements(body).value, []) == sent + Pack(es, cur)
  }

  /** The next element joins the current message. */
  lemma AheadTake(body: seq<Byte>, tail: seq<Byte>, sent: seq<seq<seq<Byte>>>, cur: seq<seq<Byte>>)
    requires tail != [] && Ahead(body, Elements(tail), sent, cur)
    requires 2 <= |tail| && |Flat(cur)| + HEAD + ElemLen(tail) < LIMIT
    ensures |tail| < ElemLen(tail) ==> Elements(body).None?
    ensures ElemLen(tail) <= |tail| ==>
        Ahead(body, Elements(tail[ElemLen(tail)..]), sent, cur + [tail[..ElemLen(tail)]])
  {
    if ElemLen(tail) <= |tail| && Elements(tail).Some? {
      var es := Elements(tail).value;
      assert es[1..] == Elements(tail[ElemLen(tail)..]).value;
    }
  }

  /** The current message is full. */
  lemma AheadFlush(body: seq<Byte>, tail: seq<Byte>, sent: seq<seq<seq<Byte>>>, cur: seq<seq<Byte>>)
    requires tail != [] && Ahead(body, Elements(tail), sent, cur)
    requires 2 <= |tail| && |Flat(cur)| + HEAD + ElemLen(tail) >= LIMIT
    ensures Ahead(body, Elements(tail), sent + [cur], [])
  {
    if Elements(tail).Some? {
      assert sent + ([cur] + Pack(Elements(tail).value, [])) == sent + [cur] + Pack(Elements(tail).value, []);
    }
  }

  lemma AheadDone(body: seq<Byte>, sent: seq<seq<seq<Byte>>>, cur: seq<seq<Byte>>)
    requires Ahead(body, Elements([]), sent, cur) && cur != []
    ensures Elements(body).Some? && Short(Elements(body).value) && Pack(Elements(body).value, []) == sent + [cur]
  {
  }

  /** The walk is at `next`, with the elements from `pos` on waiting to be sent and `left` bytes ahead. */
  ghost predicate Walking(frame: seq<Byte>, pos: nat, next: nat, elemLen: nat, left: int, sent: seq<seq<seq<Byte>>>,
                          cur: seq<seq<Byte>>)
  {
    && HEAD <= pos && next == pos + elemLen && left > 0 && next + left == |frame|
    && elemLen + HEAD < LIMIT && (elemLen == 0 <==> cur == [])
    && Flat(cur) == frame[pos..next] && Ahead(frame[HEAD..], Elements(frame[next..]), sent, cur)
  }

  lemma WalkStart(frame: seq<Byte>)
    requires HEAD < |frame|
    ensures Walking(frame, HEAD, HEAD, 0, |frame| - HEAD, [], [])
  {
    var body := frame[HEAD..];
    ElementsFlat(body);
    if Elements(body).Some? {
      assert Pack(Elements(body).value, []) == [] + Pack(Elements(body).value, []);
    }
  }

  /** The next element joins the current message: the walk goes on, ends the report, or leaves the frame. */
  lemma WalkTakes(frame: seq<Byte>, pos: nat, next: nat, elemLen: nat, left: int, sent: seq<seq<seq<Byte>>>,
                  cur: seq<seq<Byte>>, n: nat)
    requires Walking(frame, pos, next, elemLen, left, sent, cur) && left >= 2 && n == frame[next + 1] as int + 2
    requires elemLen + HEAD + n < LIMIT
    ensures n > left ==> Elements(frame[HEAD..]).None?
    ensures n <= left ==>
              var more := cur + [frame[next..next + n]];
              && Flat(more) == frame[pos..pos + (elemLen + n)]
              && (n < left ==> Walking(frame, pos, next + n, elemLen + n, left - n, sent, more))
              && (n == left ==> Whole(frame[HEAD..], sent + [more]))
  {
    var body, tail := frame[HEAD..], frame[next..];
    assert n == ElemLen(tail);
    AheadTake(body, tail, sent, cur);
    if n <= left {
      var e := frame[next..next + n];
      assert tail[..n] == e && tail[n..] == frame[next + n..];
      FlatAppend(cur, e);
      assert frame[pos..next] + e == frame[pos..next + n];
      if n == left {
        assert frame[next + n..] == [];
        AheadDone(body, sent, cur + [e]);
      }
    }
  }

  /** The current message is full and goes out. */
  lemma WalkFlushes(frame: seq<Byte>, pos: nat, next: nat, elemLen: nat, left: int, sent: seq<seq<seq<Byte>>>,
                    cur: seq<seq<Byte>>, n: nat)
    requires Walking(frame, pos, next, elemLen, left, sent, cur) && left >= 2 && n == frame[next + 1] as int + 2
    requires elemLen + HEAD + n >= LIMIT
    ensures elemLen > 0 && Walking(frame, next, next, 0, left, sent + [cur], [])
    ensures Flat(cur) == frame[pos..pos + elemLen]
  {
    var tail := frame[next..];
    assert n == ElemLen(tail) <= 257;
    AheadFlush(frame[HEAD..], tail, sent, cur);
  }

  /** The body is a list of elements, and these are its messages. */
  ghost predicate Whole(body: seq<Byte>, sent: seq<seq<seq<Byte>>>) {
    Elements(body).Some? && Short(Elements(body).value) && Pack(Elements(body).value, []) == sent
  }

  lemma WalkBreaks(frame: seq<Byte>, pos: nat, next: nat, elemLen: nat, left: int, sent: seq<seq<seq<Byte>>>,
                   cur: seq<seq<Byte>>)
    requires Walking(frame, pos, next, elemLen, left, sent, cur) && left < 2
    ensures Elements(frame[HEAD..]).None?
  {
    assert |frame[next..]| == 1;
  }

  /** The next element joins the message, finds it full, or is not there. */
  datatype Found = Joins | Full | Broken

  method NextElement(frame: seq<Byte>, pos: nat, next: nat, elemLen: nat, left: int,
                     ghost sent: seq<seq<seq<Byte>>>, ghost cur: seq<seq<Byte>>)
    returns (found: Found, n: nat)
    requires Walking(frame, pos, next, elemLen, left, sent, cur)
    ensures found.Broken? ==> Elements(frame[HEAD..]).None?
    ensures found.Joins? ==>
              && 0 < n <= left
              && var more := cur + [frame[next..next + n]];
                 && Flat(more) == frame[pos..pos + (elemLen + n)]
                 && (n < left ==> Walking(frame, pos, next + n, elemLen + n, left - n, sent, more))
                 && (n == left ==> Whole(frame[HEAD..], sent + [more]))
    ensures found.Full? ==>
              && elemLen > 0 && Flat(cur) == frame[pos..pos + elemLen]
              && Walking(frame, next, next, 0, left, sent + [cur], [])
  {
    n := 0;
    if left < 2 {
      WalkBreaks(frame, pos, next, elemLen, left, sent, cur);
      return Broken, n;
    }
    n := frame[next + 1] as int + 2;
    if elemLen + HEAD + n >= LIMIT {
      WalkFlushes(frame, pos, next, elemLen, left, sent, cur, n);
      return Full, n;
    }
    WalkTakes(frame, pos, next, elemLen, left, sent, cur, n);
    found := if n > left then Broken else Joins;
  }

  /** The messages that got through: `send(k)` is the result of the k-th send, counted from `k`, and zero is success. */
  function Accepted(msgs: seq<seq<Byte>>, send: nat -> int, k: nat): seq<seq<Byte>>
    decreases |msgs|
  {
    if msgs == [] then []
    else if send(k) == 0 then [msgs[0]] + Accepted(msgs[1..], send, k + 1)
    else Accepted(msgs[1..], send, k + 1)
  }

  /** Everything got through exactly if no send failed. */
  lemma {:induction false} AcceptedAll(msgs: seq<seq<Byte>>, send: nat -> int, k: nat)
    ensures |Accepted(msgs, send, k)| <= |msgs|
    ensures Accepted(msgs, send, k) == msgs <==> forall i :: k <= i < k + |msgs| ==> send(i) == 0
    decreases |msgs|
  {
    if msgs != [] {
      AcceptedAll(msgs[1..], send, k + 1);
      assert msgs == [msgs[0]] + msgs[1..];
      if forall i :: k <= i < k + |msgs| ==> send(i) == 0 {
        assert send(k) == 0;
      }
    }
  }

  lemma {:induction false} AcceptedMore(msgs: seq<seq<Byte>>, m: seq<Byte>, send: nat -> int, k: nat)
    ensures Accepted(msgs + [m], send, k) == Accepted(msgs, send, k) + if send(k + |msgs|) == 0 then [m] else []
    decreases |msgs|
  {
    if msgs == [] {
      assert msgs + [m] == [m] && [m][1..] == [];
    } else {
      AcceptedMore(msgs[1..], m, send, k + 1);
      assert (msgs + [m])[1..] == msgs[1..] + [m];
    }
  }

  /** The messages of a report whose body is a list of elements. */
  function Report(frame: seq<Byte>): seq<seq<Byte>>
    requires HEAD <= |frame| && Elements(frame[HEAD..]).Some?
  {
    ElementsFlat(frame[HEAD..]);
    Messages(frame[..HEAD], Pack(Elements(frame[HEAD..]).value, []))
  }

  /**
   Splits a report; `memory` says that there is a buffer and `send(k)` is the result of the k-th
   send. The walk stays inside the frame exactly when the body is a list of whole elements; `ok`
   says that it did, and then the messages are those of the report, whatever the sends return.
   The loop keeps its results in a variable of its own, so the caller is told 0 in any case, and
   that is the truth exactly if there was memory and no send failed.
   */
  method SplitReport(frame: seq<Byte>, memory: bool, send: nat -> int)
    returns (ok: bool, msgs: seq<seq<Byte>>, accepted: seq<seq<Byte>>, ret: int)
    requires HEAD <= |frame|
    ensures ret == 0
    ensures !memory ==> ok && msgs == [] && accepted == []
    ensures memory ==> (ok <==> Elements(frame[HEAD..]).Some?)
    ensures memory && ok ==> msgs == Report(frame)
    ensures accepted == Accepted(msgs, send, 0)
    ensures Elements(frame[HEAD..]).Some? && HEAD < |frame| ==>
              (accepted == Report(frame) <==> memory && forall k :: 0 <= k < |msgs| ==> send(k) == 0)
  {
    ok, msgs, accepted, ret := true, [], [], 0;
    if HEAD < |frame| && Elements(frame[HEAD..]).Some? {
      NotEmpty(frame);
    }
    if !memory {
      return;
    }
    ghost var sent;
    ok, msgs, accepted, sent := WalkReport(frame, send);
    AcceptedAll(msgs, send, 0);
  }

  /** A body of elements takes at least one message. */
  lemma NotEmpty(frame: seq<Byte>)
    requires HEAD < |frame| && Elements(frame[HEAD..]).Some?
    ensures Report(frame) != []
  {
    var elems := Elements(frame[HEAD..]).value;
    ElementsFlat(frame[HEAD..]);
    PackExact(elems, []);
    assert elems != [];
    assert Pack(elems, []) != [];
  }

  /** The elements from `pos` on are to go out; after that the walk goes on at `next`, or the report is done. */
  ghost predicate Ready(frame: seq<Byte>, pos: nat, next: nat, elemLen: nat, left: int, sent: seq<seq<seq<Byte>>>,
                        cur: seq<seq<Byte>>)
    requires HEAD <= |frame|
  {
    && HEAD <= pos && pos + elemLen <= |frame| && Flat(cur) == frame[pos..pos + elemLen]
    && On(frame, next, next, 0, left, sent + [cur], [])
  }

  /** One round of the loop up to the send: `ready` says that there is something to send. */
  method Collect(frame: seq<Byte>, pos: nat, next0: nat, elemLen0: nat, left0: int,
                 ghost sent: seq<seq<seq<Byte>>>, ghost cur0: seq<seq<Byte>>)
    returns (broken: bool, ready: bool, next: nat, elemLen: nat, left: int, ghost cur: seq<seq<Byte>>)
    requires HEAD <= |frame| && Walking(frame, pos, next0, elemLen0, left0, sent, cur0)
    ensures broken ==> Elements(frame[HEAD..]).None?
    ensures !broken && ready ==> Ready(frame, pos, next, elemLen, left, sent, cur)
    ensures !broken && !ready ==> left != 0 && On(frame, pos, next, elemLen, left, sent, cur)
    ensures !broken ==> 0 <= left < left0 || (ready && left == left0 && elemLen0 > 0)
  {
    next, elemLen, left, cur := next0, elemLen0, left0, cur0;
    var found, n := NextElement(frame, pos, next, elemLen, left, sent, cur);
    broken, ready := found.Broken?, true;
    if found.Joins? {
      cur := cur + [frame[next..next + n]];
      elemLen, left, next := elemLen + n, left - n, next + n;
      ready := left == 0;
    }
  }

  method WalkReport(frame: seq<Byte>, send: nat -> int)
    returns (ok: bool, msgs: seq<seq<Byte>>, accepted: seq<seq<Byte>>, ghost sent: seq<seq<seq<Byte>>>)
    requires HEAD <= |frame|
    ensures ok ==> Whole(frame[HEAD..], sent)
    ensures !ok ==> Elements(frame[HEAD..]).None?
    ensures msgs == Messages(frame[..HEAD], sent) && accepted == Accepted(msgs, send, 0)
  {
    ghost var cur := [];
    ok, msgs, accepted, sent := true, [], [], [];
    var left: int, elemLen: nat, pos: nat, next: nat := |frame| - HEAD, 0, HEAD, HEAD;
    OnStart(frame);
    while left != 0
      invariant left >= 0 && On(frame, pos, next, elemLen, left, sent, cur)
      invariant msgs == Messages(frame[..HEAD], sent) && accepted == Accepted(msgs, send, 0)
      decreases left, elemLen
    {
      var broken, ready;
      broken, ready, next, elemLen, left, cur := Collect(frame, pos, next, elemLen, left, sent, cur);
      if broken {
        ok := false;
        return;
      }
      if !ready {
        continue;
      }
      msgs, accepted := SendPart(frame, pos, elemLen, msgs, accepted, send, sent, cur);
      sent, cur := sent + [cur], [];
      pos, elemLen := next, 0;
    }
  }

  /** The walk goes on, or the report is done. */
  ghost predicate On(frame: seq<Byte>, pos: nat, next: nat, elemLen: nat, left: int, sent: seq<seq<seq<Byte>>>,
                     cur: seq<seq<Byte>>)
    requires HEAD <= |frame|
  {
    if left != 0 then Walking(frame, pos, next, elemLen, left, sent, cur) else Whole(frame[HEAD..], sent)
  }

  lemma OnStart(frame: seq<Byte>)
    requires HEAD <= |frame|
    ensures On(frame, HEAD, HEAD, 0, |frame| - HEAD, [], [])
  {
    if HEAD < |frame| {
      WalkStart(frame);
    }
  }

  /** The header goes out again with the elements from `pos` on. */
  method SendPart(frame: seq<Byte>, pos: nat, len: nat, before: seq<seq<Byte>>, through: seq<seq<Byte>>,
                  send: nat -> int, ghost sent: seq<seq<seq<Byte>>>, ghost cur: seq<seq<Byte>>)
    returns (msgs: seq<seq<Byte>>, accepted: seq<seq<Byte>>)
    requires HEAD <= pos && pos + len <= |frame| && Flat(cur) == frame[pos..pos + len]
    requires before == Messages(frame[..HEAD], sent) && through == Accepted(before, send, 0)
    ensures msgs == Messages(frame[..HEAD], sent + [cur]) && accepted == Accepted(msgs, send, 0)
  {
    MessagesAppend(frame[..HEAD], sent, cur);
    var m := frame[..HEAD] + frame[pos..pos + len];
    AcceptedMore(before, m, send, 0);
    msgs := before + [m];
    accepted := if send(|before|) == 0 then through + [m] else through;
  }

  /* ---- A failure that the caller is not told of ---- */

  function Element(): (e: seq<Byte>)
    ensures |e| == 202 && e[1] == 200
  {
    [0, 200] + seq(200, _ => 0)
  }

  function Body(n: nat): (body: seq<Byte>)
    ensures |body| == 202 * n
  {
    if n == 0 then [] else Element() + Body(n - 1)
  }

  lemma {:induction false} BodyReads(n: nat)
    ensures Elements(Body(n)).Some?
  {
    if n > 0 {
      BodyReads(n - 1);
      assert Body(n)[1] == Element()[1];
      assert ElemLen(Body(n)) == 202 && Body(n)[202..] == Body(n - 1);
    }
  }

  lemma {:induction false} NoneAccepted(msgs: seq<seq<Byte>>, send: nat -> int, k: nat)
    requires forall i :: k <= i < k + |msgs| ==> send(i) != 0
    ensures Accepted(msgs, send, k) == []
    decreases |msgs|
  {
    if msgs != [] {
      assert send(k) != 0;
      NoneAccepted(msgs[1..], send, k + 1);
    }
  }

  /** A report of `n` elements, too long for any bus, and no send gets through: the caller is told 0. */
  method FailureUntold(head: seq<Byte>, n: nat, send: nat -> int) returns (accepted: seq<seq<Byte>>, ret: int)
    requires |head| == HEAD && 8 <= n && forall k :: send(k) != 0
    ensures Elements((head + Body(n))[HEAD..]).Some? && Report(head + Body(n)) != []
    ensures accepted == [] && ret == 0
  {
    var frame := head + Body(n);
    assert frame[HEAD..] == Body(n);
    BodyReads(n);
    NotEmpty(frame);
    var ok, msgs;
    ok, msgs, accepted, ret := SplitReport(frame, true, send);
    NoneAccepted(msgs, send, 0);
  }

  /** The messages of a well-formed report: whole consecutive elements, all of them, each message short enough. */
  lemma ReportSplit(frame: seq<Byte>)
    requires HEAD <= |frame| && Elements(frame[HEAD..]).Some?
    ensures var elems := Elements(frame[HEAD..]).value;
            && Short(elems) && Flat(elems) == frame[HEAD..]
            && var groups := Pack(elems, []);
               && Join(groups) == elems
               && |Messages(frame[..HEAD], groups)| == |groups|
               && forall k :: 0 <= k < |groups| ==>
                                && groups[k] != []
                                && Messages(frame[..HEAD], groups)[k] == frame[..HEAD] + Flat(groups[k])
                                && |Messages(frame[..HEAD], groups)[k]| < LIMIT
  {
    var elems := Elements(frame[HEAD..]).value;
    ElementsFlat(frame[HEAD..]);
    PackExact(elems, []);
    assert [] + elems == elems;
    MessagesAt(frame[..HEAD], Pack(elems, []));
  }

  lemma {:induction false} MessagesAt(head: seq<Byte>, groups: seq<seq<seq<Byte>>>)
    ensures |Messages(head, groups)| == |groups|
    ensures forall k :: 0 <= k < |groups| ==> Messages(head, groups)[k] == head + Flat(groups[k])
  {
    if groups != [] {
      MessagesAt(head, groups[1..]);
    }
  }

  /* ---- Any other frame ---- */

  function Chunks(frame: seq<Byte>): seq<seq<Byte>> {
    if frame == [] then []
    else if |frame| < LIMIT then [frame]
    else [frame[..LIMIT]] + Chunks(frame[LIMIT..])
  }

  /** The parts are the frame, only the last one is short, and there are no more than needed. */
  lemma {:induction false} ChunksExact(frame: seq<Byte>)
    ensures Flat(Chunks(frame)) == frame
    ensures |Chunks(frame)| == (|frame| + LIMIT - 1) / LIMIT
    ensures forall k :: 0 <= k < |Chunks(frame)| ==> 0 < |Chunks(frame)[k]| <= LIMIT
    ensures forall k :: 0 <= k < |Chunks(frame)| - 1 ==> |Chunks(frame)[k]| == LIMIT
  {
    if frame == [] {
    } else if |frame| < LIMIT {
      assert [frame][1..] == [];
    } else {
      ChunksExact(frame[LIMIT..]);
      assert Chunks(frame)[1..] == Chunks(frame[LIMIT..]);
      assert frame == frame[..LIMIT] + frame[LIMIT..];
    }
  }

  /** The parts so far, and the chunks of the rest, are the chunks of the frame. */
  predicate Cut(frame: seq<Byte>, parts: seq<seq<Byte>>, data: nat) {
    data <= |frame| && Chunks(frame) == parts + Chunks(frame[data..])
  }

  lemma ChunkStep(frame: seq<Byte>, data: nat, n: nat)
    requires data < |frame| && n == if |frame| - data < LIMIT then |frame| - data else LIMIT
    ensures Chunks(frame[data..]) == [frame[data..data + n]] + Chunks(frame[data + n..])
  {
    var rest := frame[data..];
    assert rest[..n] == frame[data..data + n] && rest[n..] == frame[data + n..];
    assert n == |rest| ==> rest[..n] == rest && rest[n..] == [];
  }

  lemma MovePart(a: seq<seq<Byte>>, x: seq<Byte>, b: seq<seq<Byte>>)
    ensures a + ([x] + b) == (a + [x]) + b && a + [x] <= (a + [x]) + b
  {
  }

  lemma CutMore(frame: seq<Byte>, parts: seq<seq<Byte>>, data: nat, n: nat)
    requires Cut(frame, parts, data) && data < |frame|
    requires n == if |frame| - data < LIMIT then |frame| - data else LIMIT
    ensures var more := parts + [frame[data..data + n]];
            Cut(frame, more, data + n) && more <= Chunks(frame)
  {
    ChunkStep(frame, data, n);
    MovePart(parts, frame[data..data + n], Chunks(frame[data + n..]));
  }

  lemma CutDone(frame: seq<Byte>, parts: seq<seq<Byte>>)
    requires Cut(frame, parts, |frame|)
    ensures parts == Chunks(frame)
  {
    assert frame[|frame|..] == [];
  }

  /** Sends part after part until one fails; `fails` says which sends do. */
  method SplitPlain(frame: seq<Byte>, fails: nat -> bool) returns (ok: bool, parts: seq<seq<Byte>>)
    ensures parts <= Chunks(frame)
    ensures ok ==> parts == Chunks(frame)
    ensures ok <==> forall k :: 0 <= k < |Chunks(frame)| ==> !fails(k)
    ensures !ok ==> parts != [] && fails(|parts| - 1) && forall k :: 0 <= k < |parts| - 1 ==> !fails(k)
  {
    var data: nat, remain: nat := 0, |frame|;
    parts := [];
    assert frame[0..] == frame;
    while remain > 0
      invariant data + remain == |frame| && Cut(frame, parts, data)
      invariant forall k :: 0 <= k < |parts| ==> !fails(k)
    {
      var sendLen := if remain < LIMIT then remain else LIMIT;
      CutMore(frame, parts, data, sendLen);
      remain := remain - sendLen;
      parts := parts + [frame[data..data + sendLen]];
      if fails(|parts| - 1) {
        return false, parts;
      }
      data := data + sendLen;
    }
    CutDone(frame, parts);
    ok := true;
  }
}
