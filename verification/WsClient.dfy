/**
  The write and close state machine of a websocket connection
  (src/net/ws_client.cc). Resolving, connecting, TLS and reading are events; what
  is handed to the stream is recorded in order.
*/
module WsClient {

  datatype Phase = Idle | Connecting | Open | Closed

  /** What the stream is asked to do, and the completion of a write. */
  datatype Op = Write(payload: string) | Done | Close

  /**
    The connection's fields, with the payloads given to Send so far, the operations
    on the stream so far, and how often on_close was called. `handshake` is true
    while the websocket handshake can still complete.
  */
  datatype Conn = Conn(
    phase: Phase, finished: bool, queue: seq<string>, writing: bool, closePending: bool,
    handshake: bool, sent: seq<string>, ops: seq<Op>, closeCalls: nat)

  const INIT := Conn(Idle, false, [], false, false, false, [], [], 0)

  // ----- handlers

  /** Delivered once, whatever fails first. */
  function Finish(c: Conn): Conn {
    if c.finished then c else c.(finished := true, phase := Closed, closeCalls := c.closeCalls + 1)
  }

  function DoWrite(c: Conn): Conn {
    if c.queue == [] || c.phase != Open then c
    else c.(writing := true, ops := c.ops + [Write(c.queue[0])])
  }

  function SendIt(c: Conn, payload: string): Conn {
    var q := c.(queue := c.queue + [payload], sent := c.sent + [payload]);
    if c.phase == Open && !c.writing then DoWrite(q) else q
  }

  /** A close frame is a write, so it waits for the one in flight. */
  function CloseIt(c: Conn): Conn {
    if c.phase != Open then Finish(c)
    else if c.writing then c.(closePending := true)
    else c.(phase := Closed, ops := c.ops + [Close])
  }

  function OnWrite(c: Conn, ok: bool): Conn {
    var d := c.(writing := false, ops := c.ops + [Done]);
    if !ok then Finish(d)
    else
      var e := if d.queue == [] then d else d.(queue := d.queue[1..]);
      if e.closePending then CloseIt(e.(closePending := false))
      else if e.queue != [] then DoWrite(e)
      else e
  }

  function OnHandshake(c: Conn, ok: bool): Conn {
    var d := c.(handshake := false);
    if !ok then Finish(d) else d.(phase := Open)
  }

  /** The end of the handshake handler, after on_open has run. */
  function Flush(c: Conn): Conn {
    if !c.writing && c.queue != [] then DoWrite(c) else c
  }

  function OpenIt(c: Conn, goodUrl: bool): Conn {
    if !goodUrl then Finish(c) else c.(phase := Connecting, handshake := true)
  }

  class WsConnection {
    var phase: Phase
    var finished: bool
    var queue: seq<string>
    var writing: bool
    var closePending: bool
    ghost var handshake: bool
    ghost var sent: seq<string>
    ghost var ops: seq<Op>
    ghost var closeCalls: nat

    ghost function Now(): Conn
      reads this
    {
      Conn(phase, finished, queue, writing, closePending, handshake, sent, ops, closeCalls)
    }

    constructor ()
      ensures Now() == INIT
    {
      phase, finished, queue, writing, closePending := Idle, false, [], false, false;
      handshake, sent, ops, closeCalls := false, [], [], 0;
    }

    method DoFinish()
      modifies this
      ensures Now() == Finish(old(Now()))
      ensures old(Inv(Now())) ==> Inv(Now())
    {
      if finished {
        return;
      }
      finished := true;
      phase := Closed;
      closeCalls := closeCalls + 1;
    }

    method StartWrite()
      modifies this
      ensures Now() == DoWrite(old(Now()))
      ensures old(Inv(Now()) && !writing) ==> Inv(Now())
    {
      ghost var c := Now();
      if Inv(c) && !c.writing {
        DoWriteKeeps(c);
      }
      if queue == [] || phase != Open {
        return;
      }
      writing := true;
      ops := ops + [Write(queue[0])];
    }

    method Send(payload: string)
      modifies this
      ensures Now() == SendIt(old(Now()), payload)
      ensures old(Inv(Now())) ==> Inv(Now())
    {
      ghost var c := Now();
      if Inv(c) {
        NextKeeps(c, Sends(payload));
      }
      queue := queue + [payload];
      sent := sent + [payload];
      if phase == Open && !writing {
        StartWrite();
      }
    }

    method DoClose()
      modifies this
      ensures Now() == CloseIt(old(Now()))
      ensures old(Inv(Now())) ==> Inv(Now())
    {
      ghost var c := Now();
      if Inv(c) {
        CloseKeeps(c);
      }
      if phase != Open {
        DoFinish();
        return;
      }
      if writing {
        closePending := true;
        return;
      }
      phase := Closed;
      ops := ops + [Close];
    }

    method WriteCompleted(ok: bool)
      modifies this
      ensures Now() == OnWrite(old(Now()), ok)
      ensures old(Inv(Now()) && writing) ==> Inv(Now())
    {
      ghost var c := Now();
      if Inv(c) && c.writing {
        OnWriteKeeps(c, ok);
      }
      writing := false;
      ops := ops + [Done];
      if !ok {
        DoFinish();
        return;
      }
      if queue != [] {
        queue := queue[1..];
      }
      if closePending {
        closePending := false;
        DoClose();
        return;
      }
      if queue != [] {
        StartWrite();
      }
    }

    method HandshakeCompleted(ok: bool)
      modifies this
      ensures Now() == OnHandshake(old(Now()), ok)
      ensures old(Inv(Now()) && handshake) ==> Inv(Now())
    {
      ghost var c := Now();
      if Inv(c) && c.handshake {
        NextKeeps(c, HandshakeEnds(ok));
      }
      handshake := false;
      if !ok {
        DoFinish();
        return;
      }
      phase := Open;
    }
  }

  // ----- every order of events

  datatype Event =
    | Opens(goodUrl: bool)
    | Sends(payload: string)
    | Closes
    | HandshakeEnds(ok: bool)
    | Flushes
    | WriteEnds(ok: bool)
    | Fails                     // resolving, connecting, TLS or reading fails
    | CloseEnds                 // the close handshake completes

  predicate Enabled(c: Conn, e: Event) {
    match e
    case Opens(_) => c.phase == Idle
    case HandshakeEnds(_) => c.handshake
    case WriteEnds(_) => c.writing
    case CloseEnds => Close in c.ops
    case _ => true
  }

  function Next(c: Conn, e: Event): Conn {
    if !Enabled(c, e) then c
    else match e
      case Opens(good) => OpenIt(c, good)
      case Sends(p) => SendIt(c, p)
      case Closes => CloseIt(c)
      case HandshakeEnds(ok) => OnHandshake(c, ok)
      case Flushes => Flush(c)
      case WriteEnds(ok) => OnWrite(c, ok)
      case Fails => Finish(c.(handshake := false))
      case CloseEnds => Finish(c)
  }

  function After(es: seq<Event>): Conn {
    if es == [] then INIT else Next(After(es[..|es| - 1]), es[|es| - 1])
  }

  /** The payloads written so far, in order. */
  function Written(ops: seq<Op>): seq<string> {
    if ops == [] then []
    else if ops[|ops| - 1].Write? then Written(ops[..|ops| - 1]) + [ops[|ops| - 1].payload]
    else Written(ops[..|ops| - 1])
  }

  /**
    One write at a time, each completed before anything else starts; the close is
    the last thing asked of the stream and is never asked during a write.
  */
  ghost predicate Serialised(ops: seq<Op>) {
    && (forall i :: 0 <= i < |ops| && ops[i].Write? ==> i == 0 || ops[i - 1].Done?)
    && (forall i :: 0 <= i < |ops| && ops[i].Done? ==> i > 0 && ops[i - 1].Write?)
    && (forall i :: 0 <= i < |ops| && ops[i].Close? ==> i == |ops| - 1 && (i == 0 || ops[i - 1].Done?))
  }

  /** Whether the last operation is of the kind given. */
  predicate Last(ops: seq<Op>, write: bool) {
    ops != [] && if write then ops[|ops| - 1].Write? else ops[|ops| - 1].Close?
  }

  ghost predicate Inv(c: Conn) {
    && Serialised(c.ops)
    && (c.writing <==> Last(c.ops, true))
    && (Last(c.ops, false) ==> c.phase == Closed)
    && (c.ops != [] ==> !c.handshake)
    && (c.phase == Open ==> !c.handshake)
    && (c.phase == Idle || c.handshake ==> c.ops == [])
    && (c.phase == Idle ==> !c.handshake && !c.finished)
    && (c.phase == Connecting ==> c.handshake && !c.finished)
    && (c.phase == Closed && c.handshake ==> c.finished)
    && c.closeCalls == (if c.finished then 1 else 0)
  }

  /** A write may follow a completed write, and a completion a write. */
  lemma SerialisedPush(ops: seq<Op>, op: Op)
    requires Serialised(ops) && !Last(ops, false)
    requires op.Done? <==> Last(ops, true)
    ensures Serialised(ops + [op])
  {
  }

  lemma DoWriteKeeps(c: Conn)
    requires Inv(c) && !c.writing
    ensures Inv(DoWrite(c))
  {
  }

  lemma CloseKeeps(c: Conn)
    requires Inv(c)
    ensures Inv(CloseIt(c))
  {
  }

  lemma OnWriteKeeps(c: Conn, ok: bool)
    requires Inv(c) && c.writing
    ensures Inv(OnWrite(c, ok))
  {
    SerialisedPush(c.ops, Done);
    var d := c.(writing := false, ops := c.ops + [Done]);
    assert Inv(d);
    var e := if d.queue == [] then d else d.(queue := d.queue[1..]);
    CloseKeeps(e.(closePending := false));
    DoWriteKeeps(e);
  }

  lemma NextKeeps(c: Conn, e: Event)
    requires Inv(c)
    ensures Inv(Next(c, e))
  {
    if Enabled(c, e) {
      match e
      case Sends(p) =>
        if c.phase == Open && !c.writing {
          DoWriteKeeps(c.(queue := c.queue + [p], sent := c.sent + [p]));
        }
      case Closes => CloseKeeps(c);
      case Flushes =>
        if !c.writing {
          DoWriteKeeps(c);
        }
      case WriteEnds(ok) => OnWriteKeeps(c, ok);
      case _ =>
    }
  }

  lemma {:induction false} AlwaysInv(es: seq<Event>)
    ensures Inv(After(es))
  {
    if es != [] {
      AlwaysInv(es[..|es| - 1]);
      NextKeeps(After(es[..|es| - 1]), es[|es| - 1]);
    }
  }

  /**
    Writes are serialised over every order of events: at most one write is
    outstanding, the close is issued at most once, never during a write and with no
    data after it (section 5.5.1 of RFC 6455), and on_close is called at most once.
  */
  lemma StreamIsSerialised(es: seq<Event>)
    ensures var c := After(es);
            && Serialised(c.ops)
            && (c.writing <==> c.ops != [] && c.ops[|c.ops| - 1].Write?)
            && (forall i :: 0 <= i < |c.ops| - 1 ==> !c.ops[i].Close?)
            && c.closeCalls <= 1
  {
    AlwaysInv(es);
  }

  // ----- payload order

  lemma WrittenPush(ops: seq<Op>, op: Op)
    ensures Written(ops + [op]) == if op.Write? then Written(ops) + [op.payload] else Written(ops)
  {
  }

  /** The payloads handed to the stream are the first ones sent, in order. */
  ghost predicate InOrder(c: Conn) {
    Written(c.ops) <= c.sent
  }

  /**
    What keeps the payloads in order: while open the connection is not finished, and
    what was sent is what was written followed by what waits, the front of the queue
    being the payload in flight.
  */
  ghost predicate Ordered(c: Conn) {
    && (c.phase == Open ==> !c.finished)
    && InOrder(c)
    && (c.writing ==> c.queue != [] && Written(c.ops) + c.queue[1..] == c.sent)
    && (!c.writing && (c.phase != Closed || c.handshake) ==> Written(c.ops) + c.queue == c.sent)
  }

  lemma DoWriteOrdered(c: Conn)
    requires Ordered(c) && !c.writing
    ensures Ordered(DoWrite(c))
  {
  }

  lemma SendOrdered(c: Conn, p: string)
    requires Ordered(c)
    ensures Ordered(SendIt(c, p))
  {
    var q := c.(queue := c.queue + [p], sent := c.sent + [p]);
    if c.writing {
      assert (c.queue + [p])[1..] == c.queue[1..] + [p];
      assert Written(c.ops) + (c.queue[1..] + [p]) == q.sent;
    } else if c.phase != Closed || c.handshake {
      assert Written(c.ops) + (c.queue + [p]) == q.sent;
    }
    assert Ordered(q);
    if c.phase == Open && !c.writing {
      DoWriteOrdered(q);
    }
  }

  lemma CloseOrdered(c: Conn)
    requires Ordered(c)
    ensures Ordered(CloseIt(c))
  {
  }

  lemma OnWriteOrdered(c: Conn, ok: bool)
    requires Inv(c) && Ordered(c) && c.writing
    ensures Ordered(OnWrite(c, ok))
  {
    WrittenPush(c.ops, Done);
    var d := c.(writing := false, ops := c.ops + [Done]);
    var e := d.(queue := d.queue[1..]);
    assert Ordered(e);
    CloseOrdered(e.(closePending := false));
    DoWriteOrdered(e);
  }

  /** Only a handshake that completes on a connection already finished can break the order. */
  lemma NextOrdered(c: Conn, e: Event)
    requires Inv(c) && Ordered(c)
    requires e == HandshakeEnds(true) && c.handshake ==> !c.finished
    ensures Ordered(Next(c, e))
  {
    if Enabled(c, e) {
      match e
      case Sends(p) => SendOrdered(c, p);
      case Closes => CloseOrdered(c);
      case Flushes =>
        if !c.writing {
          DoWriteOrdered(c);
        }
      case WriteEnds(ok) => OnWriteOrdered(c, ok);
      case _ =>
    }
  }

  function Continue(c: Conn, es: seq<Event>): Conn {
    if es == [] then c else Next(Continue(c, es[..|es| - 1]), es[|es| - 1])
  }

  /** Once the handshake is over no event can bring it back. */
  lemma {:induction false} ContinueOrdered(c: Conn, es: seq<Event>)
    requires Inv(c) && Ordered(c) && !c.handshake && c.phase != Idle
    ensures var d := Continue(c, es); Inv(d) && Ordered(d) && !d.handshake && d.phase != Idle
  {
    if es != [] {
      ContinueOrdered(c, es[..|es| - 1]);
      var d := Continue(c, es[..|es| - 1]);
      NextKeeps(d, es[|es| - 1]);
      NextOrdered(d, es[|es| - 1]);
    }
  }

  /** Until the handshake completes nothing is written, so everything sent is waiting. */
  lemma {:induction false} BeforeHandshake(es: seq<Event>)
    ensures var c := After(es); Inv(c) && (c.handshake || c.phase == Idle ==> Ordered(c))
  {
    AlwaysInv(es);
    if es != [] {
      var c, e := After(es[..|es| - 1]), es[|es| - 1];
      BeforeHandshake(es[..|es| - 1]);
      if Next(c, e).handshake || Next(c, e).phase == Idle {
        assert c.handshake || c.phase == Idle;
        NextOrdered(c, e);
      }
    }
  }

  /**
    Payloads go out in the order they were sent, whatever happens after the handshake
    completes, if and only if the connection had not already been finished by then.
  */
  lemma InOrderIffNotFinishedEarly(es: seq<Event>)
    requires After(es).handshake
    ensures var c := Next(After(es), HandshakeEnds(true));
            (forall fs :: InOrder(Continue(c, fs))) <==> !After(es).finished
  {
    var b := After(es);
    var c := Next(b, HandshakeEnds(true));
    BeforeHandshake(es);
    NextKeeps(b, HandshakeEnds(true));
    if !b.finished {
      NextOrdered(b, HandshakeEnds(true));
      forall fs ensures InOrder(Continue(c, fs)) {
        ContinueOrdered(c, fs);
      }
    } else {
      LateOpenRepeats(c);
    }
  }

  /** A connection that was finished first and opened later, with a write in flight. */
  ghost predicate LateWriting(c: Conn, p: string) {
    && c.phase == Open && c.finished && c.writing && c.queue != [] && c.queue[0] == p
    && forall i :: 0 <= i < |Written(c.ops)| ==> Written(c.ops)[i] == p
  }

  /** There, a failed write leaves its payload in front, and the next Send writes it again. */
  lemma RepeatOnce(c: Conn, p: string, q: string)
    requires LateWriting(c, p)
    ensures var d := SendIt(OnWrite(c, false), q);
            LateWriting(d, p) && |Written(d.ops)| == |Written(c.ops)| + 1 && d.sent == c.sent + [q]
  {
  }

  lemma {:induction false} RepeatMany(c: Conn, p: string, q: string, m: nat) returns (fs: seq<Event>)
    requires LateWriting(c, p)
    ensures var d := Continue(c, fs);
            && LateWriting(d, p) && |Written(d.ops)| == |Written(c.ops)| + m
            && |d.sent| == |c.sent| + m && c.sent <= d.sent
            && forall i :: |c.sent| <= i < |d.sent| ==> d.sent[i] == q
  {
    if m == 0 {
      fs := [];
    } else {
      var gs := RepeatMany(c, p, q, m - 1);
      fs := gs + [WriteEnds(false)] + [Sends(q)];
      assert fs[..|fs| - 1] == gs + [WriteEnds(false)];
      assert (gs + [WriteEnds(false)])[..|gs|] == gs;
      RepeatOnce(Continue(c, gs), p, q);
    }
  }

  lemma ContinueConcat(c: Conn, es: seq<Event>, fs: seq<Event>)
    ensures Continue(c, es + fs) == Continue(Continue(c, es), fs)
    decreases |fs|
  {
    if fs == [] {
      assert es + fs == es;
    } else {
      var n := |fs| - 1;
      assert (es + fs)[..|es| + n] == es + fs[..n];
      ContinueConcat(c, es, fs[..n]);
    }
  }

  /** On a connection opened after it was finished, failed writes repeat a payload out of order. */
  lemma LateOpenRepeats(c: Conn)
    requires c.phase == Open && c.finished && !c.writing && c.ops == []
    ensures exists fs :: !InOrder(Continue(c, fs))
  {
    var e0 := Sends("a");
    var es := [e0];
    var d := Continue(c, es);
    assert es[..0] == [] && Continue(c, []) == c;
    assert d == Next(c, e0) == SendIt(c, "a");
    var p := d.queue[0];
    WrittenPush([], Write(p));
    assert [] + [Write(p)] == d.ops;
    var q := p + "x";
    var fs := RepeatMany(d, p, q, |d.sent|);
    ContinueConcat(c, es, fs);
    var e := Continue(d, fs);
    assert Written(e.ops)[|d.sent|] == p && e.sent[|d.sent|] == q;
    assert !InOrder(Continue(c, es + fs));
  }

  // ----- what gets written

  /** A completed write pops its payload; then a deferred close goes out, or else the next payload. */
  lemma WriteLeadsOn(c: Conn)
    requires c.writing && c.queue != [] && c.phase == Open
    ensures var d := Next(c, WriteEnds(true));
            && d.queue == c.queue[1..] && d.sent == c.sent && !d.closePending
            && (c.closePending ==> d.ops == c.ops + [Done] + [Close] && d.phase == Closed && !d.writing)
            && (!c.closePending && |c.queue| > 1 ==> d.ops == c.ops + [Done] + [Write(c.queue[1])] && d.writing && d.phase == Open)
            && (!c.closePending && |c.queue| == 1 ==> d.ops == c.ops + [Done] && !d.writing && d.phase == Open)
  {
  }

  /** A close during a write is deferred and goes out right behind it; otherwise it goes out at once. */
  lemma CloseGoesOut(c: Conn)
    requires c.phase == Open && (c.writing ==> c.queue != [])
    ensures !c.writing ==> Next(c, Closes).ops == c.ops + [Close]
    ensures c.writing ==> Next(Next(c, Closes), WriteEnds(true)).ops == c.ops + [Done] + [Close]
  {
    if c.writing {
      WriteLeadsOn(Next(c, Closes));
    }
  }

  /** The end of the close handshake, a failed write and any other failure report the close exactly once. */
  lemma FailureReports(c: Conn)
    requires Inv(c)
    ensures var d := Next(c, Fails); d.finished && d.closeCalls == 1 && !d.handshake
    ensures c.writing ==> Next(c, WriteEnds(false)).finished
    ensures c.handshake ==> Next(c, HandshakeEnds(false)).finished
    ensures Close in c.ops ==> Next(c, CloseEnds).finished
    ensures c.phase == Idle ==> Next(c, Opens(false)).finished
    ensures c.phase != Open ==> Next(c, Closes).finished
  {
  }

  /** Opening a good address starts a handshake. */
  lemma OpeningConnects(c: Conn)
    requires c.phase == Idle
    ensures Next(c, Opens(true)) == c.(phase := Connecting, handshake := true)
  {
  }

  /** What was queued before the handshake completes starts to go out once it does. */
  lemma OpeningFlushes(c: Conn)
    requires Inv(c) && c.handshake
    ensures var d := Next(Next(c, HandshakeEnds(true)), Flushes);
            && d.phase == Open && !d.handshake && d.queue == c.queue
            && (c.queue == [] ==> !d.writing && d.ops == [])
            && (c.queue != [] ==> d.writing && d.ops == [Write(c.queue[0])])
  {
  }

  /** A payload given to an open, idle connection goes out at once. */
  lemma SendGoesOut(c: Conn, p: string)
    requires c.phase == Open && !c.writing && c.queue == []
    ensures var d := Next(c, Sends(p)); d.writing && d.queue == [p] && d.ops == c.ops + [Write(p)]
  {
  }

  /** Completed writes, as many as wait. */
  function Completions(n: nat): seq<Event> {
    if n == 0 then [] else [WriteEnds(true)] + Completions(n - 1)
  }

  /**
    While writes succeed and nobody closes, everything sent is written: as many completions
    as payloads wait leave the queue empty and what was written equal to what was sent.
  */
  lemma {:induction false} EverythingIsWritten(c: Conn)
    requires Inv(c) && Ordered(c) && c.phase == Open && c.writing && !c.closePending
    ensures var d := Continue(c, Completions(|c.queue|));
            d.queue == [] && !d.writing && d.phase == Open && Written(d.ops) == c.sent == d.sent
    decreases |c.queue|
  {
    var d := Next(c, WriteEnds(true));
    var rest := Completions(|c.queue| - 1);
    WriteLeadsOn(c);
    OnWriteKeeps(c, true);
    OnWriteOrdered(c, true);
    assert [WriteEnds(true)][..0] == [];
    assert Continue(c, []) == c;
    assert Continue(c, [WriteEnds(true)]) == d;
    ContinueConcat(c, [WriteEnds(true)], rest);
    if |c.queue| > 1 {
      EverythingIsWritten(d);
    } else {
      assert rest == [] && Continue(d, rest) == d;
      assert Written(d.ops) + [] == Written(d.ops);
    }
  }

  // ----- a run that is out of order

  lemma AfterPush(es: seq<Event>, e: Event)
    ensures After(es + [e]) == Next(After(es), e)
  {
    assert (es + [e])[..|es|] == es;
  }

  /** A connection closed while its handshake is under way is finished and can still be opened. */
  lemma FinishedEarly()
    ensures After([Opens(true), Closes]) == INIT.(phase := Closed, finished := true, handshake := true, closeCalls := 1)
  {
    AfterPush([], Opens(true));
    AfterPush([] + [Opens(true)], Closes);
    assert [] + [Opens(true)] + [Closes] == [Opens(true), Closes];
  }

  /** The same connection once its handshake succeeded and its first write failed. */
  lemma FirstWriteFails()
    ensures After([Opens(true), Closes, HandshakeEnds(true), Sends("a"), WriteEnds(false)]) ==
            Conn(Open, true, ["a"], false, false, false, ["a"], [Write("a"), Done], 1)
  {
    var es := [Opens(true), Closes];
    FinishedEarly();
    AfterPush(es, HandshakeEnds(true));
    AfterPush(es + [HandshakeEnds(true)], Sends("a"));
    AfterPush(es + [HandshakeEnds(true)] + [Sends("a")], WriteEnds(false));
    assert [] + ["a"] == ["a"] && [] + [Write("a")] == [Write("a")] && [Write("a")] + [Done] == [Write("a"), Done];
    assert es + [HandshakeEnds(true)] + [Sends("a")] + [WriteEnds(false)] ==
           [Opens(true), Closes, HandshakeEnds(true), Sends("a"), WriteEnds(false)];
  }

  lemma WrittenTwice(p: string)
    ensures Written([Write(p), Done] + [Write(p)]) == [p, p]
  {
    WrittenPush([], Write(p));
    WrittenPush([] + [Write(p)], Done);
    assert [] + [Write(p)] + [Done] == [Write(p), Done];
    WrittenPush([Write(p), Done], Write(p));
  }

  /** From the first event to a payload out of order: two are sent, and the first is written twice. */
  lemma PayloadCanBeRepeated()
    ensures var c := After([Opens(true), Closes, HandshakeEnds(true), Sends("a"), WriteEnds(false), Sends("b")]);
            c.sent == ["a", "b"] && Written(c.ops) == ["a", "a"] && !InOrder(c)
  {
    var es := [Opens(true), Closes, HandshakeEnds(true), Sends("a"), WriteEnds(false)];
    FirstWriteFails();
    AfterPush(es, Sends("b"));
    assert es + [Sends("b")] == [Opens(true), Closes, HandshakeEnds(true), Sends("a"), WriteEnds(false), Sends("b")];
    WrittenTwice("a");
    assert ["a", "a"][1][0] != ["a", "b"][1][0];
  }
}
