/**
  Whole sessions on the client itself: any sequence of calls and waits, byte by byte, is a session of
  the machine in RspSession, so that what is proved there holds of the class.
*/
module RspConversation {
  import opened Wrappers
  import opened RspFraming
  import opened RspClient
  import opened RspSession

  // What the methods of the client return.
  datatype Report = CallReturned(r: Result<string, CallError>) | WaitReturned(w: Result<(), WaitError>)

  function ReportOf(outcome: Outcome): Report {
    match outcome
    case Called(_, answer) => CallReturned(if answer.Ok? then Payload(answer.value) else Err(Read(answer.error)))
    case Unsent(_) => CallReturned(Err(NotSent))
    case Waited(verdict) => WaitReturned(verdict)
  }

  // ---------------------------------------------------------------- what is reported

  // What a call returns, from what arrives: the result or the error of the first response to it.
  ghost predicate TellsAnswer(codec: Codec, q: seq<string>, id: int, r: Result<string, CallError>) {
    && (forall i | FirstResponse(codec, q, id, i) ::
          var m := codec.decode(q[i]).value;
          r == if m.error == "" || m.error == "null" then Ok(m.result) else Err(Remote(m.error)))
    && ((forall i :: !FirstResponse(codec, q, id, i)) ==>
          r == Err(Read(if Readable(codec, q) then Eof else BadJson)))
  }

  // What an operation reports in a session that has come this far.
  ghost predicate Tells(codec: Codec, st: Session, op: Op, report: Report) {
    match op
    case Call(_, _, arrivals, failedAt) =>
      && report.CallReturned?
      && if failedAt.Some? then report.r == Err(NotSent)
         else TellsAnswer(codec, st.pending + arrivals, st.nextID + 1, report.r)
    case Wait(serverID, want, arrivals) =>
      report.WaitReturned? && TellsState(codec, st.pending + arrivals, serverID, want, report.w)
  }

  /** A call reports its own response as what it is, an error included, and a wait the state it met. */
  lemma OpTells(codec: Codec, st: Session, op: Op)
    ensures Tells(codec, st, op, ReportOf(Do(codec, st, op).1))
  {
    hide AnswerOf, StateOf, TellsState, FirstResponse, Readable, Frame, Beginning;
    var q := st.pending + op.arrivals;
    match op
    case Call(_, _, _, _) =>
      var id := st.nextID + 1;
      AnswerIffResponse(codec, q, id);
      if forall i :: !FirstResponse(codec, q, id, i) {
        NoResponseNoAnswer(codec, q, id);
      }
    case Wait(serverID, want, _) => WaitTellsState(codec, q, serverID, want);
  }

  // ---------------------------------------------------------------- what is written

  function BytesOf(codec: Codec, item: Sent): string {
    match item
    case Request(_, body) => Frame(body)
    case Broken(_, text) => text
    case Reply(id) => Frame(codec.reply(id))
  }

  function Written(codec: Codec, sent: seq<Sent>): string {
    if sent == [] then "" else BytesOf(codec, sent[0]) + Written(codec, sent[1..])
  }

  lemma {:induction false} WrittenConcat(codec: Codec, first: seq<Sent>, second: seq<Sent>)
    ensures Written(codec, first + second) == Written(codec, first) + Written(codec, second)
  {
    hide BytesOf;
    if first == [] {
      assert first + second == second;
    } else {
      assert (first + second)[1..] == first[1..] + second;
      WrittenConcat(codec, first[1..], second);
    }
  }

  lemma WrittenOne(codec: Codec, item: Sent)
    ensures Written(codec, [item]) == BytesOf(codec, item)
  {
    hide BytesOf;
    assert [item][1..] == [];
    assert BytesOf(codec, item) + "" == BytesOf(codec, item);
  }

  lemma {:induction false} WrittenReplies(codec: Codec, ids: seq<int>)
    ensures Written(codec, AsReplies(ids)) == Replies(codec, ids)
  {
    hide Frame;
    if ids == [] {
    } else {
      assert AsReplies(ids)[1..] == AsReplies(ids[1..]);
      WrittenReplies(codec, ids[1..]);
    }
  }

  // The client is where the session is.
  predicate At(client: Client, st: Session)
    reads client
  {
    && client.Valid() && client.nextID == st.nextID
    && Framable(st.pending) && client.Unread() == Frames(st.pending)
    && client.output == Written(client.codec, st.sent)
  }

  // The same call or wait; how sending it went may differ.
  predicate SameOrder(op: Op, order: Op) {
    match order
    case Call(method_, params, arrivals, _) =>
      op.Call? && op.method_ == method_ && op.params == params && op.arrivals == arrivals
    case Wait(_, _, _) => op == order
  }

  lemma FramableConcat(p: seq<string>, q: seq<string>)
    requires Framable(p) && Framable(q)
    ensures Framable(p + q)
  {
  }

  // The call of one operation, with what arrives for it.
  method PerformCall(client: Client, method_: string, params: string, arrivals: seq<string>, ghost st: Session)
    returns (r: Result<string, CallError>, ghost op: Op)
    requires At(client, st) && Framable(arrivals)
    modifies client
    ensures op.Call? && op.method_ == method_ && op.params == params && op.arrivals == arrivals
    ensures At(client, Do(client.codec, st, op).0)
    ensures CallReturned(r) == ReportOf(Do(client.codec, st, op).1)
    ensures if op.failedAt.Some? then r == Err(NotSent)
      else TellsAnswer(client.codec, st.pending + arrivals, st.nextID + 1, r)
  {
    hide Frame, Frames, AnswerIn, Replies, Written, AnswerOf, Payload, Framable, TellsAnswer;
    ghost var codec := client.codec;
    ghost var q := st.pending + arrivals;
    FramableConcat(st.pending, arrivals);
    FramesConcat(st.pending, arrivals);
    client.Deliver(Frames(arrivals));
    ghost var before := client.output;
    r := client.Call(method_, params);
    ghost var id := client.nextID;
    ghost var body := codec.request(id, method_, params);
    if r == Err(NotSent) {
      ghost var k :| 0 <= k <= |Frame(body)| && client.output == before + Frame(body)[..k];
      op := Call(method_, params, arrivals, Some(k));
      OpTells(codec, st, op);
      ghost var item := Broken(id, Frame(body)[..k]);
      WrittenConcat(codec, st.sent, [item]);
      WrittenOne(codec, item);
    } else {
      op := Call(method_, params, arrivals, None);
      OpTells(codec, st, op);
      AnswerInFrames(codec, q, id);
      ghost var t := AnswerOf(codec, q, id);
      ghost var item := Request(id, body);
      WrittenConcat(codec, st.sent, [item]);
      WrittenOne(codec, item);
      WrittenConcat(codec, st.sent + [item], AsReplies(t.answered));
      WrittenReplies(codec, t.answered);
    }
  }

  method PerformWait(client: Client, serverID: string, want: int, arrivals: seq<string>, ghost st: Session)
    returns (r: Result<(), WaitError>)
    requires At(client, st) && Framable(arrivals)
    modifies client
    ensures At(client, Do(client.codec, st, Wait(serverID, want, arrivals)).0)
    ensures WaitReturned(r) == ReportOf(Do(client.codec, st, Wait(serverID, want, arrivals)).1)
    ensures TellsState(client.codec, st.pending + arrivals, serverID, want, r)
  {
    hide Frame, Frames, StateIn, Replies, Written, StateOf, Framable, TellsState;
    ghost var codec := client.codec;
    OpTells(codec, st, Wait(serverID, want, arrivals));
    ghost var q := st.pending + arrivals;
    FramableConcat(st.pending, arrivals);
    FramesConcat(st.pending, arrivals);
    client.Deliver(Frames(arrivals));
    r := client.WaitState(serverID, want);
    StateInFrames(codec, q, serverID, want);
    ghost var t := StateOf(codec, q, serverID, want);
    WrittenConcat(codec, st.sent, AsReplies(t.answered));
    WrittenReplies(codec, t.answered);
  }

  // ---------------------------------------------------------------- any number of them

  lemma {:induction false} RunLonger(codec: Codec, st: Session, ops: seq<Op>, op: Op)
    ensures var (mid, outcomes) := Run(codec, st, ops);
      Run(codec, st, ops + [op]) == (Do(codec, mid, op).0, outcomes + [Do(codec, mid, op).1])
    decreases |ops|
  {
    hide Do;
    if ops == [] {
      var (next, outcome) := Do(codec, st, op);
      assert [] + [op] == [op] && [op][1..] == [];
      NothingRun(codec, st);
      NothingRun(codec, next);
      assert Run(codec, st, [op]) == (next, [outcome] + []);
      assert [outcome] + [] == [] + [outcome];
    } else {
      var (next, outcome) := Do(codec, st, ops[0]);
      assert (ops + [op])[1..] == ops[1..] + [op];
      RunLonger(codec, next, ops[1..], op);
      var (mid, outcomes) := Run(codec, next, ops[1..]);
      assert [outcome] + (outcomes + [Do(codec, mid, op).1]) == [outcome] + outcomes + [Do(codec, mid, op).1];
    }
  }

  ghost predicate Reported(reports: seq<Report>, outcomes: seq<Outcome>) {
    |reports| == |outcomes| && forall i | 0 <= i < |reports| :: reports[i] == ReportOf(outcomes[i])
  }

  /**
    Whatever is asked of a client, call by call and wait by wait, and whatever arrives for it: what
    it returns, what it has written and what it has left to read are those of a session of the
    machine, in which each call was sent or failed to be sent as it did here. Each call reports the
    result or the error of the first response to it, and each wait the state that ended it.
  */
  method Converse(client: Client, orders: seq<Op>, ghost st: Session)
    returns (reports: seq<Report>, ghost ops: seq<Op>)
    requires At(client, st) && forall order <- orders :: Framable(order.arrivals)
    modifies client
    ensures |reports| == |ops| == |orders| && forall i | 0 <= i < |orders| :: SameOrder(ops[i], orders[i])
    ensures At(client, Run(client.codec, st, ops).0)
    ensures Reported(reports, Run(client.codec, st, ops).1)
    ensures forall k | 0 <= k < |ops| :: Tells(client.codec, Run(client.codec, st, ops[..k]).0, ops[k], reports[k])
  {
    hide At, Framable, Do, Run, ReportOf, Tells;
    reports, ops := [], [];
    NothingRun(client.codec, st);
    ghost var now := st;
    for i := 0 to |orders|
      invariant |ops| == i && forall k | 0 <= k < i :: SameOrder(ops[k], orders[k])
      invariant now == Run(client.codec, st, ops).0 && At(client, now)
      invariant Reported(reports, Run(client.codec, st, ops).1)
      invariant |reports| == i
      invariant forall k | 0 <= k < i :: Tells(client.codec, Run(client.codec, st, ops[..k]).0, ops[k], reports[k])
    {
      ghost var op := orders[i];
      var report: Report;
      assert Framable(orders[i].arrivals);
      match orders[i] {
        case Call(method_, params, arrivals, _) =>
          var r;
          r, op := PerformCall(client, method_, params, arrivals, now);
          report := CallReturned(r);
        case Wait(serverID, want, arrivals) =>
          var w := PerformWait(client, serverID, want, arrivals, now);
          report := WaitReturned(w);
      }
      OpTells(client.codec, now, op);
      RunLonger(client.codec, st, ops, op);
      assert forall k | 0 <= k < i :: (ops + [op])[..k] == ops[..k];
      assert (ops + [op])[..i] == ops;
      now := Do(client.codec, now, op).0;
      reports, ops := reports + [report], ops + [op];
    }
  }

  lemma NothingRun(codec: Codec, st: Session)
    ensures Run(codec, st, []) == (st, [])
  {
  }

  /** A client that has just connected is at the beginning of a session. */
  lemma FreshClient(client: Client)
    requires client.Valid() && client.Unread() == "" && client.output == "" && client.nextID == 0
    ensures At(client, Fresh)
  {
  }
}
