/**
  A whole RSP session: any sequence of calls and waits over one connection.

  A connection delivers whole frames before each deadline, so what a reader has
  left is a list of bodies. The first part shows that the byte-level reader of
  RspClient does on such a stream exactly what the functions on bodies do.
*/
module RspSession {
  import opened Wrappers
  import opened Text
  import opened RspFraming
  import opened RspClient

  // What reading took from a list of bodies, and which server requests it answered on the way.
  datatype Taken<+T> = Taken(value: T, rest: seq<string>, answered: seq<int>)

  function NextOf(codec: Codec, q: seq<string>): (t: Taken<Result<Msg, ReadError>>)
    ensures t.value.Ok? ==> |t.rest| < |q|
    decreases |q|
  {
    if q == [] then Taken(Err(Eof), [], [])
    else
      match codec.decode(q[0])
      case None => Taken(Err(BadJson), q[1..], [])
      case Some(m) =>
        if IsServerRequest(m) then
          var later := NextOf(codec, q[1..]);
          Taken(later.value, later.rest, [m.id.value] + later.answered)
        else Taken(Ok(m), q[1..], [])
  }

  function AnswerOf(codec: Codec, q: seq<string>, id: int): Taken<Result<Msg, ReadError>>
    decreases |q|
  {
    var next := NextOf(codec, q);
    if next.value.Err? || IsResponseTo(next.value.value, id) then next
    else
      var later := AnswerOf(codec, next.rest, id);
      Taken(later.value, later.rest, next.answered + later.answered)
  }

  function StateOf(codec: Codec, q: seq<string>, serverID: string, want: int): Taken<Result<(), WaitError>>
    decreases |q|
  {
    var next := NextOf(codec, q);
    if next.value.Err? then Taken(Err(WaitRead(next.value.error)), next.rest, next.answered)
    else
      match Judge(codec, serverID, want, next.value.value)
      case Some(verdict) => Taken(verdict, next.rest, next.answered)
      case None =>
        var later := StateOf(codec, next.rest, serverID, want);
        Taken(later.value, later.rest, next.answered + later.answered)
  }

  // ---------------------------------------------------------------- bytes and bodies agree

  predicate Framable(bodies: seq<string>) {
    forall body <- bodies :: 0 < |body| <= MAX_INT
  }

  lemma ReadFirst(q: seq<string>)
    requires Framable(q)
    ensures ReadFrame(Frames(q)) == if q == [] then (Err(Eof), "") else (Ok(q[0]), Frames(q[1..]))
  {
    if q != [] {
      FrameReads(q[0], Frames(q[1..]));
    }
  }

  lemma {:induction false} MsgInFrames(codec: Codec, q: seq<string>)
    requires Framable(q)
    ensures var t := NextOf(codec, q);
      Framable(t.rest) && MsgIn(codec, Frames(q)) == Reading(t.value, Frames(t.rest), t.answered)
    decreases |q|
  {
    hide ReadFrame, Frames;
    ReadFirst(q);
    if q == [] {
      assert Frames([]) == "" by { EmptyFrames(); }
    } else {
      assert Framable(q[1..]);
      MsgInFrames(codec, q[1..]);
    }
  }

  lemma EmptyFrames()
    ensures Frames([]) == ""
  {
  }

  lemma {:induction false} AnswerInFrames(codec: Codec, q: seq<string>, id: int)
    requires Framable(q)
    ensures var t := AnswerOf(codec, q, id);
      && Framable(t.rest)
      && AnswerIn(codec, Frames(q), id)
      == Reading(if t.value.Ok? then Payload(t.value.value) else Err(Read(t.value.error)), Frames(t.rest), t.answered)
    decreases |q|
  {
    hide Frames, MsgIn;
    MsgInFrames(codec, q);
    var next := NextOf(codec, q);
    if next.value.Err? || IsResponseTo(next.value.value, id) {
    } else {
      AnswerInFrames(codec, next.rest, id);
    }
  }

  lemma {:induction false} StateInFrames(codec: Codec, q: seq<string>, serverID: string, want: int)
    requires Framable(q)
    ensures var t := StateOf(codec, q, serverID, want);
      Framable(t.rest) && StateIn(codec, Frames(q), serverID, want) == Reading(t.value, Frames(t.rest), t.answered)
    decreases |q|
  {
    hide Frames, MsgIn;
    MsgInFrames(codec, q);
    var next := NextOf(codec, q);
    if next.value.Err? || Judge(codec, serverID, want, next.value.value).Some? {
    } else {
      StateInFrames(codec, next.rest, serverID, want);
    }
  }

  // ---------------------------------------------------------------- one call, one wait

  // The ids of the server's requests among some bodies, in order.
  function ServerRequests(codec: Codec, bodies: seq<string>): seq<int> {
    if bodies == [] then []
    else
      var m := codec.decode(bodies[0]);
      (if m.Some? && m.value.method_ != "" && m.value.id.Some? then [m.value.id.value] else [])
      + ServerRequests(codec, bodies[1..])
  }

  lemma {:induction false} ServerRequestsConcat(codec: Codec, first: seq<string>, second: seq<string>)
    ensures ServerRequests(codec, first + second) == ServerRequests(codec, first) + ServerRequests(codec, second)
  {
    if first == [] {
      assert first + second == second;
    } else {
      assert (first + second)[1..] == first[1..] + second;
      ServerRequestsConcat(codec, first[1..], second);
    }
  }

  // Reading took a prefix of the bodies and answered exactly the server requests in it.
  predicate TookPrefix<T>(codec: Codec, q: seq<string>, t: Taken<T>) {
    && |t.rest| <= |q| && q[|q| - |t.rest|..] == t.rest
    && t.answered == ServerRequests(codec, q[..|q| - |t.rest|])
  }

  lemma TookMore<T, U>(codec: Codec, q: seq<string>, t: Taken<T>, later: Taken<U>)
    requires TookPrefix(codec, q, t) && TookPrefix(codec, t.rest, later)
    ensures TookPrefix(codec, q, Taken(later.value, later.rest, t.answered + later.answered))
  {
    hide ServerRequests;
    var a, b := q[..|q| - |t.rest|], t.rest[..|t.rest| - |later.rest|];
    ServerRequestsConcat(codec, a, b);
    assert q == a + t.rest && t.rest == b + later.rest;
    assert q[..|q| - |later.rest|] == a + b;
  }

  lemma {:induction false} NextTakesPrefix(codec: Codec, q: seq<string>)
    ensures TookPrefix(codec, q, NextOf(codec, q))
    ensures NextOf(codec, q).value.Ok? ==> !IsServerRequest(NextOf(codec, q).value.value)
    decreases |q|
  {
    if q == [] {
    } else {
      var one := q[..1];
      assert one[1..] == [];
      assert ServerRequests(codec, one[1..]) == [];
      var m := codec.decode(q[0]);
      if m.Some? && IsServerRequest(m.value) {
        NextTakesPrefix(codec, q[1..]);
        assert TookPrefix(codec, q, Taken((), q[1..], [m.value.id.value]));
        TookMore(codec, q, Taken((), q[1..], [m.value.id.value]), NextOf(codec, q[1..]));
      }
    }
  }

  lemma {:induction false} AnswerTakesPrefix(codec: Codec, q: seq<string>, id: int)
    ensures TookPrefix(codec, q, AnswerOf(codec, q, id))
    ensures AnswerOf(codec, q, id).value.Ok? ==> IsResponseTo(AnswerOf(codec, q, id).value.value, id)
    decreases |q|
  {
    NextTakesPrefix(codec, q);
    var next := NextOf(codec, q);
    if next.value.Err? || IsResponseTo(next.value.value, id) {
    } else {
      AnswerTakesPrefix(codec, next.rest, id);
      TookMore(codec, q, next, AnswerOf(codec, next.rest, id));
    }
  }

  lemma {:induction false} StateTakesPrefix(codec: Codec, q: seq<string>, serverID: string, want: int)
    ensures TookPrefix(codec, q, StateOf(codec, q, serverID, want))
    decreases |q|
  {
    NextTakesPrefix(codec, q);
    var next := NextOf(codec, q);
    if next.value.Err? || Judge(codec, serverID, want, next.value.value).Some? {
    } else {
      StateTakesPrefix(codec, next.rest, serverID, want);
      TookMore(codec, q, next, StateOf(codec, next.rest, serverID, want));
    }
  }

  // The response to `id` is at place `i`, and everything before it is readable and is not it.
  predicate FirstResponse(codec: Codec, q: seq<string>, id: int, i: int) {
    && 0 <= i < |q| && codec.decode(q[i]).Some? && Answers(codec.decode(q[i]).value, id)
    && forall k | 0 <= k < i :: codec.decode(q[k]).Some? && !Answers(codec.decode(q[k]).value, id)
  }

  // No method, and this id.
  predicate Answers(m: Msg, id: int) {
    m.method_ == "" && m.id == Some(id)
  }

  lemma FirstResponseShifts(codec: Codec, q: seq<string>, id: int, i: int)
    requires q != [] && codec.decode(q[0]).Some? && !Answers(codec.decode(q[0]).value, id)
    ensures FirstResponse(codec, q, id, i) <==> FirstResponse(codec, q[1..], id, i - 1)
  {
    var tail := q[1..];
    if FirstResponse(codec, tail, id, i - 1) {
      forall k | 0 <= k < i ensures codec.decode(q[k]).Some? && !Answers(codec.decode(q[k]).value, id) {
        assert k > 0 ==> q[k] == tail[k - 1];
      }
    }
  }

  lemma AnswerSkips(codec: Codec, q: seq<string>, id: int)
    requires q != [] && codec.decode(q[0]).Some? && !Answers(codec.decode(q[0]).value, id)
    ensures AnswerOf(codec, q, id).value == AnswerOf(codec, q[1..], id).value
    ensures AnswerOf(codec, q, id).rest == AnswerOf(codec, q[1..], id).rest
  {
  }

  /** A call gets an answer exactly when a response with its id arrives with nothing unreadable before it. */
  lemma {:induction false} AnswerIffResponse(codec: Codec, q: seq<string>, id: int)
    ensures var t := AnswerOf(codec, q, id);
      && (t.value.Ok? <==> exists i :: FirstResponse(codec, q, id, i))
      && (forall i | FirstResponse(codec, q, id, i) ::
            t.value == Ok(codec.decode(q[i]).value) && t.rest == q[i + 1..])
  {
    if q == [] || codec.decode(q[0]).None? {
    } else {
      if Answers(codec.decode(q[0]).value, id) {
        assert FirstResponse(codec, q, id, 0);
      } else {
        hide AnswerOf, FirstResponse;
        AnswerSkips(codec, q, id);
        AnswerIffResponse(codec, q[1..], id);
        forall i ensures FirstResponse(codec, q, id, i) <==> FirstResponse(codec, q[1..], id, i - 1) {
          FirstResponseShifts(codec, q, id, i);
        }
        if i :| FirstResponse(codec, q[1..], id, i) {
          assert FirstResponse(codec, q, id, i + 1) by { FirstResponseShifts(codec, q, id, i + 1); }
        }
        forall i | FirstResponse(codec, q, id, i)
          ensures AnswerOf(codec, q, id).value == Ok(codec.decode(q[i]).value) && AnswerOf(codec, q, id).rest == q[i + 1..]
        {
          PlaceOfFirst(codec, q, id, i);
        }
      }
    }
  }

  // Every body can be read.
  predicate Readable(codec: Codec, q: seq<string>) {
    forall body <- q :: codec.decode(body).Some?
  }

  lemma ReadableStep(codec: Codec, q: seq<string>)
    requires q != []
    ensures Readable(codec, q) <==> codec.decode(q[0]).Some? && Readable(codec, q[1..])
  {
    assert forall body :: body in q <==> body == q[0] || body in q[1..];
  }

  /** Without a response to it, a call ends with the end of what arrived, or with what cannot be read. */
  lemma {:induction false} NoResponseNoAnswer(codec: Codec, q: seq<string>, id: int)
    requires forall i :: !FirstResponse(codec, q, id, i)
    ensures AnswerOf(codec, q, id).value == Err(if Readable(codec, q) then Eof else BadJson)
  {
    if q == [] {
    } else {
      ReadableStep(codec, q);
      if codec.decode(q[0]).Some? {
        assert !FirstResponse(codec, q, id, 0);
        hide AnswerOf, FirstResponse, Readable;
        AnswerSkips(codec, q, id);
        forall i ensures !FirstResponse(codec, q[1..], id, i) {
          FirstResponseShifts(codec, q, id, i + 1);
        }
        NoResponseNoAnswer(codec, q[1..], id);
      }
    }
  }

  // A state change that a wait for this state of this server ends with: state 4 is "stopped".
  predicate Decides(codec: Codec, m: Msg, serverID: string, want: int) {
    && m.method_ == "client/serverStateChanged" && m.id.None?
    && codec.serverState(m.params).0 == serverID
    && (codec.serverState(m.params).1 == want || codec.serverState(m.params).1 == 4)
  }

  predicate FirstDecision(codec: Codec, q: seq<string>, serverID: string, want: int, i: int) {
    && 0 <= i < |q| && codec.decode(q[i]).Some? && Decides(codec, codec.decode(q[i]).value, serverID, want)
    && forall k | 0 <= k < i ::
         codec.decode(q[k]).Some? && !Decides(codec, codec.decode(q[k]).value, serverID, want)
  }

  lemma FirstDecisionShifts(codec: Codec, q: seq<string>, serverID: string, want: int, i: int)
    requires q != [] && codec.decode(q[0]).Some? && !Decides(codec, codec.decode(q[0]).value, serverID, want)
    ensures FirstDecision(codec, q, serverID, want, i) <==> FirstDecision(codec, q[1..], serverID, want, i - 1)
  {
    hide Decides;
    var tail := q[1..];
    if FirstDecision(codec, tail, serverID, want, i - 1) {
      forall k | 0 <= k < i
        ensures codec.decode(q[k]).Some? && !Decides(codec, codec.decode(q[k]).value, serverID, want)
      {
        assert k > 0 ==> q[k] == tail[k - 1];
      }
    }
  }

  lemma StateSkips(codec: Codec, q: seq<string>, serverID: string, want: int)
    requires q != [] && codec.decode(q[0]).Some? && !Decides(codec, codec.decode(q[0]).value, serverID, want)
    ensures StateOf(codec, q, serverID, want).value == StateOf(codec, q[1..], serverID, want).value
    ensures StateOf(codec, q, serverID, want).rest == StateOf(codec, q[1..], serverID, want).rest
  {
  }

  // The verdict of a wait, from what arrives.
  ghost predicate TellsState(codec: Codec, q: seq<string>, serverID: string, want: int, r: Result<(), WaitError>) {
    && (forall i | FirstDecision(codec, q, serverID, want, i) ::
          r == if codec.serverState(codec.decode(q[i]).value.params).1 == want then Ok(()) else Err(StoppedUnexpectedly))
    && ((forall i :: !FirstDecision(codec, q, serverID, want, i)) ==>
          r == Err(WaitRead(if Readable(codec, q) then Eof else BadJson)))
  }

  /**
    A wait ends with the first state change of its server that is the state it waits for, or, with an
    error, "stopped"; without one it ends with the end of what arrives, or with what cannot be read.
  */
  lemma {:induction false} WaitTellsState(codec: Codec, q: seq<string>, serverID: string, want: int)
    ensures TellsState(codec, q, serverID, want, StateOf(codec, q, serverID, want).value)
  {
    if q == [] {
    } else {
      ReadableStep(codec, q);
      if codec.decode(q[0]).Some? {
        if Decides(codec, codec.decode(q[0]).value, serverID, want) {
          assert FirstDecision(codec, q, serverID, want, 0);
        } else {
          hide StateOf, FirstDecision, Readable, Decides;
          StateSkips(codec, q, serverID, want);
          WaitTellsState(codec, q[1..], serverID, want);
          forall i ensures FirstDecision(codec, q, serverID, want, i) <==> FirstDecision(codec, q[1..], serverID, want, i - 1) {
            FirstDecisionShifts(codec, q, serverID, want, i);
          }
          forall i | FirstDecision(codec, q, serverID, want, i)
            ensures 0 <= i - 1 < |q[1..]| && q[1..][i - 1] == q[i]
          {
            DecisionPlace(codec, q, serverID, want, i);
          }
          if forall i :: !FirstDecision(codec, q, serverID, want, i) {
            forall i ensures !FirstDecision(codec, q[1..], serverID, want, i) {
              FirstDecisionShifts(codec, q, serverID, want, i + 1);
            }
          }
        }
      }
    }
  }

  lemma DecisionPlace(codec: Codec, q: seq<string>, serverID: string, want: int, i: int)
    requires FirstDecision(codec, q, serverID, want, i) && q != []
    requires codec.decode(q[0]).Some? && !Decides(codec, codec.decode(q[0]).value, serverID, want)
    ensures 0 <= i - 1 < |q[1..]| && q[1..][i - 1] == q[i]
  {
  }

  lemma PlaceOfFirst(codec: Codec, q: seq<string>, id: int, i: int)
    requires FirstResponse(codec, q, id, i)
    ensures 0 <= i < |q|
    ensures i > 0 ==> q[1..][i - 1] == q[i] && q[1..][i..] == q[i + 1..]
    ensures !Answers(codec.decode(q[0]).value, id) ==> i > 0
  {
  }

  // ---------------------------------------------------------------- sessions

  // A whole request; what was written of a request whose sending failed; a reply.
  datatype Sent = Request(id: int, body: string) | Broken(id: int, text: string) | Reply(id: int)

  // `pending` arrived but is not read yet; `sent` is everything written, in order.
  datatype Session = Session(nextID: int, pending: seq<string>, sent: seq<Sent>)

  const Fresh := Session(0, [], [])

  // A call says how much of its frame was written when sending it failed, if it did.
  datatype Op =
    | Call(method_: string, params: string, arrivals: seq<string>, failedAt: Option<nat>)
    | Wait(serverID: string, want: int, arrivals: seq<string>)

  datatype Outcome =
    | Called(id: int, answer: Result<Msg, ReadError>)
    | Unsent(id: int)
    | Waited(verdict: Result<(), WaitError>)

  function AsReplies(ids: seq<int>): seq<Sent> {
    seq(|ids|, i requires 0 <= i < |ids| => Reply(ids[i]))
  }

  // At most this much of the text.
  function Beginning(text: string, n: nat): string {
    if n <= |text| then text[..n] else text
  }

  function Do(codec: Codec, st: Session, op: Op): (Session, Outcome) {
    var q := st.pending + op.arrivals;
    match op
    case Call(method_, params, _, failedAt) =>
      var id := st.nextID + 1;
      var body := codec.request(id, method_, params);
      if failedAt.Some? then
        (Session(id, q, st.sent + [Broken(id, Beginning(Frame(body), failedAt.value))]), Unsent(id))
      else
        var t := AnswerOf(codec, q, id);
        (Session(id, t.rest, st.sent + [Request(id, body)] + AsReplies(t.answered)), Called(id, t.value))
    case Wait(serverID, want, _) =>
      var t := StateOf(codec, q, serverID, want);
      (Session(st.nextID, t.rest, st.sent + AsReplies(t.answered)), Waited(t.value))
  }

  function Run(codec: Codec, st: Session, ops: seq<Op>): (Session, seq<Outcome>)
    decreases |ops|
  {
    if ops == [] then (st, [])
    else
      var (next, outcome) := Do(codec, st, ops[0]);
      var (end, outcomes) := Run(codec, next, ops[1..]);
      (end, [outcome] + outcomes)
  }

  function Arrived(ops: seq<Op>): seq<string> {
    if ops == [] then [] else ops[0].arrivals + Arrived(ops[1..])
  }

  // The ids of the requests, those included whose sending failed.
  function RequestIds(sent: seq<Sent>): seq<int> {
    if sent == [] then []
    else (if sent[0].Reply? then [] else [sent[0].id]) + RequestIds(sent[1..])
  }

  function ReplyIds(sent: seq<Sent>): seq<int> {
    if sent == [] then []
    else (if sent[0].Reply? then [sent[0].id] else []) + ReplyIds(sent[1..])
  }

  lemma Regroup(a: seq<int>, b: seq<int>, c: seq<int>)
    ensures a + (b + c) == (a + b) + c
  {
  }

  lemma {:induction false} RequestIdsConcat(first: seq<Sent>, second: seq<Sent>)
    ensures RequestIds(first + second) == RequestIds(first) + RequestIds(second)
  {
    if first == [] {
      assert first + second == second;
    } else {
      assert (first + second)[1..] == first[1..] + second;
      RequestIdsConcat(first[1..], second);
      var head: seq<int> := if first[0].Reply? then [] else [first[0].id];
      Regroup(head, RequestIds(first[1..]), RequestIds(second));
    }
  }

  lemma {:induction false} ReplyIdsConcat(first: seq<Sent>, second: seq<Sent>)
    ensures ReplyIds(first + second) == ReplyIds(first) + ReplyIds(second)
  {
    if first == [] {
      assert first + second == second;
    } else {
      assert (first + second)[1..] == first[1..] + second;
      ReplyIdsConcat(first[1..], second);
      var head: seq<int> := if first[0].Reply? then [first[0].id] else [];
      Regroup(head, ReplyIds(first[1..]), ReplyIds(second));
    }
  }

  lemma SentConcat(first: seq<Sent>, second: seq<Sent>)
    ensures RequestIds(first + second) == RequestIds(first) + RequestIds(second)
    ensures ReplyIds(first + second) == ReplyIds(first) + ReplyIds(second)
  {
    RequestIdsConcat(first, second);
    ReplyIdsConcat(first, second);
  }

  lemma {:induction false} RepliesAreReplies(ids: seq<int>)
    ensures RequestIds(AsReplies(ids)) == [] && ReplyIds(AsReplies(ids)) == ids
  {
    if ids == [] {
    } else {
      assert AsReplies(ids)[1..] == AsReplies(ids[1..]);
      RepliesAreReplies(ids[1..]);
    }
  }

  // The ids after `from` up to `to`.
  function Numbers(from: int, to: int): seq<int>
    requires from <= to
  {
    seq(to - from, i => from + 1 + i)
  }

  // From `st` to `end`, having received `all`: nothing lost, every request numbered, every request answered.
  predicate Accounted(codec: Codec, st: Session, all: seq<string>, end: Session) {
    && |end.pending| <= |all| && all[|all| - |end.pending|..] == end.pending
    && ReplyIds(end.sent) == ReplyIds(st.sent) + ServerRequests(codec, all[..|all| - |end.pending|])
    && st.nextID <= end.nextID
    && RequestIds(end.sent) == RequestIds(st.sent) + Numbers(st.nextID, end.nextID)
  }

  lemma OneRequest(request: seq<Sent>, before: int)
    requires |request| <= 1 && (request != [] ==> !request[0].Reply? && request[0].id == before + 1)
    ensures RequestIds(request) == Numbers(before, before + |request|) && ReplyIds(request) == []
  {
    hide Numbers;
    NoIds();
    if request == [] {
      assert Numbers(before, before) == [] by { OneNumber(before); }
    } else {
      assert request[1..] == [];
      assert Numbers(before, before + 1) == [before + 1] by { OneNumber(before); }
    }
  }

  lemma NoIds()
    ensures RequestIds([]) == [] && ReplyIds([]) == []
  {
  }

  lemma OneNumber(before: int)
    ensures Numbers(before, before) == [] && Numbers(before, before + 1) == [before + 1]
  {
  }

  // One operation wrote `request` (or nothing) and then answered what it read.
  lemma OneOpAccounts<T>(codec: Codec, st: Session, q: seq<string>, t: Taken<T>, request: seq<Sent>, end: Session)
    requires TookPrefix(codec, q, t)
    requires |request| <= 1 && (request != [] ==> !request[0].Reply? && request[0].id == st.nextID + 1)
    requires end == Session(st.nextID + |request|, t.rest, st.sent + request + AsReplies(t.answered))
    ensures Accounted(codec, st, q, end)
  {
    hide ServerRequests, AsReplies, RequestIds, ReplyIds;
    SentConcat(st.sent, request);
    SentConcat(st.sent + request, AsReplies(t.answered));
    RepliesAreReplies(t.answered);
    OneRequest(request, st.nextID);
  }

  lemma NothingTaken(codec: Codec, q: seq<string>)
    ensures TookPrefix(codec, q, Taken((), q, []))
  {
  }

  lemma DoAccounts(codec: Codec, st: Session, op: Op)
    ensures Accounted(codec, st, st.pending + op.arrivals, Do(codec, st, op).0)
  {
    hide Accounted, AnswerOf, StateOf, TookPrefix, Frame, Beginning;
    var q := st.pending + op.arrivals;
    var end := Do(codec, st, op).0;
    var id := st.nextID + 1;
    match op
    case Call(method_, params, _, failedAt) =>
      var body := codec.request(id, method_, params);
      if failedAt.Some? {
        NothingTaken(codec, q);
        var request := [Broken(id, Beginning(Frame(body), failedAt.value))];
        assert st.sent + request + AsReplies([]) == st.sent + request;
        OneOpAccounts(codec, st, q, Taken((), q, []), request, end);
      } else {
        AnswerTakesPrefix(codec, q, id);
        OneOpAccounts(codec, st, q, AnswerOf(codec, q, id), [Request(id, body)], end);
      }
    case Wait(serverID, want, _) =>
      StateTakesPrefix(codec, q, serverID, want);
      assert st.sent + [] == st.sent;
      OneOpAccounts(codec, st, q, StateOf(codec, q, serverID, want), [], end);
  }

  lemma AccountedThen(codec: Codec, st: Session, first: seq<string>, mid: Session, more: seq<string>, end: Session)
    requires Accounted(codec, st, first, mid) && Accounted(codec, mid, mid.pending + more, end)
    ensures Accounted(codec, st, first + more, end)
  {
    hide ServerRequests, RequestIds, ReplyIds;
    var read := first[..|first| - |mid.pending|];
    var later := mid.pending + more;
    var all := first + more;
    assert first == read + mid.pending;
    assert all == read + later;
    ServerRequestsConcat(codec, read, later[..|later| - |end.pending|]);
    assert all[..|all| - |end.pending|] == read + later[..|later| - |end.pending|];
    assert all[|all| - |end.pending|..] == later[|later| - |end.pending|..];
    assert Numbers(st.nextID, end.nextID) == Numbers(st.nextID, mid.nextID) + Numbers(mid.nextID, end.nextID);
  }

  /**
    Over a whole session: what arrived is what was read followed by what is still pending; the
    server's requests in what was read were answered once each, in order, with their own ids; and
    the client's requests carry the consecutive ids after the first one, whether or not they could
    be sent.
  */
  lemma {:induction false} SessionAccounts(codec: Codec, st: Session, ops: seq<Op>)
    ensures Accounted(codec, st, st.pending + Arrived(ops), Run(codec, st, ops).0)
    decreases |ops|
  {
    if ops == [] {
      assert st.pending + Arrived(ops) == st.pending;
    } else {
      hide Accounted, Do;
      var next := Do(codec, st, ops[0]).0;
      DoAccounts(codec, st, ops[0]);
      SessionAccounts(codec, next, ops[1..]);
      AccountedThen(codec, st, st.pending + ops[0].arrivals, next, Arrived(ops[1..]), Run(codec, st, ops).0);
      assert st.pending + ops[0].arrivals + Arrived(ops[1..]) == st.pending + Arrived(ops);
    }
  }

  /** No id is ever used twice, in any session. */
  lemma IdsStrictlyIncrease(codec: Codec, ops: seq<Op>)
    ensures var ids := RequestIds(Run(codec, Fresh, ops).0.sent);
      forall i, k | 0 <= i < k < |ids| :: ids[i] < ids[k]
  {
    SessionAccounts(codec, Fresh, ops);
  }

  // `outcome` is the result of a call that was numbered `id`, or of a wait.
  predicate OwnAnswer(codec: Codec, received: seq<string>, outcome: Outcome, id: int) {
    outcome.Called? ==>
      && outcome.id == id
      && (outcome.answer.Ok? ==>
            && IsResponseTo(outcome.answer.value, id)
            && !IsServerRequest(outcome.answer.value)
            && exists body <- received :: codec.decode(body) == Some(outcome.answer.value))
  }

  /**
    Whatever happened before it, a call returns only a message that was received and is a response
    to its own id: never the late answer to an earlier call, whose id is smaller, never a
    notification and never one of the server's requests.
  */
  lemma CallGetsOwnAnswer(codec: Codec, before: seq<Op>, op: Op)
    ensures var st := Run(codec, Fresh, before).0;
      && (forall id <- RequestIds(st.sent) :: id < st.nextID + 1)
      && OwnAnswer(codec, Arrived(before) + op.arrivals, Do(codec, st, op).1, st.nextID + 1)
  {
    var st := Run(codec, Fresh, before).0;
    SessionAccounts(codec, Fresh, before);
    if op.Call? && op.failedAt.None? {
      var q := st.pending + op.arrivals;
      var id := st.nextID + 1;
      AnswerTakesPrefix(codec, q, id);
      AnswerIffResponse(codec, q, id);
      var t := AnswerOf(codec, q, id);
      if t.value.Ok? {
        var i :| FirstResponse(codec, q, id, i);
        assert Arrived(before) == [] + Arrived(before);
        assert q[i] in Arrived(before) + op.arrivals by {
          if i < |st.pending| {
            assert st.pending[i] in Arrived(before);
          }
        }
      }
    }
  }
}
