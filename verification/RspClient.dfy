/**
  The JSON-RPC 2.0 client of the RSP backend.

  JSON itself is an opaque codec. The class reads and writes the connection
  byte by byte; its methods are specified by functions on the unread bytes.
  RspSession shows that those agree with functions on the list of bodies, on a
  stream of whole frames, and takes whole sessions of calls and waits from there.
*/
module RspClient {
  import opened Wrappers
  import opened Text
  import opened RspFraming

  datatype Msg = Msg(id: Option<int>, method_: string, result: string, params: string, error: string)

  datatype Codec = Codec(
    request: (int, string, string) -> string,  // id, method, params
    reply: int -> string,                      // a null result for this id
    decode: string -> Option<Msg>,
    serverState: string -> (string, int))      // params of serverStateChanged: server id, state

  datatype CallError = NotSent | Read(error: ReadError) | Remote(payload: string)

  datatype WaitError = WaitRead(error: ReadError) | StoppedUnexpectedly

  const STATE_CHANGED := "client/serverStateChanged"
  const STATE_STOPPED: int := 4

  predicate IsServerRequest(m: Msg) {
    m.method_ != "" && m.id.Some?
  }

  predicate IsResponseTo(m: Msg, id: int) {
    m.method_ == "" && m.id == Some(id)
  }

  // What a call returns for the response to it.
  function Payload(m: Msg): Result<string, CallError> {
    if m.error != "" && m.error != "null" then Err(Remote(m.error)) else Ok(m.result)
  }

  // What a wait makes of one message: None, keep waiting.
  function Judge(codec: Codec, serverID: string, want: int, m: Msg): Option<Result<(), WaitError>> {
    if m.method_ != STATE_CHANGED then None
    else
      var (id, state) := codec.serverState(m.params);
      if id != serverID then None
      else if state == want then Some(Ok(()))
      else if state == STATE_STOPPED then Some(Err(StoppedUnexpectedly))
      else None
  }

  // ---------------------------------------------------------------- on bytes

  function Replies(codec: Codec, ids: seq<int>): string {
    if ids == [] then "" else Frame(codec.reply(ids[0])) + Replies(codec, ids[1..])
  }

  lemma {:induction false} RepliesConcat(codec: Codec, first: seq<int>, second: seq<int>)
    ensures Replies(codec, first + second) == Replies(codec, first) + Replies(codec, second)
  {
    if first == [] {
      assert first + second == second;
    } else {
      assert (first + second)[1..] == first[1..] + second;
      RepliesConcat(codec, first[1..], second);
    }
  }

  datatype Reading<+T> = Reading(value: T, rest: string, answered: seq<int>)

  // Having answered `done` so far, what is left to read is `later`.
  predicate Resumes<T(==)>(whole: Reading<T>, later: Reading<T>, done: seq<int>) {
    whole == Reading(later.value, later.rest, done + later.answered)
  }

  lemma ResumeLater<T>(whole: Reading<T>, now: Reading<T>, later: Reading<T>, done: seq<int>, more: seq<int>)
    requires Resumes(whole, now, done) && Resumes(now, later, more)
    ensures Resumes(whole, later, done + more)
  {
    assert done + (more + later.answered) == done + more + later.answered;
  }

  lemma NoReplies(codec: Codec)
    ensures Replies(codec, []) == ""
  {
  }

  lemma OneReply(codec: Codec, id: int)
    ensures Replies(codec, [id]) == Frame(codec.reply(id))
  {
    assert [id][1..] == [];
    assert Frame(codec.reply(id)) + "" == Frame(codec.reply(id));
  }

  function MsgIn(codec: Codec, s: string): (r: Reading<Result<Msg, ReadError>>)
    ensures r.value.Ok? ==> |r.rest| < |s|
    decreases |s|
  {
    var (body, rest) := ReadFrame(s);
    if body.Err? then Reading(Err(body.error), rest, [])
    else
      match codec.decode(body.value)
      case None => Reading(Err(BadJson), rest, [])
      case Some(m) =>
        if IsServerRequest(m) then
          var later := MsgIn(codec, rest);
          Reading(later.value, later.rest, [m.id.value] + later.answered)
        else Reading(Ok(m), rest, [])
  }

  function AnswerIn(codec: Codec, s: string, id: int): Reading<Result<string, CallError>>
    decreases |s|
  {
    var next := MsgIn(codec, s);
    if next.value.Err? then Reading(Err(Read(next.value.error)), next.rest, next.answered)
    else if IsResponseTo(next.value.value, id) then Reading(Payload(next.value.value), next.rest, next.answered)
    else
      var later := AnswerIn(codec, next.rest, id);
      Reading(later.value, later.rest, next.answered + later.answered)
  }

  function StateIn(codec: Codec, s: string, serverID: string, want: int): Reading<Result<(), WaitError>>
    decreases |s|
  {
    var next := MsgIn(codec, s);
    if next.value.Err? then Reading(Err(WaitRead(next.value.error)), next.rest, next.answered)
    else
      match Judge(codec, serverID, want, next.value.value)
      case Some(verdict) => Reading(verdict, next.rest, next.answered)
      case None =>
        var later := StateIn(codec, next.rest, serverID, want);
        Reading(later.value, later.rest, next.answered + later.answered)
  }

  // One round of each of the loops below.
  lemma AnswerStep(codec: Codec, s: string, id: int)
    ensures var next := MsgIn(codec, s);
      && (next.value.Err? ==>
            AnswerIn(codec, s, id) == Reading(Err(Read(next.value.error)), next.rest, next.answered))
      && (next.value.Ok? && IsResponseTo(next.value.value, id) ==>
            AnswerIn(codec, s, id) == Reading(Payload(next.value.value), next.rest, next.answered))
      && (next.value.Ok? && !IsResponseTo(next.value.value, id) ==>
            Resumes(AnswerIn(codec, s, id), AnswerIn(codec, next.rest, id), next.answered))
  {
    hide MsgIn, Payload, IsResponseTo;
  }

  lemma StateStep(codec: Codec, s: string, serverID: string, want: int)
    ensures var next := MsgIn(codec, s);
      && (next.value.Err? ==>
            StateIn(codec, s, serverID, want) == Reading(Err(WaitRead(next.value.error)), next.rest, next.answered))
      && (next.value.Ok? && Judge(codec, serverID, want, next.value.value).Some? ==>
            StateIn(codec, s, serverID, want)
              == Reading(Judge(codec, serverID, want, next.value.value).value, next.rest, next.answered))
      && (next.value.Ok? && Judge(codec, serverID, want, next.value.value).None? ==>
            Resumes(StateIn(codec, s, serverID, want), StateIn(codec, next.rest, serverID, want), next.answered))
  {
    hide MsgIn, Judge;
  }

  class Client {
    const codec: Codec
    var data: string    // what the connection has delivered by the deadline
    var pos: nat        // the reader's cursor
    var output: string  // what has been written to the connection
    var nextID: int

    predicate Valid()
      reads this
    {
      pos <= |data|
    }

    function Unread(): string
      requires Valid()
      reads this
    {
      data[pos..]
    }

    constructor (codec: Codec)
      ensures Valid() && Unread() == "" && output == "" && nextID == 0 && this.codec == codec
    {
      this.codec := codec;
      data, pos, output, nextID := "", 0, "", 0;
    }

    // The connection delivers more.
    method Deliver(bytes: string)
      requires Valid()
      modifies this`data
      ensures Valid() && Unread() == old(Unread()) + bytes
    {
      data := data + bytes;
    }

    /**
      None: the request could not be marshalled or written. Its id is used up all the same, and a
      part of its frame may have been written.
    */
    method Send(method_: string, params: string) returns (id: Option<int>)
      modifies this`nextID, this`output
      ensures nextID == old(nextID) + 1 && (id.Some? ==> id.value == nextID)
      ensures var frame := Frame(codec.request(nextID, method_, params));
        if id.Some? then output == old(output) + frame
        else exists k | 0 <= k <= |frame| :: output == old(output) + frame[..k]
    {
      nextID := nextID + 1;
      var reqID := nextID;
      var body := codec.request(reqID, method_, params);
      var header := LENGTH_HEADER + Itoa(|body|) + "\r\n\r\n";
      ghost var frame := header + body;
      assert frame == Frame(body);
      var marshals: bool := *;
      if !marshals {
        assert output == output + frame[..0];
        return None;
      }
      var written := Write(header);
      if written < |header| {
        assert header[..written] == frame[..written];
        return None;
      }
      assert header[..written] == header;
      written := Write(body);
      if written < |body| {
        assert header + body[..written] == frame[..|header| + written];
        assert old(output) + header + body[..written] == old(output) + frame[..|header| + written];
        return None;
      }
      assert body[..written] == body;
      return Some(reqID);
    }

    // conn.Write: fewer bytes than asked for are an error.
    method Write(bytes: string) returns (n: nat)
      modifies this`output
      ensures n <= |bytes| && output == old(output) + bytes[..n]
    {
      n :| n <= |bytes|;
      output := output + bytes[..n];
    }

    method ReplyNull(id: int)
      modifies this`output
      ensures output == old(output) + Frame(codec.reply(id))
    {
      var body := codec.reply(id);
      output := output + (LENGTH_HEADER + Itoa(|body|) + "\r\n\r\n");
      output := output + body;
    }

    // bufio.Reader.ReadString('\n')
    method ReadString() returns (line: Option<string>)
      requires Valid()
      modifies this`pos
      ensures Valid()
      ensures var s := old(Unread()); var i := IndexOf(s, '\n');
        if i == |s| then line.None? && Unread() == ""
        else line == Some(s[..i + 1]) && Unread() == s[i + 1..]
    {
      var start := pos;
      ghost var s := Unread();
      while pos < |data|
        invariant start <= pos <= |data|
        invariant '\n' !in data[start..pos]
      {
        pos := pos + 1;
        if data[pos - 1] == '\n' {
          assert s == data[start..pos - 1] + ['\n'] + data[pos..];
          IndexOfSkips(data[start..pos - 1], '\n', data[pos..]);
          assert s[..pos - start] == data[start..pos] && s[pos - start..] == data[pos..];
          return Some(data[start..pos]);
        }
      }
      assert s == data[start..pos];
      return None;
    }

    // The header loop and the body of one frame.
    method ReadBody() returns (r: Result<string, ReadError>)
      requires Valid()
      modifies this`pos
      ensures Valid()
      ensures (r, Unread()) == ReadFrame(old(Unread()))
    {
      hide ReadHeaders, IndexOf, TrimEol, Atoi;
      ghost var s := Unread();
      var contentLen: int := 0;
      var inHeader := true;
      while inHeader
        invariant Valid()
        invariant inHeader ==> ReadHeaders(s, 0) == ReadHeaders(Unread(), contentLen)
        invariant !inHeader ==> ReadHeaders(s, 0) == Some((contentLen, Unread()))
        decreases inHeader, |data| - pos
      {
        HeaderStep(Unread(), contentLen);
        var raw := ReadString();
        if raw.None? {
          return Err(Eof);
        }
        var line := TrimEol(raw.value);
        if line == "" {
          inHeader := false;
        } else if StartsWith(line, LENGTH_HEADER) {
          contentLen := Atoi(line[|LENGTH_HEADER|..]);
        }
      }
      if contentLen <= 0 {
        return Err(NoLength);
      }
      if contentLen > |data| - pos {
        pos := |data|;
        assert Unread() == "";
        return Err(Eof);
      }
      var body := data[pos..pos + contentLen];
      assert body == Unread()[..contentLen] && data[pos + contentLen..] == Unread()[contentLen..];
      pos := pos + contentLen;
      return Ok(body);
    }

    method ReadMsg() returns (r: Result<Msg, ReadError>)
      requires Valid()
      modifies this`pos, this`output
      ensures Valid()
      ensures Reading(r, Unread(), MsgIn(codec, old(Unread())).answered) == MsgIn(codec, old(Unread()))
      ensures output == old(output) + Replies(codec, MsgIn(codec, old(Unread())).answered)
    {
      hide ReadFrame, Frame;
      ghost var answered: seq<int> := [];
      ghost var s0 := Unread();
      assert output + Replies(codec, []) == output;
      while true
        invariant Valid()
        invariant Resumes(MsgIn(codec, s0), MsgIn(codec, Unread()), answered)
        invariant output == old(output) + Replies(codec, answered)
        decreases |Unread()|
      {
        ghost var now := MsgIn(codec, Unread());
        assert answered + [] == answered;
        var body := ReadBody();
        if body.Err? {
          return Err(body.error);
        }
        var decoded := codec.decode(body.value);
        if decoded.None? {
          return Err(BadJson);
        }
        var msg := decoded.value;
        if msg.method_ != "" && msg.id.Some? {
          ReplyNull(msg.id.value);
          RepliesConcat(codec, answered, [msg.id.value]);
          OneReply(codec, msg.id.value);
          ResumeLater(MsgIn(codec, s0), now, MsgIn(codec, Unread()), answered, [msg.id.value]);
          answered := answered + [msg.id.value];
        } else {
          return Ok(msg);
        }
      }
    }

    method Call(method_: string, params: string) returns (r: Result<string, CallError>)
      requires Valid()
      modifies this`pos, this`output, this`nextID
      ensures Valid() && nextID == old(nextID) + 1
      ensures r == Err(NotSent) ==> Unread() == old(Unread())
      ensures r == Err(NotSent) ==>
        var frame := Frame(codec.request(nextID, method_, params));
        exists k | 0 <= k <= |frame| :: output == old(output) + frame[..k]
      ensures r != Err(NotSent) ==>
        var answer := AnswerIn(codec, old(Unread()), nextID);
        && Reading(r, Unread(), answer.answered) == answer
        && output == old(output) + Frame(codec.request(nextID, method_, params)) + Replies(codec, answer.answered)
    {
      hide ReadFrame, Frame, MsgIn, AnswerIn, Replies;
      ghost var s0 := Unread();
      var sentID := Send(method_, params);
      if sentID.None? {
        return Err(NotSent);
      }
      var reqID := sentID.value;
      ghost var answered: seq<int> := [];
      ghost var sent := output;
      NoReplies(codec);
      assert sent + "" == sent;
      while true
        invariant Valid() && nextID == reqID
        invariant Resumes(AnswerIn(codec, s0, reqID), AnswerIn(codec, Unread(), reqID), answered)
        invariant output == sent + Replies(codec, answered)
        decreases |Unread()|
      {
        ghost var now := AnswerIn(codec, Unread(), reqID);
        ghost var next := MsgIn(codec, Unread());
        AnswerStep(codec, Unread(), reqID);
        RepliesConcat(codec, answered, next.answered);
        var msg := ReadMsg();
        if msg.Err? {
          return Err(Read(msg.error));
        }
        if msg.value.method_ == "" && msg.value.id == Some(reqID) {
          if msg.value.error != "" && msg.value.error != "null" {
            return Err(Remote(msg.value.error));
          }
          return Ok(msg.value.result);
        }
        ResumeLater(AnswerIn(codec, s0, reqID), now, AnswerIn(codec, Unread(), reqID), answered, next.answered);
        answered := answered + next.answered;
      }
    }

    method WaitState(serverID: string, want: int) returns (r: Result<(), WaitError>)
      requires Valid()
      modifies this`pos, this`output
      ensures Valid()
      ensures Reading(r, Unread(), StateIn(codec, old(Unread()), serverID, want).answered)
           == StateIn(codec, old(Unread()), serverID, want)
      ensures output == old(output) + Replies(codec, StateIn(codec, old(Unread()), serverID, want).answered)
    {
      hide ReadFrame, Frame, MsgIn, StateIn, Replies;
      ghost var s0 := Unread();
      ghost var answered: seq<int> := [];
      NoReplies(codec);
      assert output + "" == output;
      while true
        invariant Valid()
        invariant Resumes(StateIn(codec, s0, serverID, want), StateIn(codec, Unread(), serverID, want), answered)
        invariant output == old(output) + Replies(codec, answered)
        decreases |Unread()|
      {
        ghost var now := StateIn(codec, Unread(), serverID, want);
        ghost var next := MsgIn(codec, Unread());
        StateStep(codec, Unread(), serverID, want);
        RepliesConcat(codec, answered, next.answered);
        var msg := ReadMsg();
        if msg.Err? {
          return Err(WaitRead(msg.error));
        }
        if msg.value.method_ == STATE_CHANGED {
          var (id, state) := codec.serverState(msg.value.params);
          if id == serverID {
            if state == want {
              return Ok(());
            }
            if state == STATE_STOPPED {
              return Err(StoppedUnexpectedly);
            }
          }
        }
        ResumeLater(StateIn(codec, s0, serverID, want), now, StateIn(codec, Unread(), serverID, want), answered, next.answered);
        answered := answered + next.answered;
      }
    }
  }
}
