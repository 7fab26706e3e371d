/**
  Content-Length framing, as in the header part of the Language Server
  Protocol's base protocol. A byte is a character here; a stream is a string.
*/
module RspFraming {
  import opened Wrappers
  import opened Text

  const LENGTH_HEADER := "Content-Length: "

  datatype ReadError = Eof | NoLength | BadJson

  // What `send` and `replyNull` write for one body.
  function Frame(body: string): string {
    LENGTH_HEADER + Itoa(|body|) + "\r\n\r\n" + body
  }

  function Frames(bodies: seq<string>): string {
    if bodies == [] then "" else Frame(bodies[0]) + Frames(bodies[1..])
  }

  // The length that a header line leaves in force.
  function LengthAfter(line: string, len: int): int {
    if StartsWith(line, LENGTH_HEADER) then Atoi(line[|LENGTH_HEADER|..]) else len
  }

  // Reads header lines up to the blank one. None: the stream ended first.
  function ReadHeaders(s: string, len: int): (r: Option<(int, string)>)
    ensures r.Some? ==> |r.value.1| < |s|
    decreases |s|
  {
    var i := IndexOf(s, '\n');
    if i == |s| then None
    else
      var line := TrimEol(s[..i + 1]);
      if line == "" then Some((len, s[i + 1..]))
      else ReadHeaders(s[i + 1..], LengthAfter(line, len))
  }

  lemma HeaderStep(s: string, len: int)
    ensures var i := IndexOf(s, '\n');
      if i == |s| then ReadHeaders(s, len) == None
      else
        var line := TrimEol(s[..i + 1]);
        ReadHeaders(s, len) ==
          if line == "" then Some((len, s[i + 1..])) else ReadHeaders(s[i + 1..], LengthAfter(line, len))
  {
    hide TrimEol, LengthAfter;
  }

  // Reads one frame; the second component is what the reader has left.
  function ReadFrame(s: string): (r: (Result<string, ReadError>, string))
    ensures r.0.Ok? ==> |r.1| < |s|
    ensures |r.1| <= |s|
  {
    match ReadHeaders(s, 0)
    case None => (Err(Eof), "")
    case Some((len, rest)) =>
      if len <= 0 then (Err(NoLength), rest)
      else if len > |rest| then (Err(Eof), "")
      else (Ok(rest[..len]), rest[len..])
  }

  // Reads frames until the stream is used up.
  function ReadAll(s: string): Result<seq<string>, ReadError>
    decreases |s|
  {
    if s == "" then Ok([])
    else
      var (body, rest) := ReadFrame(s);
      if body.Err? then Err(body.error)
      else
        var more := ReadAll(rest);
        if more.Err? then more else Ok([body.value] + more.value)
  }

  // A header line that the reader passes over.
  predicate IgnoredHeader(line: string) {
    '\n' !in line && TrimEol(line) != "" && !StartsWith(TrimEol(line), "Content-Length: ")
  }

  function Block(lines: seq<string>): string {
    if lines == [] then "" else lines[0] + "\r\n" + Block(lines[1..])
  }

  lemma TrimCrLf(line: string)
    ensures TrimEol(line + "\r\n") == TrimEol(line)
  {
    assert (line + "\r\n")[..|line| + 1] == line + "\r";
    assert (line + "\r")[..|line|] == line;
  }

  lemma FirstLine(line: string, rest: string)
    requires '\n' !in line
    ensures var s := line + "\r\n" + rest;
      IndexOf(s, '\n') == |line| + 1 && s[..|line| + 2] == line + "\r\n" && s[|line| + 2..] == rest
  {
    IndexOfSkips(line + "\r", '\n', rest);
    assert line + "\r\n" + rest == line + "\r" + ['\n'] + rest;
  }

  lemma HeaderLine(line: string, rest: string, len: int)
    requires '\n' !in line && TrimEol(line) != ""
    ensures ReadHeaders(line + "\r\n" + rest, len) == ReadHeaders(rest, LengthAfter(TrimEol(line), len))
  {
    FirstLine(line, rest);
    TrimCrLf(line);
  }

  lemma BlankLine(rest: string, len: int)
    ensures ReadHeaders("\r\n" + rest, len) == Some((len, rest))
  {
    FirstLine("", rest);
    TrimCrLf("");
    assert "" + "\r\n" + rest == "\r\n" + rest;
  }

  lemma {:induction false} IgnoredBlock(lines: seq<string>, rest: string, len: int)
    requires forall line <- lines :: IgnoredHeader(line)
    ensures ReadHeaders(Block(lines) + rest, len) == ReadHeaders(rest, len)
  {
    if lines == [] {
      assert Block(lines) + rest == rest;
    } else {
      assert Block(lines) + rest == lines[0] + "\r\n" + (Block(lines[1..]) + rest);
      assert IgnoredHeader(lines[0]);
      HeaderLine(lines[0], Block(lines[1..]) + rest, len);
      IgnoredBlock(lines[1..], rest, len);
    }
  }

  lemma LengthLine(n: nat)
    requires n <= MAX_INT
    ensures var line := LENGTH_HEADER + Itoa(n);
      '\n' !in line && TrimEol(line) == line && LengthAfter(line, 0) == n
  {
    var line := LENGTH_HEADER + Itoa(n);
    AtoiItoa(n);
    assert line[|LENGTH_HEADER|..] == Itoa(n);
    assert IsDigit(line[|line| - 1]);
    forall c | c in line ensures c != '\n' {
      assert c in LENGTH_HEADER || (c in Itoa(n) && IsDigit(c));
    }
  }

  // A frame with the header lines `before` and `after` around its length.
  function FrameWith(before: seq<string>, after: seq<string>, body: string): string {
    Block(before) + ("Content-Length: " + Itoa(|body|) + "\r\n" + (Block(after) + ("\r\n" + body)))
  }

  lemma LengthThenBlock(after: seq<string>, body: string, rest: string)
    requires forall line <- after :: IgnoredHeader(line)
    requires 0 < |body| <= MAX_INT
    ensures ReadHeaders(LENGTH_HEADER + Itoa(|body|) + "\r\n" + (Block(after) + ("\r\n" + (body + rest))), 0)
         == Some((|body|, body + rest))
  {
    var line := LENGTH_HEADER + Itoa(|body|);
    LengthLine(|body|);
    HeaderLine(line, Block(after) + ("\r\n" + (body + rest)), 0);
    IgnoredBlock(after, "\r\n" + (body + rest), |body|);
    BlankLine(body + rest, |body|);
  }

  /**
    One frame, with any other header lines before and after its length, is read back as exactly its
    body, and leaves exactly what followed it.
  */
  lemma FrameRoundTrip(before: seq<string>, after: seq<string>, body: string, rest: string)
    requires forall line <- before + after :: IgnoredHeader(line)
    requires 0 < |body| <= MAX_INT
    ensures ReadFrame(FrameWith(before, after, body) + rest) == (Ok(body), rest)
  {
    var tail := LENGTH_HEADER + Itoa(|body|) + "\r\n" + (Block(after) + ("\r\n" + (body + rest)));
    assert FrameWith(before, after, body) + rest == Block(before) + tail;
    assert forall l <- before :: l in before + after;
    assert forall l <- after :: l in before + after;
    IgnoredBlock(before, tail, 0);
    LengthThenBlock(after, body, rest);
    assert (body + rest)[..|body|] == body && (body + rest)[|body|..] == rest;
  }

  lemma FrameReads(body: string, rest: string)
    requires 0 < |body| <= MAX_INT
    ensures Frame(body) == FrameWith([], [], body)
    ensures ReadFrame(Frame(body) + rest) == (Ok(body), rest)
  {
    FrameRoundTrip([], [], body, rest);
    assert Frame(body) == FrameWith([], [], body);
  }

  lemma ReadAllStep(s: string, body: string, rest: string, more: seq<string>)
    requires ReadFrame(s) == (Ok(body), rest) && ReadAll(rest) == Ok(more)
    ensures ReadAll(s) == Ok([body] + more)
  {
  }

  /** Any list of bodies survives being framed, concatenated and read back. */
  lemma {:induction false} FramesRoundTrip(bodies: seq<string>)
    requires forall body <- bodies :: 0 < |body| <= MAX_INT
    ensures ReadAll(Frames(bodies)) == Ok(bodies)
  {
    hide ReadFrame, Frame;
    if bodies == [] {
    } else {
      var body, tail := bodies[0], bodies[1..];
      FrameReads(body, Frames(tail));
      FramesRoundTrip(tail);
      ReadAllStep(Frame(body) + Frames(tail), body, Frames(tail), tail);
      assert bodies == [body] + tail;
    }
  }

  lemma {:induction false} FramesConcat(first: seq<string>, second: seq<string>)
    ensures Frames(first + second) == Frames(first) + Frames(second)
  {
    if first == [] {
      assert first + second == second;
    } else {
      assert (first + second)[1..] == first[1..] + second;
      FramesConcat(first[1..], second);
    }
  }

  lemma FirstLineStays(s: string, more: string)
    requires IndexOf(s, '\n') < |s|
    ensures var i := IndexOf(s, '\n');
      IndexOf(s + more, '\n') == i && (s + more)[..i + 1] == s[..i + 1] && (s + more)[i + 1..] == s[i + 1..] + more
  {
    var i := IndexOf(s, '\n');
    assert s + more == s[..i] + ['\n'] + (s[i + 1..] + more);
    IndexOfSkips(s[..i], '\n', s[i + 1..] + more);
  }

  lemma {:induction false} HeadersIgnoreWhatFollows(s: string, more: string, len: int)
    requires ReadHeaders(s, len).Some?
    ensures var (n, rest) := ReadHeaders(s, len).value;
      ReadHeaders(s + more, len) == Some((n, rest + more)) && EndsWith(s, rest)
    decreases |s|
  {
    hide IndexOf, TrimEol, LengthAfter;
    var i := IndexOf(s, '\n');
    FirstLineStays(s, more);
    var line := TrimEol(s[..i + 1]);
    if line == "" {
    } else {
      HeadersIgnoreWhatFollows(s[i + 1..], more, LengthAfter(line, len));
      var rest := ReadHeaders(s, len).value.1;
      assert s[|s| - |rest|..] == s[i + 1..][|s[i + 1..]| - |rest|..];
    }
  }

  /** A frame that has arrived whole reads the same whatever arrives after it, and is a piece of the stream. */
  lemma FrameIgnoresWhatFollows(s: string, more: string)
    requires ReadFrame(s).0.Ok?
    ensures var (body, rest) := ReadFrame(s);
      ReadFrame(s + more) == (body, rest + more) && EndsWith(s, body.value + rest)
  {
    hide ReadHeaders;
    HeadersIgnoreWhatFollows(s, more, 0);
    var (len, rest) := ReadHeaders(s, 0).value;
    assert (rest + more)[..len] == rest[..len];
    assert (rest + more)[len..] == rest[len..] + more;
    assert rest == rest[..len] + rest[len..];
  }
}
