/** Bytes split into lines as Python's bytes.splitlines(keepends=True) splits them. */
module EvidenceLines {
  newtype byte = x: int | 0 <= x < 256

  type Bytes = seq<byte>

  const LF: byte := 10
  const CR: byte := 13

  predicate IsBreak(b: byte) {
    b == LF || b == CR
  }

  // The length of the first line, its end included.
  function LineLen(b: Bytes): (n: nat)
    requires b != []
    ensures 0 < n <= |b|
    ensures n < |b| ==> IsBreak(b[n - 1])
  {
    if b[0] == LF then 1
    else if b[0] == CR then (if |b| > 1 && b[1] == LF then 2 else 1)
    else if |b| == 1 then 1
    else 1 + LineLen(b[1..])
  }

  function SplitLines(b: Bytes): seq<Bytes> {
    if b == [] then [] else [b[..LineLen(b)]] + SplitLines(b[LineLen(b)..])
  }

  /**
    The first line reaches through the first line feed or carriage return, with the line feed that
    follows a carriage return; without either it is all there is.
  */
  lemma {:induction false} LineLenIs(b: Bytes, i: nat)
    requires i <= |b| && b != []
    requires (forall j | 0 <= j < i :: b[j] != 10 && b[j] != 13)
    requires i == |b| || b[i] == 10 || b[i] == 13
    ensures LineLen(b) ==
      if i == |b| then i
      else if b[i] == 13 && i + 1 < |b| && b[i + 1] == 10 then i + 2
      else i + 1
  {
    if i > 0 && |b| > 1 {
      assert forall j | 0 <= j < i - 1 :: b[1..][j] == b[j + 1];
      LineLenIs(b[1..], i - 1);
    }
  }

  // Empty, or with its last line ended.
  predicate Terminated(b: Bytes) {
    b == [] || IsBreak(b[|b| - 1])
  }

  // One line: a line feed at the end and no other break.
  predicate IsLine(line: Bytes) {
    line != [] && line[|line| - 1] == LF && forall i | 0 <= i < |line| - 1 :: !IsBreak(line[i])
  }

  function Concat(lines: seq<Bytes>): Bytes {
    if lines == [] then [] else lines[0] + Concat(lines[1..])
  }

  /** Splitting loses nothing. */
  lemma {:induction false} SplitJoins(b: Bytes)
    ensures Concat(SplitLines(b)) == b
    decreases |b|
  {
    if b == [] {
    } else {
      SplitJoins(b[LineLen(b)..]);
    }
  }

  lemma {:induction false} LineLenPlain(line: Bytes)
    requires IsLine(line)
    ensures LineLen(line) == |line|
    decreases |line|
  {
    if |line| <= 1 {
    } else {
      assert IsLine(line[1..]);
      LineLenPlain(line[1..]);
    }
  }

  lemma OneLine(line: Bytes)
    requires IsLine(line)
    ensures SplitLines(line) == [line]
  {
    LineLenPlain(line);
    assert line[..|line|] == line && SplitLines(line[|line|..]) == [];
  }

  // The first line of `b + line`: that of `b`, unless `b` is one line that has not ended.
  lemma {:induction false} LineLenAppended(b: Bytes, line: Bytes)
    requires b != [] && IsLine(line) && |line| > 1
    ensures LineLen(b + line) ==
      if LineLen(b) == |b| && !Terminated(b) then |b| + |line| else LineLen(b)
    decreases |b|
  {
    var all := b + line;
    assert all[0] == b[0] && (|b| > 1 ==> all[1] == b[1]) && (|b| == 1 ==> all[1] == line[0]);
    if !IsBreak(b[0]) {
      if |b| > 1 {
        assert all[1..] == b[1..] + line;
        LineLenAppended(b[1..], line);
      } else {
        assert all[1..] == line;
        LineLenPlain(line);
      }
    }
  }

  lemma SplitStep(b: Bytes)
    requires b != []
    ensures SplitLines(b) == [b[..LineLen(b)]] + SplitLines(b[LineLen(b)..])
  {
  }

  function LastLonger(lines: seq<Bytes>, more: Bytes): seq<Bytes>
    requires lines != []
  {
    lines[..|lines| - 1] + [lines[|lines| - 1] + more]
  }

  lemma TailTerminated(b: Bytes, n: nat)
    requires n < |b|
    ensures Terminated(b[n..]) == Terminated(b)
  {
  }

  /**
    Appending a line adds it as a line of its own exactly when what was there is empty or ends with
    a line break; otherwise it runs into the last line.
  */
  lemma {:induction false} AppendedLines(b: Bytes, line: Bytes)
    requires IsLine(line) && |line| > 1
    ensures Terminated(b) ==> SplitLines(b + line) == SplitLines(b) + [line]
    ensures !Terminated(b) ==> SplitLines(b) != [] && SplitLines(b + line) == LastLonger(SplitLines(b), line)
    decreases |b|
  {
    hide LineLen, SplitLines, IsLine, Terminated;
    if b == [] {
      NothingSplit();
      OneLine(line);
      assert b + line == line && SplitLines(b) + [line] == [line];
    } else {
      var n := LineLen(b);
      var all := b + line;
      LineLenAppended(b, line);
      SplitStep(b);
      SplitStep(all);
      if n == |b| && !Terminated(b) {
        assert all[|b| + |line|..] == [] && b[n..] == [];
        assert all[..|b| + |line|] == all && b[..n] == b;
        NothingSplit();
      } else {
        assert all[..n] == b[..n] && all[n..] == b[n..] + line;
        AppendedLines(b[n..], line);
        if n < |b| {
          TailTerminated(b, n);
        } else {
          assert b[n..] == [];
          NothingSplit();
        }
      }
    }
  }

  lemma NothingSplit()
    ensures SplitLines([]) == [] && Terminated([])
  {
  }

  lemma AppendedIsTerminated(b: Bytes, line: Bytes)
    requires IsLine(line)
    ensures Terminated(b + line)
  {
    assert (b + line)[|b + line| - 1] == line[|line| - 1];
  }
}
