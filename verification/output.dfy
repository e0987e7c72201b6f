/**
  Post-processing of a finished run: `Command.get_output`.  Spawning the process is not
  modelled; what the child wrote is an input, given as the sequence of its writes to
  standard output and standard error in the order they happened.
 */
module Output {
  import opened Commands

  /** One write of the child process, on standard output or on standard error. */
  datatype Chunk = Out(text: string) | Err(text: string)

  /** Everything a finished child process did that `get_output` can observe. */
  datatype ProcessOutcome = ProcessOutcome(exitCode: int, writes: seq<Chunk>)

  /** The `(returncode, output)` pair returned by `get_output`. */
  datatype ExecutionResult = ExecutionResult(exitCode: int, output: string)

  /** Python's `str.isspace`: the characters `str.rstrip()` removes. */
  predicate IsSpace(c: char)
  {
    || c == ' '
    || ('\t' <= c <= '\r')
    || ('\U{1C}' <= c <= '\U{1F}')
    || c == '\U{85}' || c == '\U{A0}' || c == '\U{1680}'
    || ('\U{2000}' <= c <= '\U{200A}')
    || c == '\U{2028}' || c == '\U{2029}' || c == '\U{202F}' || c == '\U{205F}' || c == '\U{3000}'
  }

  /** `r` is `s` with its trailing whitespace removed: a prefix of `s` that does not end in
      whitespace, followed in `s` only by whitespace. */
  predicate IsRStripOf(r: string, s: string)
  {
    && |r| <= |s|
    && r == s[..|r|]
    && (|r| == 0 || !IsSpace(r[|r| - 1]))
    && forall i :: |r| <= i < |s| ==> IsSpace(s[i])
  }

  /** `s.rstrip()`. */
  function RStrip(s: string): (r: string)
    ensures IsRStripOf(r, s)
    decreases |s|
  {
    if |s| > 0 && IsSpace(s[|s| - 1]) then RStrip(s[..|s| - 1]) else s
  }

  /** The trimmed text is the only one of its kind: any `r` with the three defining
      properties is `RStrip(s)`. */
  lemma RStripUnique(r: string, s: string)
    requires IsRStripOf(r, s)
    ensures r == RStrip(s)
  {
  }

  /** Stripping twice strips nothing more. */
  lemma RStripIdempotent(s: string)
    ensures RStrip(RStrip(s)) == RStrip(s)
  {
    var r := RStrip(s);
    assert IsRStripOf(r, r);
    RStripUnique(r, r);
  }

  /** Appending whitespace, such as the trailing newline of `echo`, does not change the result. */
  lemma RStripIgnoresTrailingSpace(s: string, w: string)
    requires forall i :: 0 <= i < |w| ==> IsSpace(w[i])
    ensures RStrip(s + w) == RStrip(s)
  {
    var r := RStrip(s);
    var t := s + w;
    assert t[..|s|] == s;
    assert r == t[..|r|];
    forall i | |r| <= i < |t|
      ensures IsSpace(t[i])
    {
      if i >= |s| {
        assert t[i] == w[i - |s|];
      } else {
        assert t[i] == s[i];
      }
    }
    RStripUnique(r, t);
  }

  /** The concatenated text of the writes, in order. */
  function Concat(ws: seq<Chunk>): string
  {
    if ws == [] then "" else ws[0].text + Concat(ws[1..])
  }

  /** Everything the child wrote to standard output, in order. */
  function StdoutText(ws: seq<Chunk>): string
  {
    if ws == [] then ""
    else (if ws[0].Out? then ws[0].text else "") + StdoutText(ws[1..])
  }

  /** Everything the child wrote to standard error, in order. */
  function StderrText(ws: seq<Chunk>): string
  {
    if ws == [] then ""
    else (if ws[0].Err? then ws[0].text else "") + StderrText(ws[1..])
  }

  /** The writes left after standard error is diverted away from the output pipe: all
      standard-output writes, in their order, and nothing else. */
  function StdoutOnly(ws: seq<Chunk>): (out: seq<Chunk>)
    ensures |out| <= |ws|
    ensures forall i :: 0 <= i < |out| ==> out[i].Out?
    ensures forall i :: 0 <= i < |ws| && ws[i].Out? ==> ws[i] in out
    ensures forall c :: c in out ==> c in ws
    ensures Concat(out) == StdoutText(ws)
  {
    if ws == [] then []
    else if ws[0].Out? then
      var rest := StdoutOnly(ws[1..]);
      assert ([ws[0]] + rest)[1..] == rest;
      [ws[0]] + rest
    else StdoutOnly(ws[1..])
  }

  /** Diverting standard error is an order-preserving filter: it distributes over concatenation. */
  lemma {:induction false} StdoutOnlyAppend(a: seq<Chunk>, b: seq<Chunk>)
    ensures StdoutOnly(a + b) == StdoutOnly(a) + StdoutOnly(b)
    decreases |a|
  {
    if a != [] {
      assert (a + b)[0] == a[0];
      assert (a + b)[1..] == a[1..] + b;
      StdoutOnlyAppend(a[1..], b);
      if a[0].Out? {
        assert [a[0]] + (StdoutOnly(a[1..]) + StdoutOnly(b)) == ([a[0]] + StdoutOnly(a[1..])) + StdoutOnly(b);
      }
    } else {
      assert a + b == b;
    }
  }

  /** `m` is an interleaving of `a` and `b`: it consists of the characters of both, each in
      its own order. */
  ghost predicate Interleaving(m: string, a: string, b: string)
    decreases |m|
  {
    if |m| == 0 then |a| == 0 && |b| == 0
    else
      || (|a| > 0 && m[0] == a[0] && Interleaving(m[1..], a[1..], b))
      || (|b| > 0 && m[0] == b[0] && Interleaving(m[1..], a, b[1..]))
  }

  lemma {:induction false} InterleavingPrefixLeft(x: string, m: string, a: string, b: string)
    requires Interleaving(m, a, b)
    ensures Interleaving(x + m, x + a, b)
    decreases |x|
  {
    if x != [] {
      InterleavingPrefixLeft(x[1..], m, a, b);
      assert (x + m)[1..] == x[1..] + m;
      assert (x + a)[1..] == x[1..] + a;
    } else {
      assert x + m == m && x + a == a;
    }
  }

  lemma {:induction false} InterleavingPrefixRight(x: string, m: string, a: string, b: string)
    requires Interleaving(m, a, b)
    ensures Interleaving(x + m, a, x + b)
    decreases |x|
  {
    if x != [] {
      InterleavingPrefixRight(x[1..], m, a, b);
      assert (x + m)[1..] == x[1..] + m;
      assert (x + b)[1..] == x[1..] + b;
    } else {
      assert x + m == m && x + b == b;
    }
  }

  /** The text that reaches the output pipe.  With `hideStandardError` the error stream is sent
      to a separate pipe that is discarded, so only standard-output writes arrive; otherwise there
      is no separate error pipe and standard error is redirected into the output pipe, interleaved
      with standard output in write order. */
  function Captured(ws: seq<Chunk>, hideStandardError: bool): string
  {
    Concat(if hideStandardError then StdoutOnly(ws) else ws)
  }

  /** `Command.get_output` on a finished run: the exit code as it is, and the captured text with
      its trailing whitespace removed.  A nonzero exit code is ordinary data, not an error. */
  function GetOutput(cmd: Command, outcome: ProcessOutcome): (r: ExecutionResult)
    ensures r.exitCode == outcome.exitCode
    ensures IsRStripOf(r.output, Captured(outcome.writes, cmd.hideStandardError))
  {
    ExecutionResult(outcome.exitCode, RStrip(Captured(outcome.writes, cmd.hideStandardError)))
  }

  /** What reaches the output pipe, stream by stream: with standard error hidden, exactly the
      standard-output text; otherwise an interleaving of the standard-output text and the
      standard-error text, each kept whole and in its own order. */
  lemma {:induction false} CapturedStreams(ws: seq<Chunk>)
    ensures Captured(ws, true) == StdoutText(ws)
    ensures Interleaving(Captured(ws, false), StdoutText(ws), StderrText(ws))
    decreases |ws|
  {
    if ws != [] {
      CapturedStreams(ws[1..]);
      var m, a, b := Concat(ws[1..]), StdoutText(ws[1..]), StderrText(ws[1..]);
      if ws[0].Out? {
        assert StderrText(ws) == b;
        InterleavingPrefixLeft(ws[0].text, m, a, b);
      } else {
        assert StdoutText(ws) == a;
        InterleavingPrefixRight(ws[0].text, m, a, b);
      }
    }
  }

  /** With standard error hidden, nothing the child writes to standard error can change the
      result: two runs with the same exit code and the same standard-output writes give the
      same result, whatever they wrote to standard error. */
  lemma HiddenStderrNoninterference(cmd: Command, a: ProcessOutcome, b: ProcessOutcome)
    requires cmd.hideStandardError
    requires a.exitCode == b.exitCode
    requires StdoutOnly(a.writes) == StdoutOnly(b.writes)
    ensures GetOutput(cmd, a) == GetOutput(cmd, b)
  {
  }

  /** A run that writes only to standard error yields empty output when standard error is
      hidden, and the exit code unchanged. */
  lemma {:induction false} HiddenStderrOnlyIsEmpty(cmd: Command, outcome: ProcessOutcome)
    requires cmd.hideStandardError
    requires forall i :: 0 <= i < |outcome.writes| ==> outcome.writes[i].Err?
    ensures GetOutput(cmd, outcome) == ExecutionResult(outcome.exitCode, "")
  {
    StdoutOnlyOfErrors(outcome.writes);
  }

  lemma {:induction false} StdoutOnlyOfErrors(ws: seq<Chunk>)
    requires forall i :: 0 <= i < |ws| ==> ws[i].Err?
    ensures StdoutOnly(ws) == []
  {
    if ws != [] {
      assert ws[0].Err?;
      StdoutOnlyOfErrors(ws[1..]);
    }
  }

  /** When the child writes nothing to standard error, hiding it makes no difference. */
  lemma {:induction false} HidingWithoutStderrIsNoop(cmd: Command, outcome: ProcessOutcome)
    requires forall i :: 0 <= i < |outcome.writes| ==> outcome.writes[i].Out?
    ensures GetOutput(cmd, outcome) == GetOutput(cmd.(hideStandardError := !cmd.hideStandardError), outcome)
  {
    StdoutOnlyOfOutputs(outcome.writes);
  }

  lemma {:induction false} StdoutOnlyOfOutputs(ws: seq<Chunk>)
    requires forall i :: 0 <= i < |ws| ==> ws[i].Out?
    ensures StdoutOnly(ws) == ws
  {
    if ws != [] {
      assert ws[0].Out?;
      StdoutOnlyOfOutputs(ws[1..]);
      assert ws == [ws[0]] + ws[1..];
    }
  }

  /** `echo spam` writes `"spam\n"` and exits with 0; the result is `(0, "spam")`. */
  lemma EchoSpamExample(cmd: Command)
    ensures GetOutput(cmd, ProcessOutcome(0, [Out("spam\n")])) == ExecutionResult(0, "spam")
  {
    var ws := [Out("spam\n")];
    StdoutOnlyOfOutputs(ws);
    assert ws[1..] == [];
    assert Captured(ws, cmd.hideStandardError) == "spam\n";
    assert "spam\n" == "spam" + "\n";
    RStripIgnoresTrailingSpace("spam", "\n");
    assert !IsSpace('m');
    assert RStrip("spam") == "spam";
  }

  /** A run that prints `spam` and exits with 1 yields `(1, "spam")`, not an error. */
  lemma NonzeroExitExample(cmd: Command)
    ensures GetOutput(cmd, ProcessOutcome(1, [Out("spam\n")])) == ExecutionResult(1, "spam")
  {
    EchoSpamExample(cmd);
  }

  /** A run that writes `spam` to standard error only, with it hidden, yields `(0, "")`. */
  lemma HiddenStderrExample(cmd: Command)
    requires cmd.hideStandardError
    ensures GetOutput(cmd, ProcessOutcome(0, [Err("spam")])) == ExecutionResult(0, "")
  {
    HiddenStderrOnlyIsEmpty(cmd, ProcessOutcome(0, [Err("spam")]));
  }
}
