/**
  The `Command` value of sphinxcontrib.programoutput: an immutable description of
  one external command (what to run, whether through a shell, whether standard
  error is hidden, and where to run it).  Its value equality is what makes it
  usable as a cache key, so this module proves which inputs give equal commands.
 */
module Commands {
  import opened Wrappers

  /** The command as the caller hands it in: Python `str`, `list` or `tuple` of strings. */
  datatype RawCommand = Text(text: string) | List(items: seq<string>) | Tuple(items: seq<string>)

  /** Python can hash strings and tuples of strings, but not lists. */
  predicate Hashable(raw: RawCommand)
  {
    !raw.List?
  }

  /** The canonical stored form: a shell-syntax string, or a frozen argv sequence. */
  datatype CommandValue = Str(text: string) | Argv(tokens: seq<string>)

  /** A command value with its flags; datatype equality stands in for Python's `==`/`hash`. */
  datatype Command = Command(
    command: CommandValue,
    shell: bool,
    hideStandardError: bool,
    workingDirectory: Option<string>)

  /** The host's `program_output` directive node, reduced to the fields a command is built from. */
  datatype ProgramOutputNode = ProgramOutputNode(
    command: string,
    useShell: bool,
    hideStandardError: bool,
    workingDirectory: string,
    extraArgs: Option<string>)

  /** Two raw commands are the same command when they are the same string or hold the same
      tokens in the same order, whether as a list or as a tuple. */
  predicate SameCommand(a: RawCommand, b: RawCommand)
  {
    if a.Text? then b.Text? && a.text == b.text
    else !b.Text? && a.items == b.items
  }

  /** Normalisation: a string is kept verbatim, a list or tuple is frozen into an argv sequence. */
  function Freeze(raw: RawCommand): (v: CommandValue)
    ensures v.Str? <==> raw.Text?
    ensures raw.Text? ==> v.text == raw.text
    ensures !raw.Text? ==> |v.tokens| == |raw.items|
    ensures !raw.Text? ==> forall i :: 0 <= i < |raw.items| ==> v.tokens[i] == raw.items[i]
  {
    match raw
    case Text(s) => Str(s)
    case List(xs) => Argv(xs)
    case Tuple(xs) => Argv(xs)
  }

  /** What the `command` attribute shows a Python caller: a string, or a tuple. */
  function Exposed(v: CommandValue): (raw: RawCommand)
    ensures Hashable(raw)
    ensures Freeze(raw) == v
  {
    match v
    case Str(s) => Text(s)
    case Argv(xs) => Tuple(xs)
  }

  /** `Command(command, shell, hide_standard_error, working_directory)`. */
  function New(raw: RawCommand, shell: bool, hideStandardError: bool, workingDirectory: Option<string>): (c: Command)
    ensures raw.Text? ==> Exposed(c.command) == raw
    ensures raw.List? ==> Exposed(c.command) == Tuple(raw.items)
    ensures raw.Tuple? ==> Exposed(c.command) == raw
    ensures Hashable(Exposed(c.command))
    ensures c.shell == shell
    ensures c.hideStandardError == hideStandardError
    ensures c.workingDirectory == workingDirectory
  {
    Command(Freeze(raw), shell, hideStandardError, workingDirectory)
  }

  /** Freezing and then reading back the attribute gives the input, with a list turned into a tuple. */
  lemma {:induction false} ExposedFreezeRoundTrip(raw: RawCommand)
    ensures SameCommand(Exposed(Freeze(raw)), raw)
    ensures Hashable(raw) ==> Exposed(Freeze(raw)) == raw
  {
    match raw
    case Text(s) =>
    case List(xs) =>
    case Tuple(xs) =>
  }

  /** Two constructions give equal (equally hashed) commands exactly when they describe the same
      command with the same flags; in particular equal lists give equal commands. */
  lemma NewEqualIff(a: RawCommand, sa: bool, ha: bool, wa: Option<string>,
                    b: RawCommand, sb: bool, hb: bool, wb: Option<string>)
    ensures New(a, sa, ha, wa) == New(b, sb, hb, wb)
        <==> SameCommand(a, b) && sa == sb && ha == hb && wa == wb
  {
    if New(a, sa, ha, wa) == New(b, sb, hb, wb) {
      ExposedFreezeRoundTrip(a);
      ExposedFreezeRoundTrip(b);
    }
  }

  /** The node's command, followed by one space and the extra arguments when the node has any. */
  function WithExtraArgs(base: string, extraArgs: Option<string>): (s: string)
    ensures extraArgs.None? ==> s == base
    ensures extraArgs.Some? ==> |s| == |base| + 1 + |extraArgs.value|
    ensures extraArgs.Some? ==> s[..|base|] == base && s[|base|] == ' ' && s[|base| + 1..] == extraArgs.value
  {
    match extraArgs
    case None => base
    case Some(extra) => base + " " + extra
  }

  /** `Command.from_program_output_node(node)`. */
  function FromProgramOutputNode(node: ProgramOutputNode): (c: Command)
    ensures c.command.Str?
    ensures node.extraArgs.None? ==> c.command.text == node.command
    ensures node.extraArgs.Some? ==> c.command.text == node.command + " " + node.extraArgs.value
    ensures c.shell == node.useShell
    ensures c.hideStandardError == node.hideStandardError
    ensures c.workingDirectory == Some(node.workingDirectory)
  {
    New(Text(WithExtraArgs(node.command, node.extraArgs)), node.useShell, node.hideStandardError,
        Some(node.workingDirectory))
  }

  /** Changing one flag of the node changes only the corresponding field of the command. */
  lemma FromNodeFlagsIndependent(node: ProgramOutputNode, b: bool)
    ensures FromProgramOutputNode(node.(useShell := b)) == FromProgramOutputNode(node).(shell := b)
    ensures FromProgramOutputNode(node.(hideStandardError := b))
         == FromProgramOutputNode(node).(hideStandardError := b)
  {
  }

  /** The base command and the extra arguments can be read back from the joined command
      text, so a node with extra arguments never collides with the same node without them. */
  lemma {:induction false} FromNodeExtraArgsRecoverable(node: ProgramOutputNode)
    requires node.extraArgs.Some?
    ensures FromProgramOutputNode(node).command.text[..|node.command|] == node.command
    ensures FromProgramOutputNode(node).command.text[|node.command| + 1..] == node.extraArgs.value
    ensures FromProgramOutputNode(node) != FromProgramOutputNode(node.(extraArgs := None))
  {
    var t := FromProgramOutputNode(node).command.text;
    assert |t| == |node.command| + 1 + |node.extraArgs.value|;
  }

  /** The example node of the tests: `'echo spam'`, flags off, in `/spam/with/eggs`, then
      with each flag switched on in turn. */
  lemma FromNodeExample()
    ensures var node := ProgramOutputNode("echo spam", false, false, "/spam/with/eggs", None);
      && FromProgramOutputNode(node) == Command(Str("echo spam"), false, false, Some("/spam/with/eggs"))
      && FromProgramOutputNode(node.(useShell := true)).shell
      && !FromProgramOutputNode(node.(useShell := true)).hideStandardError
      && FromProgramOutputNode(node.(useShell := true, hideStandardError := true)).hideStandardError
  {
  }

  /** `'echo spam'` with extra arguments `'with eggs'` becomes `'echo spam with eggs'`. */
  lemma FromNodeExtraArgsExample()
    ensures FromProgramOutputNode(ProgramOutputNode("echo spam", false, false, "/", Some("with eggs"))).command
         == Str("echo spam with eggs")
  {
  }

  /** `Command(['echo', 'spam'])` exposes the tuple `('echo', 'spam')` and equals a second
      command built from the equal tuple. */
  lemma NewFromListExample()
    ensures Exposed(New(List(["echo", "spam"]), false, false, None).command) == Tuple(["echo", "spam"])
    ensures New(List(["echo", "spam"]), false, false, None) == New(Tuple(["echo", "spam"]), false, false, None)
  {
  }
}
