# sphinxcontrib-programoutput: the `Command` value, verified in Dafny

sphinxcontrib-programoutput runs shell commands while a Sphinx document is built and puts
their output into the document. The `Command` value describes one such command: the command
itself, the `shell` flag, the `hide_standard_error` flag and the working directory. Because
`Command` is an immutable value with value equality, identical commands can share one cached
result. This project models three parts of `Command` as pure functions over immutable datatypes:

1. **Construction.** `Commands.New` models `Command(command, shell, hide_standard_error,
   working_directory)`. A string is stored verbatim. A list or tuple of tokens is frozen into an
   ordered argv sequence, so the `command` attribute shows a tuple, and a tuple is hashable.
   Datatype equality stands in for Python's `==` and `hash`.
2. **Translation from a directive node.** `Commands.FromProgramOutputNode` models
   `Command.from_program_output_node`. It copies the command and the working directory and maps
   `use_shell` to `shell` and `hide_standard_error` to `hide_standard_error`. When the node has
   `extraargs`, the command becomes the base command, one space, then the extra arguments.
3. **Post-processing of a finished run.** `Output.GetOutput` models `Command.get_output` on a run
   that has already finished. The run is given as `ProcessOutcome`: the exit code, plus the
   child's writes to standard output and standard error in the order they happened. The result
   is the exit code unchanged and the captured text with trailing whitespace removed. Trailing
   whitespace means Python's `str.rstrip()` whitespace set (`Output.IsSpace`).

`ResultCache` adds an explicit memo table keyed by `Command`. It is the use the hashability test
protects: `ResultCache.RunAll` returns the commands for which a process ran, and proves that
these are exactly the distinct requested commands, each listed once.

Files: `wrappers.dfy` (`Option`), `command.dfy` (module `Commands`), `output.dfy` (module
`Output`), `cache.dfy` (module `ResultCache`).

The implementation module of the package is not part of this model. The behaviour is
reconstructed from the test suite `src/sphinxcontrib/programoutput/tests/test_command.py`,
which pins it down.

### Routing of standard error

The model routes standard error the way the package does. When standard error is hidden, it goes
to a separate error pipe, and nothing written there reaches the output. When it is not hidden,
it is redirected into the standard-output pipe, interleaved with standard output in write order
(`Output.Captured`). The tests agree with this routing but do not decide it on their own:
- Lines 85 and 92 show that an unhidden process has no separate error pipe
  (`process.stderr is None`). That would also be true if the stream were inherited from the
  parent instead of merged.
- Line 99 shows only that a hidden process has an open error pipe.

## Model

| member | source | states |
|---|---|---|
| Commands.Freeze | src/sphinxcontrib/programoutput/tests/test_command.py:35-43 | a string stays a string with the same text; a list or tuple becomes an argv sequence with the same elements in the same order |
| Commands.Exposed | src/sphinxcontrib/programoutput/tests/test_command.py:41-51 | the `command` attribute is always hashable (a string or a tuple, never a list), and freezing it again gives back the same stored value |
| Commands.New | src/sphinxcontrib/programoutput/tests/test_command.py:35-51 | `Command(cmd)` and `Command(cmd, shell=True)` expose `cmd` itself; `Command(list)` exposes the tuple of the same tokens; the result is hashable even from a list; the flags and working directory are stored as given |
| Commands.ExposedFreezeRoundTrip | src/sphinxcontrib/programoutput/tests/test_command.py:41-51 | reading back the attribute of a frozen command gives the input, with a list turned into a tuple; a hashable input comes back unchanged |
| Commands.NewEqualIff | src/sphinxcontrib/programoutput/tests/test_command.py:46-51 | two constructions give equal (so equally hashed) commands if and only if they have the same string, or the same tokens whether given as a list or a tuple, and the same flags and working directory |
| Commands.WithExtraArgs | src/sphinxcontrib/programoutput/tests/test_command.py:72-80 | with no extra arguments the command is unchanged; with extra arguments it is the base, one space, then the extra arguments, and both parts can be read back by position |
| Commands.FromProgramOutputNode | src/sphinxcontrib/programoutput/tests/test_command.py:54-80 | the node's command (plus `' ' + extraargs` when present) is stored as a shell-syntax string; `shell` comes from `use_shell`, `hide_standard_error` from `hide_standard_error`, and the working directory is copied verbatim |
| Commands.FromNodeFlagsIndependent | src/sphinxcontrib/programoutput/tests/test_command.py:65-69 | changing `use_shell` on the node changes only `shell`; changing `hide_standard_error` changes only `hide_standard_error` |
| Commands.FromNodeExtraArgsRecoverable | src/sphinxcontrib/programoutput/tests/test_command.py:72-80 | the joined command starts with the base command and ends with the extra arguments; in this model, where the joined text is not stripped, a node with extra arguments (even empty ones) never gives the same command as the node without them |
| Commands.FromNodeExample | src/sphinxcontrib/programoutput/tests/test_command.py:54-69 | the test's node (`'echo spam'`, `/spam/with/eggs`, flags off) gives exactly that command; turning on `use_shell` sets `shell` and leaves `hide_standard_error` off; turning on `hide_standard_error` sets it |
| Commands.FromNodeExtraArgsExample | src/sphinxcontrib/programoutput/tests/test_command.py:72-80 | `'echo spam'` with extra arguments `'with eggs'` gives `'echo spam with eggs'` |
| Commands.NewFromListExample | src/sphinxcontrib/programoutput/tests/test_command.py:41-51 | `Command(['echo', 'spam'])` exposes `('echo', 'spam')` and equals the command built from that tuple |
| Output.RStrip | src/sphinxcontrib/programoutput/tests/test_command.py:103-106 | the result is a prefix of the input; it is empty or ends in a non-whitespace character; everything removed is whitespace |
| Output.RStripUnique | src/sphinxcontrib/programoutput/tests/test_command.py:103-106 | any text with those three properties equals `RStrip` of the input, so the properties define trimming completely |
| Output.RStripIdempotent | src/sphinxcontrib/programoutput/tests/test_command.py:103-106 | trimming an already trimmed text changes nothing |
| Output.RStripIgnoresTrailingSpace | src/sphinxcontrib/programoutput/tests/test_command.py:103-106 | appending whitespace, such as `echo`'s newline, does not change the trimmed text |
| Output.StdoutOnly | src/sphinxcontrib/programoutput/tests/test_command.py:97-100 | diverting standard error keeps only standard-output writes, keeps every one of them, and adds nothing; the text they carry is the standard-output text in write order |
| Output.StdoutOnlyAppend | src/sphinxcontrib/programoutput/tests/test_command.py:97-100 | diverting standard error is an order-preserving filter: diverting from two runs of writes one after the other gives the two results one after the other |
| Output.GetOutput | src/sphinxcontrib/programoutput/tests/test_command.py:103-113 | the exit code is returned unchanged, including a nonzero one; the output is the captured text with exactly its trailing whitespace removed |
| Output.CapturedStreams | src/sphinxcontrib/programoutput/tests/test_command.py:83-100 | with standard error hidden, the piped text is exactly the standard-output text; otherwise it is an interleaving of the standard-output text and the standard-error text, each whole and in its own order |
| Output.HiddenStderrNoninterference | src/sphinxcontrib/programoutput/tests/test_command.py:116-121 | with standard error hidden, two runs with the same exit code and the same standard-output writes give the same result, whatever they wrote to standard error |
| Output.HiddenStderrOnlyIsEmpty | src/sphinxcontrib/programoutput/tests/test_command.py:116-121 | with standard error hidden, a run that writes only to standard error gives empty output and its own exit code |
| Output.HidingWithoutStderrIsNoop | src/sphinxcontrib/programoutput/tests/test_command.py:97-106 | when a run writes nothing to standard error, hiding standard error does not change the result |
| Output.EchoSpamExample | src/sphinxcontrib/programoutput/tests/test_command.py:103-106 | a run writing `"spam\n"` and exiting 0 gives `(0, "spam")` |
| Output.NonzeroExitExample | src/sphinxcontrib/programoutput/tests/test_command.py:109-113 | a run writing `"spam\n"` and exiting 1 gives `(1, "spam")`, not an error |
| Output.HiddenStderrExample | src/sphinxcontrib/programoutput/tests/test_command.py:116-121 | with standard error hidden, a run writing `spam` only to standard error gives `(0, "")` |
| ResultCache.GetOrExecute | src/sphinxcontrib/programoutput/tests/test_command.py:46-51 | a process runs if and only if the command is not cached yet; a hit returns the stored result and leaves the cache unchanged; the cache only grows, and existing entries are never overwritten |
| ResultCache.SecondRequestHits | src/sphinxcontrib/programoutput/tests/test_command.py:46-51 | a second request for an equal command runs no process and returns the identical result |
| ResultCache.EqualListsShareEntry | src/sphinxcontrib/programoutput/tests/test_command.py:41-51 | a command built from a list and one built from the equal tuple share one cache entry, so only one process runs |
| ResultCache.GetOrExecuteFaithful | src/sphinxcontrib/programoutput/tests/test_command.py:46-51 | if every cached result is what its command yields, that stays true after a request, and the request returns what its command yields |
| ResultCache.RunAll | src/sphinxcontrib/programoutput/tests/test_command.py:46-51 | each request in a sequence gets what running its command yields; the commands for which a process ran are exactly the distinct requested commands, none of them twice, so their number is the number of distinct commands |

## Left out

- Spawning and process handles (`execute()`, the pipe objects and `wait()`, lines 83-100): OS process creation and pipe I/O. A finished run is an input (`ProcessOutcome`). Only the routing of standard error that these lines imply is modelled, in `Output.Captured`.
- The working-directory test (lines 124-133) and canonicalising the working directory with `os.path.realpath`: both depend on the real filesystem. The working directory is stored verbatim.
- The default working directory of `Command(...)` when none is given: the tests do not show it, so the model uses an absent value (`None`).
- Splitting a non-shell string into argv tokens (shell lexing) when a process starts: it only matters when spawning.
- Decoding captured bytes into text: this is the job of a foreign codec. The model works on text.
- Python's `hash()` function: hashability is modelled as a property of the stored form (`Commands.Hashable`), and hash agreement as datatype equality.
- Locking and thread safety of a result cache: concurrency. `ResultCache` is a sequential map.
- Failure to spawn a process, and keeping such failures out of the cache: spawning is not modelled.
- Rejecting `shell=True` together with a token sequence: none of the tests show such a check, so construction never fails in the model.
- Commands.FromProgramOutputNode: the package may also strip whitespace around the joined command. The tests use no leading or trailing whitespace, so this is not modelled. The joined command is exactly base, space, extra arguments.
- Commands.FromNodeExtraArgsRecoverable: because the joined text is not stripped, empty or all-whitespace extra arguments (`Some("")` gives `"echo spam "`) still give a command different from the node without extra arguments. With the package's strip, those cases would give the same command, so the lemma's third promise holds only in this model.
- `ResultCache` treats running a command as a pure function (`run: Command -> ProcessOutcome`). This is the package's assumption that commands are deterministic during one build.
