# netvimdiff in Dafny

`netvimdiff.py` lets a user compare and edit two to four files with `vimdiff`. Each file
is local or written `[user@]host:path`. The script copies every remote file with `rsync`
into a fresh temp directory, runs the editor on all of them, asks whether to send the
edited copies back if the editor failed, uploads them, and removes the temp directory
when nothing went wrong.

This project models the whole script. The outside world enters through parameters:

- the exit status of the n-th `rsync` process is `copy(n)`;
- the lines the user types are a finite sequence `stdin`, read through a cursor;
- the exit status of the editor is `editorStatus`;
- the directory `mkdtemp` made is `tmpDir`.

Modules, one per part of the script:

- `Specifier` (`specifier.dfy`): `parse_file`. The parser splits at the first colon and
  is proved equal to the language of the regular expression, including the `$` that
  also matches before one final newline.
- `Staging` (`staging.dfy`): the temp-path formula `{tmp}/{index}-{remote}-{basename}`,
  with decimal printing and POSIX basename.
- `Transfers` (`transfers.dfy`): the `yes`/`no` prompt loop and the `rsync`
  retry/abandon loop. Each is a method with its loops, proved equal to a specification
  function. Also the two transfer directions.
- `Arguments` (`arguments.dfy`): the argv loop and the exit statuses 1, 2 and 3.
- `Orchestration` (`orchestration.dfy`): the run as functions over a `State`. The state
  holds the script's globals plus:
  - the lines and copy processes used so far;
  - a record of every `rsync` call;
  - whether `rm -rf` ran;
  - how the process ended: an exit status, or the `EOFError` that `raw_input` raises
    when input runs out.
- `RunProperties` (`properties.dfy`) and `RunOutcomes` (`runs.dfy`): what a run
  guarantees.
- `Netvimdiff` (`session.dfy`): the script as a `Session` class. Its fields are the
  script's globals and its methods are the script's loops. Each method is proved to
  leave exactly the state its `Orchestration` function describes.

## Model

| member | source | states |
|---|---|---|
| Specifier.ParseFile | netvimdiff.py:37-44 | the slot keeps the given index and has no temp path yet |
| Specifier.RemoteNameDecided | netvimdiff.py:38 | the computed test on the text before the first colon holds exactly when it is in the language of group 1: an optional user of `[A-Za-z0-9-_]` characters and `@`, then a host of `[A-Za-z0-9-_.]` characters |
| Specifier.RemoteNameChars | netvimdiff.py:38 | a remote name has no character outside the host class other than `@`; in particular no `:` |
| Specifier.FirstColonAfter | netvimdiff.py:38 | text without `:` followed by `:` puts the first colon right after it |
| Specifier.ParseRemoteSound | netvimdiff.py:38-40 | a remote slot's `remote` and `file` are groups 1 and 2 of a match of the pattern on the argument |
| Specifier.ParseRemoteComplete | netvimdiff.py:38-40 | whenever the pattern matches with groups r and p, the slot is remote `r` with file `p`, the given index and no temp path |
| Specifier.ParseClassification | netvimdiff.py:37-44 | remote exactly when the pattern matches; invalid exactly for the empty string; otherwise local with `file` the whole argument |
| Specifier.SlashBeforeColonIsLocal | netvimdiff.py:38-42 | a `/` before the first colon makes the argument a local file |
| Specifier.EmptyPathIsLocal | netvimdiff.py:38-42 | `host:` with an empty path (with or without a final newline) is a local file |
| Specifier.ParseUserHostExample | netvimdiff.py:38-40 | `user@host:dir/a:b` gives remote `user@host` and file `dir/a:b`: the user part is kept and later colons stay in the path |
| Staging.Decimal | netvimdiff.py:104 | `%i` of an index is non-empty and ends with the digit of the index modulo 10 |
| Staging.DecimalDigits | netvimdiff.py:104 | `%i` of a non-negative index is a non-empty string of digits, a single digit exactly below 10 |
| Staging.DecimalInjective | netvimdiff.py:104 | different indices print differently |
| Staging.Basename | netvimdiff.py:104 | the basename is no longer than the path, and a non-empty basename ends with the path's last character |
| Staging.BasenameIsLastComponent | netvimdiff.py:104 | the basename is the suffix after the last `/`: it has no `/` and is preceded by `/` unless it is the whole path |
| Staging.TempPathLayout | netvimdiff.py:104 | a temp path is the temp directory, `/`, the decimal index, `-`, the host, `-` and the basename of the remote file, in that order and nothing else |
| Staging.TempPathsDistinct | netvimdiff.py:104 | slots with different indices get different temp paths, whatever their hosts and basenames |
| Staging.TempNameHasNoSlash | netvimdiff.py:104 | the part of a temp path after the temp directory has no `/` |
| Staging.TempPathInsideTempDir | netvimdiff.py:104 | a temp path is the temp directory, then `/`, then a name without `/` |
| Transfers.AskSpec | netvimdiff.py:56-63 | an answered prompt has read at least one line and no more lines than there are |
| Transfers.AskFirstDecisive | netvimdiff.py:56-63 | the prompt stops at the first line that is `yes` or `no` and answers with it; every other line just asks again; input runs out exactly when no such line is left |
| Transfers.Ask | netvimdiff.py:56-63 | the `while True` prompt loop returns the reply `AskSpec` describes |
| Transfers.RsyncSpec | netvimdiff.py:51-64 | at least one copy process runs, and the lines read stay within the input |
| Transfers.Rsync | netvimdiff.py:51-64 | the nested retry and prompt loops return the outcome `RsyncSpec` describes |
| Transfers.RsyncRetriesOnlyFailures | netvimdiff.py:53-59 | every copy before the last one failed, so a copy is repeated only after a failure |
| Transfers.RsyncResult | netvimdiff.py:51-64 | `rsync` returns True exactly when its last copy exited 0, and returns False only right after reading `no` |
| Transfers.AskYesCount | netvimdiff.py:56-59 | the lines one prompt reads contain one `yes` if it answered yes, and none otherwise |
| Transfers.RsyncCopyCount | netvimdiff.py:51-64 | the number of copy processes is one more than the number of `yes` answers read |
| Transfers.RsyncInterrupted | netvimdiff.py:51-64 | `rsync` meets the end of input only after a failed copy, and only when no line left is `no` |
| Transfers.RemoteSpec | netvimdiff.py:67-72 | the address is the host, one `:`, then the remote path |
| Transfers.DownloadRoute | netvimdiff.py:66-68 | a download copies from the `host:path` address to the local temp file |
| Transfers.UploadRoute | netvimdiff.py:71-73 | an upload copies between the same two addresses as the download of that slot, in the opposite direction |
| Transfers.RemoteSpecRoundTrip | netvimdiff.py:67-74 | the `remote:file` address given to `rsync` parses back to the slot it was built from |
| Arguments.ExitCode | netvimdiff.py:77-98 | each early exit has a status between 1 and 3 |
| Arguments.Inspected | netvimdiff.py:86-94 | at most four positions are read, and only those that exist |
| Arguments.ParsedArgs | netvimdiff.py:86-94 | one parsed slot per inspected position |
| Arguments.FirstInvalid | netvimdiff.py:86-91 | the position is that of the first invalid slot, or the number of slots when none is invalid |
| Arguments.FirstInvalidAt | netvimdiff.py:86-91 | an invalid slot with no invalid slot before it is the first invalid slot |
| Arguments.StartupSpec | netvimdiff.py:77-98 | collected slots number 2 to 4, all carry a path, and have indices 1, 2, … in argument order and no temp path |
| Arguments.CollectFiles | netvimdiff.py:77-98 | the argv loop, with its appends and early exits, ends as `StartupSpec` describes |
| Arguments.UsageExactlyWithoutArguments | netvimdiff.py:77-82 | exit 1 happens exactly when argv holds only the program name |
| Arguments.InvalidIffEmpty | netvimdiff.py:88-91 | an inspected argument is rejected exactly when it is empty |
| Arguments.InvalidArgIsFirstEmpty | netvimdiff.py:86-91 | exit 2 names position i exactly when argv[i] is the first empty argument among positions 1 to 4 |
| Arguments.TooFewExactlyWithOneArgument | netvimdiff.py:96-98 | exit 3 happens exactly with one non-empty argument (or an empty argv) |
| Arguments.CollectedSlots | netvimdiff.py:84-98 | slots are collected exactly when there are two or more arguments and none of the first four is empty; they are `parse_file` of argv[1..] in order |
| Arguments.ExtraArgumentsIgnored | netvimdiff.py:86 | arguments after the fourth do not change the outcome |
| Orchestration.StagedTemp | netvimdiff.py:103-109 | a slot gets a temp path exactly when it is remote |
| Orchestration.StagedTempsDistinct | netvimdiff.py:104 | remote slots with different indices get different temp paths |
| Orchestration.StageOne | netvimdiff.py:103-109 | one turn of the staging loop keeps every slot carrying a path and reads no input past the end |
| Orchestration.Downloaded | netvimdiff.py:104-107 | recording a download keeps every slot carrying a path and reads no input past the end |
| Orchestration.StageFrom | netvimdiff.py:102-109 | the staging loop changes only the counters, `has_error`, the transfer record, the outcome and the slots |
| Orchestration.UploadOne | netvimdiff.py:135-137 | one turn of the upload loop leaves the slots unchanged |
| Orchestration.Uploaded | netvimdiff.py:136-137 | recording an upload leaves the slots unchanged |
| Orchestration.UploadFrom | netvimdiff.py:134-137 | the upload loop changes only the counters, `has_error`, the transfer record and the outcome |
| Orchestration.EditorPaths | netvimdiff.py:111-116 | one path per slot, in slot order: the slot's temp path if it has one, else its file |
| Orchestration.EditorLine | netvimdiff.py:111-116 | `vim_args` is `vimdiff` followed by one path per slot, in slot order: the slot's temp path if it has one, else its file |
| Orchestration.EditorLineFromPaths | netvimdiff.py:111-116 | any list that is `vimdiff` followed by each slot's path in order is `vim_args` |
| Orchestration.ConfirmSpec | netvimdiff.py:120-131 | after a zero editor status nothing changes; otherwise only the input cursor and outcome change: the run goes on right after the first `yes`, exits 4 right after the first `no`, every line skipped before is neither, and input runs out exactly when no line left is `yes` or `no` |
| Orchestration.CleanupSpec | netvimdiff.py:139-145 | the script ends with status 0; `rm -rf` runs exactly when no error was recorded and the temp directory is neither `''` nor `'/'`; nothing else changes |
| Orchestration.Finish | netvimdiff.py:118-145 | the prompt, uploads and cleanup end the run, read no input past the end, and change neither the slots, nor the temp directory, nor `vim_args` |
| Orchestration.RunSpec | netvimdiff.py:77-145 | every run ends, reads no input past the end, and makes the temp directory exactly when the arguments are usable |
| Orchestration.AfterStaging | netvimdiff.py:100-116 | if staging ran to the end, every remote slot carries a temp path |
| Orchestration.StageStep | netvimdiff.py:103-109 | one turn of staging changes only slot k's `temp`; unless input ran out, that is the slot's staged temp path |
| Orchestration.StageFrame | netvimdiff.py:102-109 | staging changes only the `temp` of the slots |
| Orchestration.StagingAttachesTemps | netvimdiff.py:102-109 | staging that runs to the end gives every slot its staged temp path (none for a local slot), even when the download failed |
| RunProperties.MovesConcat | netvimdiff.py:102-109 | the moves of two records in a row are the moves of each |
| RunProperties.AnyFailedConcat | netvimdiff.py:106 | a failure in two records in a row is a failure in one of them |
| RunProperties.AnyFailedExists | netvimdiff.py:106 | `AnyFailed` holds exactly when some recorded transfer failed |
| RunProperties.RecordsChain | netvimdiff.py:106 | extending the record twice extends it by both lists of transfers, and `has_error` adds both sets of failures |
| RunProperties.InterruptsChain | netvimdiff.py:102-109 | a complete record followed by an interrupted one is an interrupted record of both lists of transfers |
| RunProperties.InterruptsExtend | netvimdiff.py:102-109 | stopping before the end of a list of transfers is stopping before the end of any longer list that starts with it |
| RunProperties.PlanStep | netvimdiff.py:102-109 | the plan from slot k is slot k's transfer followed by the plan from k + 1 |
| RunProperties.StageStepRecords | netvimdiff.py:103-109 | one turn of staging meets the end of input exactly when the slot is remote and its `rsync` was interrupted, and then has consumed all input and recorded nothing; otherwise it records exactly slot k's download, and `has_error` adds its failure |
| RunProperties.StageRecords | netvimdiff.py:100-109 | staging either meets the end of input or makes exactly one download per remote slot, in slot order, whatever earlier downloads did; `has_error` adds exactly their failures |
| RunProperties.UploadStepRecords | netvimdiff.py:135-137 | one turn of the upload loop meets the end of input exactly when the slot is remote and its `rsync` was interrupted, and then has consumed all input and recorded nothing; otherwise it records exactly slot k's upload from its staged temp path |
| RunProperties.UploadRecords | netvimdiff.py:134-137 | the upload loop either meets the end of input or makes exactly one upload per remote slot, in slot order, including slots whose download failed; `has_error` adds exactly their failures |
| RunProperties.StageInterrupts | netvimdiff.py:100-109 | staging that meets the end of input has consumed all of it, and the downloads made so far are a proper prefix, in order, of those the whole loop makes |
| RunProperties.UploadInterrupts | netvimdiff.py:134-137 | an upload loop that meets the end of input has consumed all of it, and the uploads made so far are a proper prefix, in order, of those the whole loop makes |
| RunOutcomes.PlanIgnoresTemps | netvimdiff.py:134-137 | which transfers a loop makes does not depend on the slots' `temp` |
| RunOutcomes.AfterStagingFacts | netvimdiff.py:100-116 | after staging that ran to the end: the record holds exactly the downloads, every slot has its staged temp path, and `vim_args` is built from the slots; after staging that met the end of input, all input is consumed and the downloads made are a proper prefix of the full list |
| RunOutcomes.FinishFacts | netvimdiff.py:118-145 | after the editor the run ends by end of input (all input consumed, and either no upload or a proper prefix of them made), exit 4 with no further transfer after a non-zero editor status, or exit 0 after one upload per remote slot; `rm -rf` runs exactly at an error-free end with a temp directory other than `''` and `'/'` |
| RunOutcomes.SyncBackPrompt | netvimdiff.py:118-131 | after a zero editor status nothing is asked and the run never exits 4; after a non-zero one, `no` exits 4 right after that line with no transfer and no removal, `yes` continues exactly as after a zero status with that line consumed, and end of input stops the run with no transfer |
| RunOutcomes.FinishPrefix | netvimdiff.py:118-137 | when the rest of a run after staging meets the end of input, its transfers are the downloads followed by a prefix of the uploads |
| RunOutcomes.InterruptedTransfers | netvimdiff.py:100-137 | after the argument check, a run that meets the end of input has consumed it all, kept the temp directory, and made a prefix, in order, of the transfers a complete run makes |
| RunOutcomes.InputRunsOut | netvimdiff.py:77-137 | a run that meets the end of input had usable arguments, consumed all input, kept the temp directory, and made a prefix of the downloads-then-uploads of a complete run |
| RunOutcomes.EarlyExits | netvimdiff.py:77-98 | without usable arguments the run exits with the status the argument check picks, before any temp directory, transfer or input; with usable arguments it ends only by exit 0, exit 4 or end of input |
| RunOutcomes.CompletedRun | netvimdiff.py:100-145 | a run that ends with status 0 made all downloads and then all uploads in slot order, and `has_error` is set exactly when one of them failed |
| RunOutcomes.RemovalRule | netvimdiff.py:139-145 | the temp directory is removed exactly when the run ends with status 0, `has_error` is false and its name is neither `''` nor `'/'` |
| RunOutcomes.DeclinedSyncBack | netvimdiff.py:120-131 | exit 4 only follows a non-zero editor status; no upload was made and the temp directory is kept |
| RunOutcomes.StagedEditorLine | netvimdiff.py:102-116 | after staging, `vim_args` is `vimdiff` followed by each slot's temp path if remote, else its file |
| RunOutcomes.EditorArguments | netvimdiff.py:102-116 | the editor gets `vimdiff` and one path per slot in argument order: the staged temp path `{tmp}/{i}-{remote}-{basename}` of a remote slot, even when its download failed, else the file |
| RunOutcomes.StagedCopiesDistinct | netvimdiff.py:104 | two remote slots never share a temp path, even with the same host and basename |
| RunOutcomes.StagedCopiesInside | netvimdiff.py:104 | every staged temp path is a file directly inside the temp directory |
| RunOutcomes.StageWithoutFailures | netvimdiff.py:102-109 | when every copy succeeds, staging runs to the end without a prompt or an error |
| RunOutcomes.UploadWithoutFailures | netvimdiff.py:134-137 | when every copy succeeds, the upload loop runs to the end without a prompt or an error |
| RunOutcomes.SmoothRun | netvimdiff.py:100-145 | with good arguments, copies that all succeed and an editor that exits 0, no input is read, the run ends with status 0 and no error, and the temp directory is removed unless it is `''` or `'/'` |
| Netvimdiff.Session.constructor | netvimdiff.py:84-101 | a new session is the script's starting state |
| Netvimdiff.Session.Stage | netvimdiff.py:102-109 | the staging loop, mutating each slot's `temp` and accumulating `has_error`, leaves the state `StageFrom` describes |
| Netvimdiff.Session.StageSlot | netvimdiff.py:103-109 | one turn of the staging loop leaves the state `StageOne` describes |
| Netvimdiff.Session.BuildEditorArgs | netvimdiff.py:111-116 | building `vim_args` by appending gives `vimdiff` followed by the slots' paths, and changes nothing else; the input cursor stays within the input |
| Netvimdiff.Session.ConfirmSync | netvimdiff.py:120-131 | the sync-back prompt leaves the state `ConfirmSpec` describes |
| Netvimdiff.Session.UploadAll | netvimdiff.py:134-137 | the upload loop leaves the state `UploadFrom` describes |
| Netvimdiff.Session.UploadSlot | netvimdiff.py:135-137 | one turn of the upload loop leaves the state `UploadOne` describes |
| Netvimdiff.Session.Cleanup | netvimdiff.py:139-145 | the cleanup decision leaves the state `CleanupSpec` describes, with the input cursor within the input |
| Netvimdiff.Session.Run | netvimdiff.py:77-145 | the whole script leaves the state `RunSpec` describes, with the input cursor within the input |

## Left out

- External processes (`rsync`, `vimdiff`, `rm`) are not run. The copy and editor
  statuses are parameters, and `rm -rf` is only the `removed` flag. Its own status is
  ignored by the script too.
- `tempfile.mkdtemp` is not modelled. Its directory is the parameter `tmpDir`, and
  nothing is assumed about its name or uniqueness.
- Console output is not modelled: the usage text, the messages, and the upload message
  that prints its arguments in swapped order.
- End of input at a prompt ends the model's run with the outcome `EndOfInput`. The
  script dies there with an uncaught `EOFError`. The interpreter's traceback and exit
  status are not modelled.
- An endless stream of answers that are neither `yes` nor `no` is not modelled. Input is
  a finite sequence, so every prompt ends.
- Python's regular-expression engine is modelled only as far as this pattern needs:
  - `.` does not match a newline;
  - `$` also matches just before one final newline;
  - the `-` right after the range `0-9` in a class is a literal.
- `os.path.basename` is modelled for POSIX paths only: the text after the last `/`.
- `%i` is modelled for the non-negative indices 1 to 4 the script passes it.
- The slot dictionaries get their `temp` key only in the staging loop. The model's slots
  have `temp = None` from parsing on.
- The script ends with status 0 even when `has_error` is set: only the temp directory is
  kept. The model follows the script.
- Specifier.ParseFile, Transfers.AskSpec, Transfers.RsyncSpec, Arguments.StartupSpec,
  Arguments.ParsedArgs, Orchestration.StageFrom and Orchestration.UploadFrom carry only
  bounds and frame facts in their own contracts. What they compute is stated in the
  lemmas named above.
- Staging.TempPath and Staging.TempName carry no contract of their own. Their layout is
  stated by Staging.TempPathLayout and the lemmas after it.
