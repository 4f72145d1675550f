/** What a whole run of netvimdiff.py does, as functions of its inputs: staging (one
    download per remote slot), the editor command line, the sync-back prompt, the uploads
    and the cleanup decision. The copy processes answer through `copy`, the editor through
    its exit status, and the user through the lines of `stdin`. */
module Orchestration {
  import opened Wrappers
  import opened Specifier
  import opened Staging
  import opened Transfers
  import opened Arguments

  /** How the process ends: still running; `sys.exit(code)` or the end of the script
      (status 0); or the `EOFError` a prompt raises when input runs out. */
  datatype Outcome = Running | Exited(code: int) | EndOfInput

  /** The script's global state: how many lines of stdin and copy processes were used,
      the slots, `has_error`, the temp directory (and whether it was created), `vim_args`,
      every `rsync` call made, whether `rm -rf` ran on the temp directory, and the outcome. */
  datatype State = State(
    read: nat,
    calls: nat,
    files: seq<Slot>,
    hasError: bool,
    tmpDir: string,
    tmpCreated: bool,
    vimArgs: seq<string>,
    log: seq<Transfer>,
    removed: bool,
    outcome: Outcome)

  /** The state when the script starts. */
  function Start(): State {
    State(0, 0, [], false, "", false, [], [], false, Running)
  }

  /** The state staging starts from once the slots are collected and the temp directory made. */
  function Initial(files: seq<Slot>, tmpDir: string): State {
    Start().(files := files, tmpDir := tmpDir, tmpCreated := true)
  }

  /** The temp path a slot gets from the staging loop: the formula for a remote slot,
      `None` for a local one. */
  function StagedTemp(tmpDir: string, f: Slot): (t: Option<string>)
    requires f.file.Some?
    ensures t.Some? <==> f.remote.Some?
  {
    if f.remote.Some? then Some(TempPath(tmpDir, f.index, f.remote.value, f.file.value)) else None
  }

  /** Remote slots with different numbers get different staged temp paths. */
  lemma StagedTempsDistinct(tmpDir: string, f: Slot, g: Slot)
    requires f.file.Some? && g.file.Some? && f.remote.Some? && g.remote.Some? && f.index != g.index
    ensures StagedTemp(tmpDir, f) != StagedTemp(tmpDir, g)
  {
    TempPathsDistinct(tmpDir, f.index, f.remote.value, f.file.value, g.index, g.remote.value, g.file.value);
  }

  /** Every remote slot has its staged copy attached. */
  predicate TempsSet(files: seq<Slot>) {
    AllValid(files) && forall k :: 0 <= k < |files| ==> (files[k].remote.Some? ==> files[k].temp.Some?)
  }

  /** The staging loop over slot k: a remote slot is downloaded to its temp path, which
      the slot then keeps whether the download succeeded or not, and `has_error` records
      a failure; a local slot gets `temp = None`. */
  function StageOne(copy: nat -> int, stdin: seq<string>, s: State, k: nat): (r: State)
    requires k < |s.files| && AllValid(s.files) && s.read <= |stdin|
    ensures r.read <= |stdin| && |r.files| == |s.files| && AllValid(r.files)
  {
    var f := s.files[k];
    if f.remote.None? then s.(files := s.files[k := f.(temp := None)])
    else Downloaded(s, k, RsyncSpec(copy, s.calls, stdin, s.read), |stdin|)
  }

  /** The state after the download of remote slot k ended as `a`; `n` is the length of the
      input, all of which a prompt that met its end has read. */
  function Downloaded(s: State, k: nat, a: Attempts, n: nat): (r: State)
    requires k < |s.files| && AllValid(s.files) && s.read <= n && s.files[k].remote.Some?
    requires a.Finished? ==> a.next <= n
    ensures r.read <= n && |r.files| == |s.files| && AllValid(r.files)
  {
    var f := s.files[k];
    var tmpFile := TempPath(s.tmpDir, f.index, f.remote.value, f.file.value);
    var route := DownloadRoute(f.remote.value, f.file.value, tmpFile);
    match a
    case Interrupted(c) =>
      s.(calls := c, read := n, outcome := EndOfInput)
    case Finished(ok, c, next) =>
      s.(calls := c, read := next, hasError := s.hasError || !ok,
         log := s.log + [Transfer(Download, route.0, route.1, ok)],
         files := s.files[k := f.(temp := Some(tmpFile))])
  }

  /** The staging loop from slot k on; it stops when input runs out at a prompt. It
      changes nothing but the counters, `has_error`, the record of transfers, the
      outcome and the slots. */
  function StageFrom(copy: nat -> int, stdin: seq<string>, s: State, k: nat): (r: State)
    requires k <= |s.files| && AllValid(s.files) && s.read <= |stdin|
    ensures r.read <= |stdin| && |r.files| == |s.files| && AllValid(r.files)
    ensures r == s.(read := r.read, calls := r.calls, hasError := r.hasError, log := r.log,
                    outcome := r.outcome, files := r.files)
    decreases |s.files| - k
  {
    if k == |s.files| || !s.outcome.Running? then s
    else StageFrom(copy, stdin, StageOne(copy, stdin, s, k), k + 1)
  }

  /** The upload loop over slot k: a remote slot is uploaded from its temp path and
      `has_error` records a failure; a local slot is skipped. */
  function UploadOne(copy: nat -> int, stdin: seq<string>, s: State, k: nat): (r: State)
    requires k < |s.files| && TempsSet(s.files) && s.read <= |stdin|
    ensures r.read <= |stdin| && r.files == s.files
  {
    if s.files[k].remote.None? then s
    else Uploaded(s, k, RsyncSpec(copy, s.calls, stdin, s.read), |stdin|)
  }

  /** The state after the upload of remote slot k ended as `a`. */
  function Uploaded(s: State, k: nat, a: Attempts, n: nat): (r: State)
    requires k < |s.files| && TempsSet(s.files) && s.read <= n && s.files[k].remote.Some?
    requires a.Finished? ==> a.next <= n
    ensures r.read <= n && r.files == s.files
  {
    var f := s.files[k];
    var route := UploadRoute(f.temp.value, f.remote.value, f.file.value);
    match a
    case Interrupted(c) =>
      s.(calls := c, read := n, outcome := EndOfInput)
    case Finished(ok, c, next) =>
      s.(calls := c, read := next, hasError := s.hasError || !ok,
         log := s.log + [Transfer(Upload, route.0, route.1, ok)])
  }

  /** The upload loop from slot k on; it stops when input runs out at a prompt. It
      changes nothing but the counters, `has_error`, the record of transfers and the
      outcome. */
  function UploadFrom(copy: nat -> int, stdin: seq<string>, s: State, k: nat): (r: State)
    requires k <= |s.files| && TempsSet(s.files) && s.read <= |stdin|
    ensures r.read <= |stdin|
    ensures r == s.(read := r.read, calls := r.calls, hasError := r.hasError, log := r.log,
                    outcome := r.outcome)
    decreases |s.files| - k
  {
    if k == |s.files| || !s.outcome.Running? then s
    else UploadFrom(copy, stdin, UploadOne(copy, stdin, s, k), k + 1)
  }

  /** The path the editor opens for a slot: its staged copy if it has one, else its file. */
  function EffectivePath(f: Slot): string
    requires f.file.Some?
  {
    if f.temp.Some? then f.temp.value else f.file.value
  }

  /** One editor path per slot, in slot order. */
  function EditorPaths(files: seq<Slot>): (paths: seq<string>)
    requires AllValid(files)
    ensures |paths| == |files|
    ensures forall k :: 0 <= k < |files| ==> paths[k] == EffectivePath(files[k])
  {
    if files == [] then [] else [EffectivePath(files[0])] + EditorPaths(files[1..])
  }

  /** `vim_args`: the editor command followed by the slots' paths. */
  function EditorLine(files: seq<Slot>): (line: seq<string>)
    requires AllValid(files)
    ensures |line| == |files| + 1 && line[0] == "vimdiff"
    ensures forall k :: 0 <= k < |files| ==> line[k + 1] == EffectivePath(files[k])
  {
    ["vimdiff"] + EditorPaths(files)
  }

  /** A list of `vimdiff` followed by each slot's effective path is the editor line. */
  lemma EditorLineFromPaths(files: seq<Slot>, args: seq<string>)
    requires AllValid(files) && |args| == |files| + 1 && args[0] == "vimdiff"
    requires forall j :: 0 <= j < |files| ==> args[j + 1] == EffectivePath(files[j])
    ensures args == EditorLine(files)
  {
    var line := EditorLine(files);
    forall j | 0 <= j < |args|
      ensures args[j] == line[j]
    {
      if j > 0 {
        assert args[(j - 1) + 1] == line[(j - 1) + 1];
      }
    }
  }

  /** The sync-back prompt: no prompt after a zero editor status; otherwise `no` exits
      with status 4 and `yes` goes on to the uploads. */
  function ConfirmSpec(stdin: seq<string>, s: State, editorStatus: int): (r: State)
    requires s.read <= |stdin|
    ensures r.read <= |stdin|
    ensures r == s.(read := r.read, outcome := r.outcome)
    ensures editorStatus == 0 ==> r == s
    ensures editorStatus != 0 && s.outcome.Running? ==>
      && (r.outcome.Running? || r.outcome == Exited(4) || r.outcome == EndOfInput)
      && (r.outcome == EndOfInput <==> forall j :: s.read <= j < |stdin| ==> !IsDecisive(stdin[j]))
      && (r.outcome == EndOfInput ==> r.read == |stdin|)
      && (r.outcome != EndOfInput ==>
            && s.read < r.read && stdin[r.read - 1] == (if r.outcome.Running? then "yes" else "no")
            && forall j :: s.read <= j < r.read - 1 ==> !IsDecisive(stdin[j]))
  {
    if editorStatus == 0 then s
    else
      AskFirstDecisive(stdin, s.read);
      match AskSpec(stdin, s.read)
      case InputClosed => s.(read := |stdin|, outcome := EndOfInput)
      case Answered(yes, next) =>
        if yes then s.(read := next) else s.(read := next, outcome := Exited(4))
  }

  /** The cleanup decision: keep the temp directory after an error, otherwise remove it
      unless its name is `''` or `'/'`; the script then ends with status 0. */
  function CleanupSpec(s: State): (r: State)
    ensures r.outcome == Exited(0)
    ensures r.removed <==> s.removed || (!s.hasError && s.tmpDir != "" && s.tmpDir != "/")
    ensures r == s.(removed := r.removed, outcome := r.outcome)
  {
    if s.hasError then s.(outcome := Exited(0))
    else if s.tmpDir != "" && s.tmpDir != "/" then s.(removed := true, outcome := Exited(0))
    else s.(outcome := Exited(0))
  }

  /** One step of staging changes only the `temp` of slot k, and one that does not meet
      the end of input attaches the slot's staged temp path. */
  lemma StageStep(copy: nat -> int, stdin: seq<string>, s: State, k: nat)
    requires k < |s.files| && AllValid(s.files) && s.read <= |stdin|
    ensures var r := StageOne(copy, stdin, s, k);
      && r.files == s.files[k := s.files[k].(temp := r.files[k].temp)]
      && (r.outcome.Running? ==> r.files[k].temp == StagedTemp(s.tmpDir, s.files[k]))
  {
  }

  /** Staging changes no slot before k, and only the `temp` of the others. */
  lemma {:induction false} StageFrame(copy: nat -> int, stdin: seq<string>, s: State, k: nat)
    requires k <= |s.files| && AllValid(s.files) && s.read <= |stdin|
    ensures var r := StageFrom(copy, stdin, s, k);
      && (forall j :: 0 <= j < k ==> r.files[j] == s.files[j])
      && (forall j :: 0 <= j < |s.files| ==> r.files[j] == s.files[j].(temp := r.files[j].temp))
    decreases |s.files| - k
  {
    if k < |s.files| && s.outcome.Running? {
      StageStep(copy, stdin, s, k);
      StageFrame(copy, stdin, StageOne(copy, stdin, s, k), k + 1);
    }
  }

  /** A staging loop that runs to the end attaches to every slot from k on the temp path
      of the formula, whether its download succeeded or not. */
  lemma {:induction false} StagingAttachesTemps(copy: nat -> int, stdin: seq<string>, s: State, k: nat)
    requires k <= |s.files| && AllValid(s.files) && s.read <= |stdin| && s.outcome.Running?
    ensures var r := StageFrom(copy, stdin, s, k);
      r.outcome.Running? ==> forall j :: k <= j < |s.files| ==> r.files[j].temp == StagedTemp(s.tmpDir, s.files[j])
    decreases |s.files| - k
  {
    if k < |s.files| {
      var s1 := StageOne(copy, stdin, s, k);
      if s1.outcome.Running? {
        StagingAttachesTemps(copy, stdin, s1, k + 1);
        StageFrame(copy, stdin, s1, k + 1);
        StageStep(copy, stdin, s, k);
        var r := StageFrom(copy, stdin, s1, k + 1);
        if r.outcome.Running? {
          forall j | k <= j < |s.files|
            ensures r.files[j].temp == StagedTemp(s.tmpDir, s.files[j])
          {
            if j > k {
              assert s1.files[j] == s.files[j].(temp := s1.files[j].temp);
            }
          }
        }
      }
    }
  }

  /** The state after staging, with the editor command line built. */
  function AfterStaging(copy: nat -> int, stdin: seq<string>, files: seq<Slot>, tmpDir: string): (r: State)
    requires AllValid(files)
    ensures r.read <= |stdin| && AllValid(r.files)
    ensures r.outcome.Running? ==> TempsSet(r.files)
  {
    var s0 := Initial(files, tmpDir);
    var s := StageFrom(copy, stdin, s0, 0);
    if s.outcome.Running? then
      StagingAttachesTemps(copy, stdin, s0, 0);
      StageFrame(copy, stdin, s0, 0);
      s.(vimArgs := EditorLine(s.files))
    else s
  }

  /** What follows the editor: the sync-back prompt, the uploads and the cleanup. None
      of them changes the slots, the temp directory or `vim_args`. */
  function Finish(copy: nat -> int, stdin: seq<string>, s: State, editorStatus: int): (r: State)
    requires s.read <= |stdin| && TempsSet(s.files)
    ensures r.files == s.files && r.tmpDir == s.tmpDir && r.tmpCreated == s.tmpCreated && r.vimArgs == s.vimArgs
    ensures r.read <= |stdin| && !r.outcome.Running?
  {
    var s2 := ConfirmSpec(stdin, s, editorStatus);
    if !s2.outcome.Running? then s2
    else
      var s3 := UploadFrom(copy, stdin, s2, 0);
      if !s3.outcome.Running? then s3 else CleanupSpec(s3)
  }

  /** The whole run: the argument check, then staging, the editor (exit status
      `editorStatus`), the sync-back prompt, the uploads and the cleanup. */
  function RunSpec(copy: nat -> int, stdin: seq<string>, argv: seq<string>, tmpDir: string, editorStatus: int): (r: State)
    ensures r.read <= |stdin| && !r.outcome.Running?
    ensures r.tmpCreated <==> StartupSpec(argv).Collected?
  {
    match StartupSpec(argv)
    case Collected(files) =>
      var s1 := AfterStaging(copy, stdin, files, tmpDir);
      if !s1.outcome.Running? then s1 else Finish(copy, stdin, s1, editorStatus)
    case other =>
      Start().(outcome := Exited(ExitCode(other)))
  }
}
