/** The script itself, step by step: the globals of netvimdiff.py as the fields of a
    `Session`, the loops of the script as methods that update them, and each method proved
    to leave the state its specification function in Orchestration describes. */
module Netvimdiff {
  import opened Wrappers
  import opened Specifier
  import opened Staging
  import opened Transfers
  import opened Arguments
  import opened Orchestration

  class Session {
    /** Exit status of the n-th copy process. */
    const copy: nat -> int
    /** The lines the user types, in order. */
    const stdin: seq<string>

    var read: nat
    var calls: nat
    var files: seq<Slot>
    var hasError: bool
    var tmpDir: string
    var tmpCreated: bool
    var vimArgs: seq<string>
    var log: seq<Transfer>
    var removed: bool
    var outcome: Outcome

    function Snapshot(): State
      reads this
    {
      State(read, calls, files, hasError, tmpDir, tmpCreated, vimArgs, log, removed, outcome)
    }

    /** No more input was read than there is. */
    predicate Valid()
      reads this
    {
      read <= |stdin|
    }

    constructor(copy: nat -> int, stdin: seq<string>)
      ensures this.copy == copy && this.stdin == stdin
      ensures Valid() && Snapshot() == Start()
    {
      this.copy := copy;
      this.stdin := stdin;
      read, calls, files, hasError := 0, 0, [], false;
      tmpDir, tmpCreated, vimArgs, log, removed, outcome := "", false, [], [], false, Running;
    }

    /** The staging loop: download every remote slot to its temp path and attach that path
        to the slot; give a local slot no temp path. */
    method Stage()
      requires Valid() && AllValid(files)
      modifies this
      ensures Valid()
      ensures Snapshot() == StageFrom(copy, stdin, old(Snapshot()), 0)
    {
      var k := 0;
      while k < |files| && outcome.Running?
        invariant k <= |files| && Valid() && AllValid(files)
        invariant StageFrom(copy, stdin, Snapshot(), k) == StageFrom(copy, stdin, old(Snapshot()), 0)
        decreases |files| - k
      {
        StageSlot(k);
        k := k + 1;
      }
    }

    /** One turn of the staging loop, over slot k. */
    method StageSlot(k: nat)
      requires k < |files| && Valid() && AllValid(files)
      modifies this
      ensures Valid()
      ensures Snapshot() == StageOne(copy, stdin, old(Snapshot()), k)
    {
      var f := files[k];
      if f.remote.Some? {
        var tmpFile := TempPath(tmpDir, f.index, f.remote.value, f.file.value);
        var route := DownloadRoute(f.remote.value, f.file.value, tmpFile);
        var a := Rsync(copy, calls, stdin, read);
        match a
        case Interrupted(c) =>
          calls, read, outcome := c, |stdin|, EndOfInput;
        case Finished(ok, c, next) =>
          calls, read := c, next;
          hasError := hasError || !ok;
          log := log + [Transfer(Download, route.0, route.1, ok)];
          files := files[k := f.(temp := Some(tmpFile))];
      } else {
        files := files[k := f.(temp := None)];
      }
    }

    /** `vim_args`: `vimdiff`, then each slot's temp path if it has one, else its file. */
    method BuildEditorArgs()
      requires Valid() && AllValid(files)
      modifies this
      ensures Valid()
      ensures Snapshot() == old(Snapshot()).(vimArgs := EditorLine(old(files)))
    {
      var fs := files;
      var args := ["vimdiff"];
      for k := 0 to |fs|
        invariant |args| == k + 1 && args[0] == "vimdiff"
        invariant forall j :: 0 <= j < k ==> args[j + 1] == EffectivePath(fs[j])
      {
        if fs[k].temp.Some? {
          args := args + [fs[k].temp.value];
        } else {
          args := args + [fs[k].file.value];
        }
      }
      EditorLineFromPaths(fs, args);
      vimArgs := args;
    }

    /** After a non-zero editor status, ask whether to send the files back. */
    method ConfirmSync(editorStatus: int)
      requires Valid()
      modifies this
      ensures Valid()
      ensures Snapshot() == ConfirmSpec(stdin, old(Snapshot()), editorStatus)
    {
      if editorStatus != 0 {
        var reply := Ask(stdin, read);
        match reply
        case InputClosed =>
          read, outcome := |stdin|, EndOfInput;
        case Answered(yes, next) =>
          read := next;
          if !yes {
            outcome := Exited(4);
          }
      }
    }

    /** The upload loop: send every remote slot's temp copy back to where it came from. */
    method UploadAll()
      requires Valid() && TempsSet(files)
      modifies this
      ensures Valid()
      ensures Snapshot() == UploadFrom(copy, stdin, old(Snapshot()), 0)
    {
      var k := 0;
      while k < |files| && outcome.Running?
        invariant k <= |files| && Valid() && files == old(files)
        invariant UploadFrom(copy, stdin, Snapshot(), k) == UploadFrom(copy, stdin, old(Snapshot()), 0)
        decreases |files| - k
      {
        UploadSlot(k);
        k := k + 1;
      }
    }

    /** One turn of the upload loop, over slot k. */
    method UploadSlot(k: nat)
      requires k < |files| && Valid() && TempsSet(files)
      modifies this
      ensures Valid()
      ensures Snapshot() == UploadOne(copy, stdin, old(Snapshot()), k)
    {
      var f := files[k];
      if f.remote.Some? {
        var route := UploadRoute(f.temp.value, f.remote.value, f.file.value);
        var a := Rsync(copy, calls, stdin, read);
        match a
        case Interrupted(c) =>
          calls, read, outcome := c, |stdin|, EndOfInput;
        case Finished(ok, c, next) =>
          calls, read := c, next;
          hasError := hasError || !ok;
          log := log + [Transfer(Upload, route.0, route.1, ok)];
      }
    }

    /** Keep the temp directory after an error; otherwise remove it unless its name is
        `''` or `'/'`. The script then ends with status 0. */
    method Cleanup()
      requires Valid()
      modifies this
      ensures Valid()
      ensures Snapshot() == CleanupSpec(old(Snapshot()))
    {
      if hasError {
      } else if tmpDir != "" && tmpDir != "/" {
        removed := true;
      }
      outcome := Exited(0);
    }

    /** The whole script, with `tmp` the directory `mkdtemp` made and `editorStatus` the
        exit status of the editor. */
    method Run(argv: seq<string>, tmp: string, editorStatus: int)
      requires Snapshot() == Start()
      modifies this
      ensures Valid()
      ensures Snapshot() == RunSpec(copy, stdin, argv, tmp, editorStatus)
    {
      var st := CollectFiles(argv);
      if !st.Collected? {
        outcome := Exited(ExitCode(st));
        return;
      }
      files, tmpDir, tmpCreated := st.files, tmp, true;
      ghost var s0 := Snapshot();
      Stage();
      if !outcome.Running? {
        return;
      }
      StagingAttachesTemps(copy, stdin, s0, 0);
      StageFrame(copy, stdin, s0, 0);
      BuildEditorArgs();
      ConfirmSync(editorStatus);
      if !outcome.Running? {
        return;
      }
      UploadAll();
      if !outcome.Running? {
        return;
      }
      Cleanup();
    }
  }
}
