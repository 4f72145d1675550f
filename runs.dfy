/** Whole runs of netvimdiff.py: how the process ends, what `has_error` means at the end,
    when the temp directory is removed, which transfers were made, and what the editor
    was given. */
module RunOutcomes {
  import opened Wrappers
  import opened Specifier
  import opened Staging
  import opened Transfers
  import opened Arguments
  import opened Orchestration
  import opened RunProperties

  /** The plan ignores the `temp` of the slots. */
  lemma {:induction false} PlanIgnoresTemps(tmpDir: string, a: seq<Slot>, b: seq<Slot>, dir: Direction)
    requires AllValid(a) && AllValid(b) && |a| == |b|
    requires forall j :: 0 <= j < |a| ==> b[j] == a[j].(temp := b[j].temp)
    ensures Plan(tmpDir, a, dir) == Plan(tmpDir, b, dir)
  {
    if a != [] {
      assert b[0] == a[0].(temp := b[0].temp);
      PlanIgnoresTemps(tmpDir, a[1..], b[1..], dir);
    }
  }

  /** After staging the run is still going, or input ran out at a prompt; if it is still
      going, one download per remote slot was made in slot order, `has_error` says whether
      one failed, every slot carries its staged temp path and `vim_args` lists the paths. */
  lemma AfterStagingFacts(copy: nat -> int, stdin: seq<string>, files: seq<Slot>, tmpDir: string)
    requires AllValid(files)
    ensures var r := AfterStaging(copy, stdin, files, tmpDir);
      && (r.outcome.Running? || r.outcome.EndOfInput?)
      && r.tmpDir == tmpDir && r.tmpCreated && !r.removed && |r.files| == |files|
      && (r.outcome.EndOfInput? ==>
            r.read == |stdin| && Interrupts(Initial(files, tmpDir), r, Plan(tmpDir, files, Download)))
      && (r.outcome.Running? ==>
            && Records(Initial(files, tmpDir), r, Plan(tmpDir, files, Download))
            && TempsSet(r.files) && TempsStaged(r)
            && Plan(tmpDir, r.files, Upload) == Plan(tmpDir, files, Upload)
            && r.vimArgs == EditorLine(r.files)
            && forall j :: 0 <= j < |files| ==> r.files[j] == files[j].(temp := StagedTemp(tmpDir, files[j])))
  {
    var s0 := Initial(files, tmpDir);
    var s := StageFrom(copy, stdin, s0, 0);
    StageRecords(copy, stdin, s0, 0);
    StageInterrupts(copy, stdin, s0, 0);
    StageFrame(copy, stdin, s0, 0);
    StagingAttachesTemps(copy, stdin, s0, 0);
    assert files[0..] == files;
    if s.outcome.Running? {
      var r := AfterStaging(copy, stdin, files, tmpDir);
      assert r == s.(vimArgs := EditorLine(s.files));
      forall j | 0 <= j < |files|
        ensures r.files[j] == files[j].(temp := StagedTemp(tmpDir, files[j]))
        ensures r.files[j].temp == StagedTemp(r.tmpDir, r.files[j])
      {
      }
      PlanIgnoresTemps(tmpDir, files, r.files, Upload);
    }
  }

  /** After staging that ran to the end, the rest of the run either meets the end of
      input, or declines the sync-back (status 4) after a non-zero editor status with no
      further transfer, or reaches its end (status 0) having made one upload per remote
      slot in slot order; `rm -rf` runs exactly at an error-free end with a temp directory
      named neither `''` nor `'/'`. */
  lemma FinishFacts(copy: nat -> int, stdin: seq<string>, s: State, editorStatus: int)
    requires s.read <= |stdin| && TempsSet(s.files) && TempsStaged(s) && s.outcome.Running? && !s.removed
    ensures var r := Finish(copy, stdin, s, editorStatus);
      && (r.outcome == EndOfInput || r.outcome == Exited(0) || r.outcome == Exited(4))
      && (r.outcome == Exited(4) ==> editorStatus != 0 && r.log == s.log && r.hasError == s.hasError)
      && (r.outcome == Exited(0) ==> Records(s, r, Plan(s.tmpDir, s.files, Upload)))
      && (r.removed <==> r.outcome == Exited(0) && !r.hasError && s.tmpDir != "" && s.tmpDir != "/")
      && (r.outcome == EndOfInput ==>
            r.read == |stdin| && (r.log == s.log || Interrupts(s, r, Plan(s.tmpDir, s.files, Upload))))
  {
    var s2 := ConfirmSpec(stdin, s, editorStatus);
    if s2.outcome.Running? {
      UploadRecords(copy, stdin, s2, 0);
      UploadInterrupts(copy, stdin, s2, 0);
      assert s2.files[0..] == s2.files;
    }
  }

  /** The sync-back prompt, both ways: after a clean editor exit nothing is asked and the
      run never ends with status 4; after a non-zero exit the first `yes` or `no` decides,
      `no` ending the run with status 4 before any upload or cleanup, `yes` going on as if
      the editor had exited cleanly but with that line consumed, and input running out
      ending the run before any upload. */
  lemma SyncBackPrompt(copy: nat -> int, stdin: seq<string>, s: State, editorStatus: int)
    requires s.read <= |stdin| && TempsSet(s.files) && TempsStaged(s) && s.outcome.Running? && !s.removed
    ensures var r, a := Finish(copy, stdin, s, editorStatus), AskSpec(stdin, s.read);
      && (editorStatus == 0 ==> ConfirmSpec(stdin, s, editorStatus) == s && r.outcome != Exited(4))
      && (editorStatus != 0 && a.InputClosed? ==>
            r.outcome == EndOfInput && r.read == |stdin| && r.log == s.log && !r.removed)
      && (editorStatus != 0 && a.Answered? && !a.yes ==>
            r.outcome == Exited(4) && r.read == a.next && r.log == s.log && r.hasError == s.hasError && !r.removed)
      && (editorStatus != 0 && a.Answered? && a.yes ==> r == Finish(copy, stdin, s.(read := a.next), 0))
  {
    FinishFacts(copy, stdin, s, editorStatus);
  }

  /** The rest of a run after staging: when it meets the end of input, the transfers made
      so far are those of staging followed by a prefix of the uploads. */
  lemma FinishPrefix(copy: nat -> int, stdin: seq<string>, s: State, editorStatus: int,
                     down: seq<(Direction, string, string)>)
    requires s.read <= |stdin| && TempsSet(s.files) && TempsStaged(s) && s.outcome.Running? && !s.removed
    requires Moves(s.log) == down
    ensures var r, up := Finish(copy, stdin, s, editorStatus), Plan(s.tmpDir, s.files, Upload);
      r.outcome == EndOfInput ==>
        && r.read == |stdin| && !r.removed
        && |r.log| <= |down + up| && Moves(r.log) == (down + up)[..|r.log|]
  {
    var r, up := Finish(copy, stdin, s, editorStatus), Plan(s.tmpDir, s.files, Upload);
    FinishFacts(copy, stdin, s, editorStatus);
    if r.outcome == EndOfInput {
      if r.log == s.log {
        assert (down + up)[..|r.log|] == down;
      } else {
        assert r.log == s.log + r.log[|s.log|..];
        MovesConcat(s.log, r.log[|s.log|..]);
        assert (down + up)[..|r.log|] == down + up[..|r.log| - |s.log|];
      }
    }
  }

  /** After staging, a run that meets the end of input at a prompt consumed all of its
      input, kept the temp directory, and made a prefix of the downloads and uploads, in
      order, that a run reaching its end makes. */
  lemma InterruptedTransfers(copy: nat -> int, stdin: seq<string>, files: seq<Slot>, tmpDir: string, editorStatus: int)
    requires AllValid(files)
    ensures var s1 := AfterStaging(copy, stdin, files, tmpDir);
      var r := if s1.outcome.Running? then Finish(copy, stdin, s1, editorStatus) else s1;
      r.outcome == EndOfInput ==>
        && r.read == |stdin| && !r.removed
        && var full := Plan(tmpDir, files, Download) + Plan(tmpDir, files, Upload);
           |r.log| <= |full| && Moves(r.log) == full[..|r.log|]
  {
    var s1 := AfterStaging(copy, stdin, files, tmpDir);
    var down, up := Plan(tmpDir, files, Download), Plan(tmpDir, files, Upload);
    AfterStagingFacts(copy, stdin, files, tmpDir);
    assert s1.log[0..] == s1.log;
    if s1.outcome.Running? {
      FinishPrefix(copy, stdin, s1, editorStatus, down);
    } else if s1.outcome == EndOfInput {
      assert (down + up)[..|s1.log|] == down[..|s1.log|];
    }
  }

  /** A run that meets the end of input at a prompt had a usable argument list, consumed
      all of its input, kept the temp directory, and made a prefix of the transfers, in
      order, that a run reaching its end makes. */
  lemma InputRunsOut(copy: nat -> int, stdin: seq<string>, argv: seq<string>, tmpDir: string, editorStatus: int)
    ensures var r, st := RunSpec(copy, stdin, argv, tmpDir, editorStatus), StartupSpec(argv);
      r.outcome == EndOfInput ==>
        && st.Collected? && r.read == |stdin| && !r.removed
        && var full := Plan(tmpDir, st.files, Download) + Plan(tmpDir, st.files, Upload);
           |r.log| <= |full| && Moves(r.log) == full[..|r.log|]
  {
    var st := StartupSpec(argv);
    if st.Collected? {
      InterruptedTransfers(copy, stdin, st.files, tmpDir, editorStatus);
    }
  }

  /** Without a usable argument list the script exits with status 1 (no argument), 2 (an
      empty argument) or 3 (fewer than two files) before it makes the temp directory or
      any transfer or reads any input; with one it never exits with those statuses. */
  lemma EarlyExits(copy: nat -> int, stdin: seq<string>, argv: seq<string>, tmpDir: string, editorStatus: int)
    ensures var r, st := RunSpec(copy, stdin, argv, tmpDir, editorStatus), StartupSpec(argv);
      && (!st.Collected? ==>
            r.outcome == Exited(ExitCode(st)) && !r.tmpCreated && r.log == [] && !r.removed && r.read == 0)
      && (st.Collected? ==>
            r.tmpCreated && (r.outcome == EndOfInput || r.outcome == Exited(0) || r.outcome == Exited(4)))
  {
    var st := StartupSpec(argv);
    if st.Collected? {
      AfterStagingFacts(copy, stdin, st.files, tmpDir);
      var s1 := AfterStaging(copy, stdin, st.files, tmpDir);
      if s1.outcome.Running? {
        FinishFacts(copy, stdin, s1, editorStatus);
      }
    }
  }

  /** A run that reaches its end made, in order, one download per remote slot and then
      one upload per remote slot, the upload of each slot going from the temp path its
      download went to, whatever their results; and `has_error` is set exactly when one
      of these transfers failed. */
  lemma CompletedRun(copy: nat -> int, stdin: seq<string>, argv: seq<string>, tmpDir: string, editorStatus: int)
    ensures var r, st := RunSpec(copy, stdin, argv, tmpDir, editorStatus), StartupSpec(argv);
      r.outcome == Exited(0) ==>
        && st.Collected?
        && Moves(r.log) == Plan(tmpDir, st.files, Download) + Plan(tmpDir, st.files, Upload)
        && (r.hasError <==> exists i :: 0 <= i < |r.log| && !r.log[i].ok)
  {
    var st := StartupSpec(argv);
    EarlyExits(copy, stdin, argv, tmpDir, editorStatus);
    if st.Collected? {
      var s0 := Initial(st.files, tmpDir);
      AfterStagingFacts(copy, stdin, st.files, tmpDir);
      var s1 := AfterStaging(copy, stdin, st.files, tmpDir);
      if s1.outcome.Running? {
        FinishFacts(copy, stdin, s1, editorStatus);
        var r := Finish(copy, stdin, s1, editorStatus);
        if r.outcome == Exited(0) {
          RecordsChain(s0, s1, r, Plan(tmpDir, st.files, Download), Plan(tmpDir, st.files, Upload));
          assert r.log[|s0.log|..] == r.log;
          AnyFailedExists(r.log);
        }
      }
    }
  }

  /** `rm -rf` runs on the temp directory exactly when the run reached its end without an
      error and the directory's name is neither `''` nor `'/'`. */
  lemma RemovalRule(copy: nat -> int, stdin: seq<string>, argv: seq<string>, tmpDir: string, editorStatus: int)
    ensures var r := RunSpec(copy, stdin, argv, tmpDir, editorStatus);
      r.removed <==> r.outcome == Exited(0) && !r.hasError && tmpDir != "" && tmpDir != "/"
  {
    var st := StartupSpec(argv);
    if st.Collected? {
      AfterStagingFacts(copy, stdin, st.files, tmpDir);
      var s1 := AfterStaging(copy, stdin, st.files, tmpDir);
      if s1.outcome.Running? {
        FinishFacts(copy, stdin, s1, editorStatus);
      }
    }
  }

  /** Declining the sync-back (status 4) happens only after the editor exited with a
      non-zero status; the downloads were all that was transferred, and the temp
      directory is kept. */
  lemma DeclinedSyncBack(copy: nat -> int, stdin: seq<string>, argv: seq<string>, tmpDir: string, editorStatus: int)
    ensures var r, st := RunSpec(copy, stdin, argv, tmpDir, editorStatus), StartupSpec(argv);
      r.outcome == Exited(4) ==>
        && st.Collected? && editorStatus != 0 && !r.removed
        && Moves(r.log) == Plan(tmpDir, st.files, Download)
  {
    var st := StartupSpec(argv);
    EarlyExits(copy, stdin, argv, tmpDir, editorStatus);
    if st.Collected? {
      AfterStagingFacts(copy, stdin, st.files, tmpDir);
      var s1 := AfterStaging(copy, stdin, st.files, tmpDir);
      if s1.outcome.Running? {
        FinishFacts(copy, stdin, s1, editorStatus);
        assert s1.log[0..] == s1.log;
      }
    }
  }

  /** After staging that runs to the end, `vim_args` is `vimdiff` followed by one path per
      slot, in slot order: the staged temp path of a remote slot (even when its download
      failed) and the file of a local one. */
  lemma StagedEditorLine(copy: nat -> int, stdin: seq<string>, files: seq<Slot>, tmpDir: string)
    requires AllValid(files)
    ensures var r := AfterStaging(copy, stdin, files, tmpDir);
      r.outcome.Running? ==>
        && |r.vimArgs| == |files| + 1 && r.vimArgs[0] == "vimdiff"
        && forall k :: 0 <= k < |files| ==>
             r.vimArgs[k + 1] == if files[k].remote.Some?
                                 then TempPath(tmpDir, files[k].index, files[k].remote.value, files[k].file.value)
                                 else files[k].file.value
  {
    AfterStagingFacts(copy, stdin, files, tmpDir);
    var r := AfterStaging(copy, stdin, files, tmpDir);
    if r.outcome.Running? {
      var paths := EditorPaths(r.files);
      assert r.vimArgs == ["vimdiff"] + paths;
      forall k | 0 <= k < |files|
        ensures r.vimArgs[k + 1] == if files[k].remote.Some?
                                    then TempPath(tmpDir, files[k].index, files[k].remote.value, files[k].file.value)
                                    else files[k].file.value
      {
        assert r.files[k] == files[k].(temp := StagedTemp(tmpDir, files[k]));
        assert r.vimArgs[k + 1] == paths[k];
      }
    }
  }

  /** The editor is given `vimdiff` followed by one path per slot, in slot order: the
      staged temp path of a remote slot (even when its download failed) and the file of a
      local one. */
  lemma EditorArguments(copy: nat -> int, stdin: seq<string>, argv: seq<string>, tmpDir: string, editorStatus: int)
    ensures var r, st := RunSpec(copy, stdin, argv, tmpDir, editorStatus), StartupSpec(argv);
      st.Collected? && r.outcome.Exited? ==>
        && |r.vimArgs| == |st.files| + 1 && r.vimArgs[0] == "vimdiff"
        && forall k :: 0 <= k < |st.files| ==>
             r.vimArgs[k + 1] == if st.files[k].remote.Some?
                                 then TempPath(tmpDir, k + 1, st.files[k].remote.value, st.files[k].file.value)
                                 else st.files[k].file.value
  {
    var st := StartupSpec(argv);
    if st.Collected? {
      AfterStagingFacts(copy, stdin, st.files, tmpDir);
      StagedEditorLine(copy, stdin, st.files, tmpDir);
    }
  }

  /** Two remote slots never share a staged temp path, even with the same host and
      basename. */
  lemma StagedCopiesDistinct(argv: seq<string>, tmpDir: string)
    ensures var st := StartupSpec(argv);
      st.Collected? ==>
        forall i, j ::
          0 <= i < |st.files| && 0 <= j < |st.files| && i != j && st.files[i].remote.Some? && st.files[j].remote.Some? ==>
          StagedTemp(tmpDir, st.files[i]) != StagedTemp(tmpDir, st.files[j])
  {
    var st := StartupSpec(argv);
    if st.Collected? {
      var fs := st.files;
      forall i, j | 0 <= i < |fs| && 0 <= j < |fs| && i != j && fs[i].remote.Some? && fs[j].remote.Some?
        ensures StagedTemp(tmpDir, fs[i]) != StagedTemp(tmpDir, fs[j])
      {
        assert fs[i].index == i + 1 && fs[j].index == j + 1;
        StagedTempsDistinct(tmpDir, fs[i], fs[j]);
      }
    }
  }

  /** Each staged temp path names a file directly inside the temp directory. */
  lemma StagedCopiesInside(argv: seq<string>, tmpDir: string)
    ensures var st := StartupSpec(argv);
      st.Collected? ==>
        forall i :: 0 <= i < |st.files| && st.files[i].remote.Some? ==>
          && StagedTemp(tmpDir, st.files[i]).value[..|tmpDir| + 1] == tmpDir + "/"
          && Lacks(StagedTemp(tmpDir, st.files[i]).value[|tmpDir| + 1..], '/')
  {
    var st := StartupSpec(argv);
    if st.Collected? {
      var fs := st.files;
      CollectedSlots(argv);
      forall i | 0 <= i < |fs| && fs[i].remote.Some?
        ensures StagedTemp(tmpDir, fs[i]).value[..|tmpDir| + 1] == tmpDir + "/"
        ensures Lacks(StagedTemp(tmpDir, fs[i]).value[|tmpDir| + 1..], '/')
      {
        ParseRemoteSound(argv[i + 1], i + 1);
        TempPathInsideTempDir(tmpDir, i + 1, fs[i].remote.value, fs[i].file.value);
      }
    }
  }

  /** When every copy succeeds, staging runs to the end without a prompt or an error. */
  lemma {:induction false} StageWithoutFailures(copy: nat -> int, stdin: seq<string>, s: State, k: nat)
    requires k <= |s.files| && AllValid(s.files) && s.read <= |stdin| && s.outcome.Running?
    requires forall n :: copy(n) == 0
    ensures var r := StageFrom(copy, stdin, s, k);
      r.outcome.Running? && r.read == s.read && r.hasError == s.hasError
    decreases |s.files| - k
  {
    if k < |s.files| {
      assert RsyncSpec(copy, s.calls, stdin, s.read) == Finished(true, s.calls + 1, s.read);
      StageWithoutFailures(copy, stdin, StageOne(copy, stdin, s, k), k + 1);
    }
  }

  /** When every copy succeeds, the upload loop runs to the end without a prompt or an error. */
  lemma {:induction false} UploadWithoutFailures(copy: nat -> int, stdin: seq<string>, s: State, k: nat)
    requires k <= |s.files| && TempsSet(s.files) && s.read <= |stdin| && s.outcome.Running?
    requires forall n :: copy(n) == 0
    ensures var r := UploadFrom(copy, stdin, s, k);
      r.outcome.Running? && r.read == s.read && r.hasError == s.hasError
    decreases |s.files| - k
  {
    if k < |s.files| {
      assert RsyncSpec(copy, s.calls, stdin, s.read) == Finished(true, s.calls + 1, s.read);
      UploadWithoutFailures(copy, stdin, UploadOne(copy, stdin, s, k), k + 1);
    }
  }

  /** With a usable argument list, copies that all succeed and an editor that exits with
      status 0, the script reads no input, ends with status 0 and no error, and removes
      the temp directory unless its name is `''` or `'/'`. */
  lemma SmoothRun(copy: nat -> int, stdin: seq<string>, argv: seq<string>, tmpDir: string)
    requires StartupSpec(argv).Collected? && forall n :: copy(n) == 0
    ensures var r := RunSpec(copy, stdin, argv, tmpDir, 0);
      && r.outcome == Exited(0) && r.read == 0 && !r.hasError
      && (r.removed <==> tmpDir != "" && tmpDir != "/")
  {
    var files := StartupSpec(argv).files;
    AfterStagingFacts(copy, stdin, files, tmpDir);
    StageWithoutFailures(copy, stdin, Initial(files, tmpDir), 0);
    var s1 := AfterStaging(copy, stdin, files, tmpDir);
    UploadWithoutFailures(copy, stdin, s1, 0);
  }
}
