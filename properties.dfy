/** What a run of netvimdiff.py guarantees, proved about the functions of Orchestration:
    which transfers happen in which order, `has_error`, the exit statuses, the cleanup
    rule, the editor's arguments and the temp paths. */
module RunProperties {
  import opened Wrappers
  import opened Specifier
  import opened Staging
  import opened Transfers
  import opened Arguments
  import opened Orchestration

  /** Direction, source and destination of each `rsync` call, without its result. */
  function Moves(log: seq<Transfer>): (m: seq<(Direction, string, string)>)
    ensures |m| == |log|
  {
    if log == [] then [] else [(log[0].direction, log[0].src, log[0].dst)] + Moves(log[1..])
  }

  /** The transfer the script makes for a remote slot in the given direction. */
  function Move(tmpDir: string, f: Slot, dir: Direction): (Direction, string, string)
    requires f.remote.Some? && f.file.Some?
  {
    var tmpFile := TempPath(tmpDir, f.index, f.remote.value, f.file.value);
    var route := if dir == Download then DownloadRoute(f.remote.value, f.file.value, tmpFile)
                 else UploadRoute(tmpFile, f.remote.value, f.file.value);
    (dir, route.0, route.1)
  }

  /** One transfer per remote slot, in slot order; local slots have none. */
  function Plan(tmpDir: string, files: seq<Slot>, dir: Direction): seq<(Direction, string, string)>
    requires AllValid(files)
  {
    if files == [] then []
    else (if files[0].remote.Some? then [Move(tmpDir, files[0], dir)] else []) + Plan(tmpDir, files[1..], dir)
  }

  /** Some transfer in the record failed. */
  predicate AnyFailed(log: seq<Transfer>) {
    log != [] && (!log[0].ok || AnyFailed(log[1..]))
  }

  /** `r` extends the transfer record of `s` by transfers that are exactly `moves`, and
      `has_error` in `r` adds to that of `s` exactly whether one of them failed. */
  predicate Records(s: State, r: State, moves: seq<(Direction, string, string)>) {
    && |s.log| <= |r.log| && r.log[..|s.log|] == s.log
    && Moves(r.log[|s.log|..]) == moves
    && (r.hasError <==> s.hasError || AnyFailed(r.log[|s.log|..]))
  }

  /** `r` extends the transfer record of `s` by a proper prefix of `moves`: the loop stopped
      before making all of them. */
  predicate Interrupts(s: State, r: State, moves: seq<(Direction, string, string)>) {
    && |s.log| <= |r.log| && r.log[..|s.log|] == s.log
    && |r.log| - |s.log| < |moves|
    && Moves(r.log[|s.log|..]) == moves[..|r.log| - |s.log|]
  }

  /** Every slot's `temp` is the one the staging loop gives it. */
  predicate TempsStaged(s: State) {
    AllValid(s.files) && forall j :: 0 <= j < |s.files| ==> s.files[j].temp == StagedTemp(s.tmpDir, s.files[j])
  }

  lemma {:induction false} MovesConcat(a: seq<Transfer>, b: seq<Transfer>)
    ensures Moves(a + b) == Moves(a) + Moves(b)
  {
    if a == [] {
      assert a + b == b;
    } else {
      assert (a + b)[1..] == a[1..] + b;
      MovesConcat(a[1..], b);
    }
  }

  lemma {:induction false} AnyFailedConcat(a: seq<Transfer>, b: seq<Transfer>)
    ensures AnyFailed(a + b) <==> AnyFailed(a) || AnyFailed(b)
  {
    if a == [] {
      assert a + b == b;
    } else {
      assert (a + b)[1..] == a[1..] + b;
      AnyFailedConcat(a[1..], b);
    }
  }

  /** `AnyFailed` is the existence of a failed transfer. */
  lemma {:induction false} AnyFailedExists(log: seq<Transfer>)
    ensures AnyFailed(log) <==> exists i :: 0 <= i < |log| && !log[i].ok
  {
    if log != [] {
      AnyFailedExists(log[1..]);
      if !AnyFailed(log) {
        forall i | 0 <= i < |log| ensures log[i].ok {
          if i > 0 {
            assert log[i] == log[1..][i - 1];
          }
        }
      } else if !log[0].ok {
        assert !log[0].ok;
      } else {
        var i :| 0 <= i < |log[1..]| && !log[1..][i].ok;
        assert !log[i + 1].ok;
      }
    }
  }

  /** Extending a record twice is extending it by both lists of transfers. */
  lemma RecordsChain(s: State, t: State, r: State, m1: seq<(Direction, string, string)>, m2: seq<(Direction, string, string)>)
    requires Records(s, t, m1) && Records(t, r, m2)
    ensures Records(s, r, m1 + m2)
  {
    assert r.log[..|s.log|] == r.log[..|t.log|][..|s.log|];
    assert r.log[|s.log|..] == t.log[|s.log|..] + r.log[|t.log|..];
    MovesConcat(t.log[|s.log|..], r.log[|t.log|..]);
    AnyFailedConcat(t.log[|s.log|..], r.log[|t.log|..]);
  }

  /** A complete record followed by an interrupted one is an interrupted record of both
      lists of transfers. */
  lemma InterruptsChain(s: State, t: State, r: State, m1: seq<(Direction, string, string)>, m2: seq<(Direction, string, string)>)
    requires Records(s, t, m1) && Interrupts(t, r, m2)
    ensures Interrupts(s, r, m1 + m2)
  {
    assert r.log[..|s.log|] == r.log[..|t.log|][..|s.log|];
    assert r.log[|s.log|..] == t.log[|s.log|..] + r.log[|t.log|..];
    MovesConcat(t.log[|s.log|..], r.log[|t.log|..]);
    assert (m1 + m2)[..|r.log| - |s.log|] == m1 + m2[..|r.log| - |t.log|];
  }

  /** Stopping before the end of `m1` is stopping before the end of `m1 + m2`. */
  lemma InterruptsExtend(s: State, r: State, m1: seq<(Direction, string, string)>, m2: seq<(Direction, string, string)>)
    requires Interrupts(s, r, m1)
    ensures Interrupts(s, r, m1 + m2)
  {
    assert (m1 + m2)[..|r.log| - |s.log|] == m1[..|r.log| - |s.log|];
  }

  /** The plan from slot k on is slot k's transfer followed by the plan from k + 1 on. */
  lemma PlanStep(tmpDir: string, files: seq<Slot>, k: nat, dir: Direction)
    requires AllValid(files) && k < |files|
    ensures Plan(tmpDir, files[k..], dir) == Plan(tmpDir, [files[k]], dir) + Plan(tmpDir, files[k + 1..], dir)
  {
    assert files[k..][1..] == files[k + 1..];
    assert [files[k]][1..] == [];
  }

  /** One step of staging either meets the end of input, or records exactly the download
      `Move` names for a remote slot and nothing for a local one. */
  lemma StageStepRecords(copy: nat -> int, stdin: seq<string>, s: State, k: nat)
    requires k < |s.files| && AllValid(s.files) && s.read <= |stdin|
    ensures var r := StageOne(copy, stdin, s, k);
      && r.tmpDir == s.tmpDir
      && (s.outcome.Running? ==> r.outcome.Running? || r.outcome.EndOfInput?)
      && (s.outcome.Running? ==>
            (r.outcome.EndOfInput? <==> s.files[k].remote.Some? && RsyncSpec(copy, s.calls, stdin, s.read).Interrupted?))
      && (s.outcome.Running? && r.outcome.EndOfInput? ==> r.read == |stdin| && r.log == s.log)
      && (r.outcome.Running? ==> Records(s, r, Plan(s.tmpDir, [s.files[k]], Download)))
  {
    var r := StageOne(copy, stdin, s, k);
    if s.files[k].remote.Some? {
      var a := RsyncSpec(copy, s.calls, stdin, s.read);
      assert r == Downloaded(s, k, a, |stdin|);
      if a.Finished? {
        assert r.log[|s.log|..] == [r.log[|s.log|]];
        assert r.log[|s.log|..][1..] == [];
      }
    } else {
      assert r.log[|s.log|..] == [];
    }
  }

  /** A staging loop from slot k either meets the end of input, or runs to the end having
      made exactly one download per remote slot from k on, in slot order, whether earlier
      downloads failed or not; `has_error` then adds exactly whether one of them failed. */
  lemma {:induction false} StageRecords(copy: nat -> int, stdin: seq<string>, s: State, k: nat)
    requires k <= |s.files| && AllValid(s.files) && s.read <= |stdin| && s.outcome.Running?
    ensures var r := StageFrom(copy, stdin, s, k);
      && (r.outcome.Running? || r.outcome.EndOfInput?)
      && (r.outcome.Running? ==> Records(s, r, Plan(s.tmpDir, s.files[k..], Download)))
    decreases |s.files| - k
  {
    if k == |s.files| {
      assert s.files[k..] == [];
      assert s.log[|s.log|..] == [];
    } else {
      var s1 := StageOne(copy, stdin, s, k);
      StageStepRecords(copy, stdin, s, k);
      if s1.outcome.Running? {
        StageStep(copy, stdin, s, k);
        StageRecords(copy, stdin, s1, k + 1);
        var r := StageFrom(copy, stdin, s1, k + 1);
        if r.outcome.Running? {
          assert s1.files[k + 1..] == s.files[k + 1..];
          RecordsChain(s, s1, r, Plan(s.tmpDir, [s.files[k]], Download), Plan(s.tmpDir, s.files[k + 1..], Download));
          PlanStep(s.tmpDir, s.files, k, Download);
        }
      }
    }
  }

  /** One step of the upload loop either meets the end of input, or records exactly the
      upload `Move` names for a remote slot whose staged temp path is attached, and
      nothing for a local one. */
  lemma UploadStepRecords(copy: nat -> int, stdin: seq<string>, s: State, k: nat)
    requires k < |s.files| && TempsStaged(s) && TempsSet(s.files) && s.read <= |stdin|
    ensures var r := UploadOne(copy, stdin, s, k);
      && r.tmpDir == s.tmpDir
      && (s.outcome.Running? ==> r.outcome.Running? || r.outcome.EndOfInput?)
      && (s.outcome.Running? ==>
            (r.outcome.EndOfInput? <==> s.files[k].remote.Some? && RsyncSpec(copy, s.calls, stdin, s.read).Interrupted?))
      && (s.outcome.Running? && r.outcome.EndOfInput? ==> r.read == |stdin| && r.log == s.log)
      && (r.outcome.Running? ==> Records(s, r, Plan(s.tmpDir, [s.files[k]], Upload)))
  {
    var r := UploadOne(copy, stdin, s, k);
    if s.files[k].remote.Some? {
      var f := s.files[k];
      assert f.temp == StagedTemp(s.tmpDir, f);
      assert f.temp.value == TempPath(s.tmpDir, f.index, f.remote.value, f.file.value);
      var a := RsyncSpec(copy, s.calls, stdin, s.read);
      assert r == Uploaded(s, k, a, |stdin|);
      if a.Finished? {
        assert r.log[|s.log|..] == [r.log[|s.log|]];
        assert r.log[|s.log|..][1..] == [];
      }
    } else {
      assert r.log[|s.log|..] == [];
    }
  }

  /** An upload loop from slot k over staged slots either meets the end of input, or runs
      to the end having made exactly one upload per remote slot from k on, in slot order,
      from the temp path its download went to; `has_error` then adds exactly whether one
      of them failed. */
  lemma {:induction false} UploadRecords(copy: nat -> int, stdin: seq<string>, s: State, k: nat)
    requires k <= |s.files| && TempsSet(s.files) && TempsStaged(s) && s.read <= |stdin| && s.outcome.Running?
    ensures var r := UploadFrom(copy, stdin, s, k);
      && (r.outcome.Running? || r.outcome.EndOfInput?)
      && (r.outcome.Running? ==> Records(s, r, Plan(s.tmpDir, s.files[k..], Upload)))
    decreases |s.files| - k
  {
    if k == |s.files| {
      assert s.files[k..] == [];
      assert s.log[|s.log|..] == [];
    } else {
      var s1 := UploadOne(copy, stdin, s, k);
      UploadStepRecords(copy, stdin, s, k);
      if s1.outcome.Running? {
        assert s1.files == s.files && s1.tmpDir == s.tmpDir;
        UploadRecords(copy, stdin, s1, k + 1);
        var r := UploadFrom(copy, stdin, s1, k + 1);
        assert UploadFrom(copy, stdin, s, k) == r;
        if r.outcome.Running? {
          RecordsChain(s, s1, r, Plan(s.tmpDir, [s.files[k]], Upload), Plan(s.tmpDir, s.files[k + 1..], Upload));
          PlanStep(s.tmpDir, s.files, k, Upload);
        }
      }
    }
  }

  /** A staging loop from slot k that meets the end of input has consumed all of it, and
      the downloads it made before are a proper prefix of those the full loop makes. */
  lemma {:induction false} StageInterrupts(copy: nat -> int, stdin: seq<string>, s: State, k: nat)
    requires k <= |s.files| && AllValid(s.files) && s.read <= |stdin| && s.outcome.Running?
    ensures var r := StageFrom(copy, stdin, s, k);
      r.outcome.EndOfInput? ==> r.read == |stdin| && Interrupts(s, r, Plan(s.tmpDir, s.files[k..], Download))
    decreases |s.files| - k
  {
    if k < |s.files| {
      var s1 := StageOne(copy, stdin, s, k);
      StageStepRecords(copy, stdin, s, k);
      PlanStep(s.tmpDir, s.files, k, Download);
      var head, tail := Plan(s.tmpDir, [s.files[k]], Download), Plan(s.tmpDir, s.files[k + 1..], Download);
      if s1.outcome.EndOfInput? {
        assert [s.files[k]][1..] == [];
        assert s1.log[|s.log|..] == [];
        InterruptsExtend(s, s1, head, tail);
      } else {
        StageStep(copy, stdin, s, k);
        StageInterrupts(copy, stdin, s1, k + 1);
        var r := StageFrom(copy, stdin, s1, k + 1);
        if r.outcome.EndOfInput? {
          assert s1.files[k + 1..] == s.files[k + 1..];
          InterruptsChain(s, s1, r, head, tail);
        }
      }
    }
  }

  /** An upload loop from slot k that meets the end of input has consumed all of it, and
      the uploads it made before are a proper prefix of those the full loop makes. */
  lemma {:induction false} UploadInterrupts(copy: nat -> int, stdin: seq<string>, s: State, k: nat)
    requires k <= |s.files| && TempsSet(s.files) && TempsStaged(s) && s.read <= |stdin| && s.outcome.Running?
    ensures var r := UploadFrom(copy, stdin, s, k);
      r.outcome.EndOfInput? ==> r.read == |stdin| && Interrupts(s, r, Plan(s.tmpDir, s.files[k..], Upload))
    decreases |s.files| - k
  {
    if k < |s.files| {
      var s1 := UploadOne(copy, stdin, s, k);
      UploadStepRecords(copy, stdin, s, k);
      PlanStep(s.tmpDir, s.files, k, Upload);
      var head, tail := Plan(s.tmpDir, [s.files[k]], Upload), Plan(s.tmpDir, s.files[k + 1..], Upload);
      if s1.outcome.EndOfInput? {
        assert [s.files[k]][1..] == [];
        assert s1.log[|s.log|..] == [];
        InterruptsExtend(s, s1, head, tail);
      } else {
        assert s1.files == s.files && s1.tmpDir == s.tmpDir;
        UploadInterrupts(copy, stdin, s1, k + 1);
        var r := UploadFrom(copy, stdin, s1, k + 1);
        if r.outcome.EndOfInput? {
          InterruptsChain(s, s1, r, head, tail);
        }
      }
    }
  }
}
