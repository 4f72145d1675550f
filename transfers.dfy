/** `rsync` of netvimdiff.py and its two direction wrappers `download_file` and
    `upload_file`. A copy process is an oracle that yields an exit status per call;
    standard input is the finite list of lines `raw_input` returns, read through a cursor. */
module Transfers {
  import opened Specifier

  /** The two answers that end a yes/no prompt; every other line asks again. */
  predicate IsDecisive(line: string) {
    line == "yes" || line == "no"
  }

  /** How a `while True: yn = raw_input(...)` prompt ends: with a `yes` or `no` and the
      position of the next unread line, or with end of input, where `raw_input` raises
      `EOFError`. */
  datatype Reply = Answered(yes: bool, next: nat) | InputClosed

  /** The prompt reads lines from position `pos` on until one is `yes` or `no`; an answer
      reads at least one line. */
  function AskSpec(stdin: seq<string>, pos: nat): (r: Reply)
    requires pos <= |stdin|
    ensures r.Answered? ==> pos < r.next <= |stdin|
    decreases |stdin| - pos
  {
    if pos == |stdin| then InputClosed
    else if stdin[pos] == "yes" then Answered(true, pos + 1)
    else if stdin[pos] == "no" then Answered(false, pos + 1)
    else AskSpec(stdin, pos + 1)
  }

  /** The prompt ends at the FIRST decisive line: the reply is that line's answer, every
      line before it was neither `yes` nor `no`, and input runs out exactly when no line
      left is decisive. */
  lemma {:induction false} AskFirstDecisive(stdin: seq<string>, pos: nat)
    requires pos <= |stdin|
    ensures var r := AskSpec(stdin, pos);
      && (r.Answered? ==> stdin[r.next - 1] == (if r.yes then "yes" else "no"))
      && (r.Answered? ==> forall k :: pos <= k < r.next - 1 ==> !IsDecisive(stdin[k]))
      && (r.InputClosed? <==> forall k :: pos <= k < |stdin| ==> !IsDecisive(stdin[k]))
    decreases |stdin| - pos
  {
    if pos < |stdin| && !IsDecisive(stdin[pos]) {
      AskFirstDecisive(stdin, pos + 1);
    }
  }

  /** The prompt loop: read a line, stop on `yes` or `no`, ask again otherwise. */
  method Ask(stdin: seq<string>, pos: nat) returns (r: Reply)
    requires pos <= |stdin|
    ensures r == AskSpec(stdin, pos)
  {
    var cursor := pos;
    while true
      invariant pos <= cursor <= |stdin|
      invariant AskSpec(stdin, cursor) == AskSpec(stdin, pos)
      decreases |stdin| - cursor
    {
      if cursor == |stdin| {
        return InputClosed;
      }
      var yn := stdin[cursor];
      cursor := cursor + 1;
      if yn == "yes" {
        return Answered(true, cursor);
      } else if yn == "no" {
        return Answered(false, cursor);
      }
    }
  }

  /** How one `rsync(file_from, file_to)` call ends: with its result, the number of copy
      processes started in the run so far and the next unread line, or with end of input
      at a prompt. */
  datatype Attempts = Finished(ok: bool, calls: nat, next: nat) | Interrupted(calls: nat)

  /** `rsync`: run the copy; on a non-zero status ask; `yes` copies again, `no` gives up.
      `copy(n)` is the exit status of the n-th copy process of the run. */
  function RsyncSpec(copy: nat -> int, calls: nat, stdin: seq<string>, pos: nat): (r: Attempts)
    requires pos <= |stdin|
    ensures r.calls > calls
    ensures r.Finished? ==> pos <= r.next <= |stdin|
    decreases |stdin| - pos
  {
    if copy(calls) == 0 then Finished(true, calls + 1, pos)
    else match AskSpec(stdin, pos)
      case InputClosed => Interrupted(calls + 1)
      case Answered(yes, next) =>
        if yes then RsyncSpec(copy, calls + 1, stdin, next) else Finished(false, calls + 1, next)
  }

  /** The retry loop of `rsync`, with its nested prompt loop. */
  method Rsync(copy: nat -> int, calls: nat, stdin: seq<string>, pos: nat) returns (r: Attempts)
    requires pos <= |stdin|
    ensures r == RsyncSpec(copy, calls, stdin, pos)
  {
    var retCode := -1;
    var c: nat, cursor: nat := calls, pos;
    while retCode != 0
      invariant cursor <= |stdin|
      invariant retCode != 0 ==> RsyncSpec(copy, c, stdin, cursor) == RsyncSpec(copy, calls, stdin, pos)
      invariant retCode == 0 ==> Finished(true, c, cursor) == RsyncSpec(copy, calls, stdin, pos)
      decreases |stdin| - cursor + (if retCode != 0 then 1 else 0)
    {
      retCode := copy(c);
      c := c + 1;
      if retCode != 0 {
        var reply := Ask(stdin, cursor);
        match reply
        case InputClosed =>
          return Interrupted(c);
        case Answered(yes, next) =>
          if !yes {
            return Finished(false, c, next);
          }
          cursor := next;
      }
    }
    return Finished(true, c, cursor);
  }

  /** `rsync` makes at least one copy, and every copy but its last one failed. */
  lemma {:induction false} RsyncRetriesOnlyFailures(copy: nat -> int, calls: nat, stdin: seq<string>, pos: nat)
    requires pos <= |stdin|
    ensures forall n :: calls <= n < RsyncSpec(copy, calls, stdin, pos).calls - 1 ==> copy(n) != 0
    decreases |stdin| - pos
  {
    var a := AskSpec(stdin, pos);
    if copy(calls) != 0 && a.Answered? && a.yes {
      RsyncRetriesOnlyFailures(copy, calls + 1, stdin, a.next);
    }
  }

  /** `rsync` returns True exactly when its last copy exited 0, and returns False only right
      after reading a `no`. */
  lemma {:induction false} RsyncResult(copy: nat -> int, calls: nat, stdin: seq<string>, pos: nat)
    requires pos <= |stdin|
    ensures var r := RsyncSpec(copy, calls, stdin, pos);
      && (r.Finished? ==> (r.ok <==> copy(r.calls - 1) == 0))
      && (r.Finished? && !r.ok ==> pos < r.next && stdin[r.next - 1] == "no")
    decreases |stdin| - pos
  {
    var a := AskSpec(stdin, pos);
    if copy(calls) != 0 && a.Answered? {
      AskFirstDecisive(stdin, pos);
      if a.yes {
        RsyncResult(copy, calls + 1, stdin, a.next);
      }
    }
  }

  /** `rsync` is interrupted only when its last copy failed and input ran out at the
      prompt: no line from `pos` on was a `no`, which would have abandoned the copy. */
  lemma {:induction false} RsyncInterrupted(copy: nat -> int, calls: nat, stdin: seq<string>, pos: nat)
    requires pos <= |stdin|
    ensures var r := RsyncSpec(copy, calls, stdin, pos);
      r.Interrupted? ==> copy(r.calls - 1) != 0 && forall k :: pos <= k < |stdin| ==> stdin[k] != "no"
    decreases |stdin| - pos
  {
    var a := AskSpec(stdin, pos);
    if copy(calls) != 0 {
      AskFirstDecisive(stdin, pos);
      if a.Answered? && a.yes {
        RsyncInterrupted(copy, calls + 1, stdin, a.next);
      }
    }
  }

  /** The number of lines equal to `yes`. */
  function YesCount(lines: seq<string>): nat {
    if lines == [] then 0 else (if lines[0] == "yes" then 1 else 0) + YesCount(lines[1..])
  }

  lemma {:induction false} YesCountConcat(a: seq<string>, b: seq<string>)
    ensures YesCount(a + b) == YesCount(a) + YesCount(b)
  {
    if a != [] {
      assert (a + b)[1..] == a[1..] + b;
      YesCountConcat(a[1..], b);
    } else {
      assert a + b == b;
    }
  }

  lemma {:induction false} NoYes(lines: seq<string>)
    requires forall k :: 0 <= k < |lines| ==> !IsDecisive(lines[k])
    ensures YesCount(lines) == 0
  {
    if lines != [] {
      NoYes(lines[1..]);
    }
  }

  /** The lines a prompt reads hold one `yes` if it was answered `yes` and none otherwise. */
  lemma AskYesCount(stdin: seq<string>, pos: nat)
    requires pos <= |stdin|
    ensures var r := AskSpec(stdin, pos);
      YesCount(stdin[pos..if r.Answered? then r.next else |stdin|]) == (if r.Answered? && r.yes then 1 else 0)
  {
    AskFirstDecisive(stdin, pos);
    var r := AskSpec(stdin, pos);
    if r.Answered? {
      var skipped := stdin[pos..r.next - 1];
      assert stdin[pos..r.next] == skipped + [stdin[r.next - 1]];
      YesCountConcat(skipped, [stdin[r.next - 1]]);
      assert [stdin[r.next - 1]][1..] == [];
      NoYes(skipped);
    } else {
      var rest := stdin[pos..|stdin|];
      assert forall k :: 0 <= k < |rest| ==> rest[k] == stdin[pos + k];
      NoYes(rest);
    }
  }

  /** The lines a finished or interrupted `rsync` call has read. */
  function Consumed(stdin: seq<string>, pos: nat, r: Attempts): seq<string>
    requires pos <= |stdin|
    requires r.Finished? ==> pos <= r.next <= |stdin|
  {
    stdin[pos..if r.Finished? then r.next else |stdin|]
  }

  /** The number of copies `rsync` makes is one plus the number of `yes` answers it reads. */
  lemma {:induction false} RsyncCopyCount(copy: nat -> int, calls: nat, stdin: seq<string>, pos: nat)
    requires pos <= |stdin|
    ensures RsyncSpec(copy, calls, stdin, pos).calls - calls
      == 1 + YesCount(Consumed(stdin, pos, RsyncSpec(copy, calls, stdin, pos)))
    decreases |stdin| - pos
  {
    var r := RsyncSpec(copy, calls, stdin, pos);
    if copy(calls) == 0 {
      assert Consumed(stdin, pos, r) == [];
    } else {
      var a := AskSpec(stdin, pos);
      AskYesCount(stdin, pos);
      if a.Answered? && a.yes {
        RsyncCopyCount(copy, calls + 1, stdin, a.next);
        var head, tail := stdin[pos..a.next], Consumed(stdin, a.next, r);
        assert Consumed(stdin, pos, r) == head + tail;
        YesCountConcat(head, tail);
      }
    }
  }

  /** The two directions of a transfer. */
  datatype Direction = Download | Upload

  /** One `rsync` call as the run records it: direction, source, destination, result. */
  datatype Transfer = Transfer(direction: Direction, src: string, dst: string, ok: bool)

  /** `'%s:%s' % (remote, remote_file)`: the address the copy command is given. */
  function RemoteSpec(remote: string, file: string): (address: string)
    ensures |address| == |remote| + 1 + |file|
    ensures address[..|remote|] == remote && address[|remote|] == ':' && address[|remote| + 1..] == file
  {
    remote + ":" + file
  }

  /** `download_file(remote, remote_file, local_file)` copies from the remote address to
      the local file. */
  function DownloadRoute(remote: string, remoteFile: string, localFile: string): (route: (string, string))
    ensures route.1 == localFile && |route.0| == |remote| + 1 + |remoteFile|
    ensures route.0[..|remote|] == remote && route.0[|remote|] == ':' && route.0[|remote| + 1..] == remoteFile
  {
    (RemoteSpec(remote, remoteFile), localFile)
  }

  /** `upload_file(local_file, remote, remote_file)` copies from the local file to the
      remote address: the download of the same slot, reversed. */
  function UploadRoute(localFile: string, remote: string, remoteFile: string): (route: (string, string))
    ensures route.0 == DownloadRoute(remote, remoteFile, localFile).1
    ensures route.1 == DownloadRoute(remote, remoteFile, localFile).0
  {
    (localFile, RemoteSpec(remote, remoteFile))
  }

  /** The address handed to the copy command parses back to the slot it came from, so a
      remote slot is copied from and to the very `[user@]host:path` the user wrote. */
  lemma RemoteSpecRoundTrip(s: string, index: nat)
    requires ParseFile(s, index).IsRemote()
    ensures ParseFile(RemoteSpec(ParseFile(s, index).remote.value, ParseFile(s, index).file.value), index)
      == ParseFile(s, index)
  {
    var slot := ParseFile(s, index);
    ParseRemoteSound(s, index);
    var r, p := slot.remote.value, slot.file.value;
    assert MatchesRemote(r + ":" + p, r, p);
    ParseRemoteComplete(r + ":" + p, r, p, index);
  }
}
