/** The argument check of netvimdiff.py: usage message without arguments, then
    `parse_file` on argv[1..4] with an exit at the first invalid slot, then the
    two-file minimum. */
module Arguments {
  import opened Wrappers
  import opened Specifier

  /** Where the argument check leaves the script: one of its three early exits, or the
      collected slots. */
  datatype Startup = Usage | InvalidArg(position: nat) | TooFew | Collected(files: seq<Slot>)

  /** The status `sys.exit` is given on each early exit. */
  function ExitCode(st: Startup): (code: int)
    requires !st.Collected?
    ensures 1 <= code <= 3
  {
    match st
    case Usage => 1
    case InvalidArg(_) => 2
    case TooFew => 3
  }

  /** How many of argv[1], ..., argv[4] exist; `sys.argv[i]` raises `IndexError` for the others. */
  function Inspected(argv: seq<string>): (n: nat)
    ensures n <= 4 && n < |argv| + (if |argv| == 0 then 1 else 0)
    ensures n == 4 || n == if |argv| == 0 then 0 else |argv| - 1
  {
    if |argv| <= 1 then 0 else if |argv| - 1 < 4 then |argv| - 1 else 4
  }

  /** `parse_file(sys.argv[i], i)` for each inspected position i, in order. */
  function ParsedArgs(argv: seq<string>): (slots: seq<Slot>)
    ensures |slots| == Inspected(argv)
  {
    seq(Inspected(argv), k requires 0 <= k < Inspected(argv) => ParseFile(argv[k + 1], k + 1))
  }

  /** The position of the first invalid slot, or |slots| when all are valid. */
  function FirstInvalid(slots: seq<Slot>): (k: nat)
    ensures k <= |slots|
    ensures k < |slots| ==> slots[k].IsInvalid()
    ensures forall j :: 0 <= j < k ==> !slots[j].IsInvalid()
  {
    if slots == [] then 0
    else if slots[0].IsInvalid() then 0
    else 1 + FirstInvalid(slots[1..])
  }

  /** The first invalid slot is the invalid one with no invalid slot before it. */
  lemma FirstInvalidAt(slots: seq<Slot>, k: nat)
    requires k < |slots| && slots[k].IsInvalid()
    requires forall j :: 0 <= j < k ==> !slots[j].IsInvalid()
    ensures FirstInvalid(slots) == k
  {
  }

  /** The outcome of the argument check, decided from argv as a whole. */
  function StartupSpec(argv: seq<string>): (st: Startup)
    ensures st.Collected? ==> 2 <= |st.files| <= 4 && AllValid(st.files)
    ensures st.Collected? ==> forall k :: 0 <= k < |st.files| ==> st.files[k].index == k + 1 && st.files[k].temp.None?
  {
    if |argv| == 1 then Usage
    else
      var slots := ParsedArgs(argv);
      var k := FirstInvalid(slots);
      if k < |slots| then InvalidArg(k + 1)
      else if |slots| < 2 then TooFew
      else Collected(slots)
  }

  /** The argument loop: `files.append` of each parsed slot, exiting at the first invalid one. */
  method CollectFiles(argv: seq<string>) returns (st: Startup)
    ensures st == StartupSpec(argv)
  {
    if |argv| == 1 {
      return Usage;
    }
    ghost var slots := ParsedArgs(argv);
    var files: seq<Slot> := [];
    for i := 1 to 5
      invariant |files| == if i - 1 < |slots| then i - 1 else |slots|
      invariant forall j :: 0 <= j < |files| ==> files[j] == slots[j] && !slots[j].IsInvalid()
    {
      if i < |argv| {
        var f := ParseFile(argv[i], i);
        assert slots[i - 1] == f;
        if f.remote.None? && f.file.None? {
          FirstInvalidAt(slots, i - 1);
          return InvalidArg(i);
        }
        files := files + [f];
      }
    }
    assert files == slots;
    if |files| < 2 {
      return TooFew;
    }
    return Collected(files);
  }

  /** Exit 1 happens exactly when no argument at all is given. */
  lemma UsageExactlyWithoutArguments(argv: seq<string>)
    ensures StartupSpec(argv) == Usage <==> |argv| == 1
  {
  }

  /** A parsed argument is invalid exactly when it is the empty text. */
  lemma InvalidIffEmpty(argv: seq<string>)
    ensures forall k :: 0 <= k < Inspected(argv) ==> (ParsedArgs(argv)[k].IsInvalid() <==> argv[k + 1] == "")
  {
    forall k | 0 <= k < Inspected(argv) ensures ParsedArgs(argv)[k].IsInvalid() <==> argv[k + 1] == "" {
      ParseClassification(argv[k + 1], k + 1);
    }
  }

  /** Exit 2 names position i exactly when argv[i] is the first empty argument among
      positions 1 to 4. */
  lemma InvalidArgIsFirstEmpty(argv: seq<string>, i: nat)
    ensures StartupSpec(argv) == InvalidArg(i) <==>
      |argv| != 1 && 1 <= i <= 4 && i < |argv| && argv[i] == ""
      && forall j :: 1 <= j < i ==> argv[j] != ""
  {
    var slots := ParsedArgs(argv);
    InvalidIffEmpty(argv);
    var k := FirstInvalid(slots);
    if StartupSpec(argv) == InvalidArg(i) {
      assert i == k + 1 && argv[i] == "";
      forall j | 1 <= j < i ensures argv[j] != "" {
        assert !slots[j - 1].IsInvalid();
      }
    }
    if |argv| != 1 && 1 <= i <= 4 && i < |argv| && argv[i] == "" && forall j :: 1 <= j < i ==> argv[j] != "" {
      assert slots[i - 1].IsInvalid();
      assert k <= i - 1;
      assert k == i - 1;
    }
  }

  /** Exit 3 happens exactly when a single non-empty argument is given (or argv is empty):
      one argument gets 3, not 1. */
  lemma TooFewExactlyWithOneArgument(argv: seq<string>)
    ensures StartupSpec(argv) == TooFew <==> |argv| == 0 || (|argv| == 2 && argv[1] != "")
  {
    if |argv| == 2 {
      ParseClassification(argv[1], 1);
    }
  }

  /** The run goes on exactly when 2 to 4 arguments are inspected and none is empty; the
      slots are then the parsed arguments in order, with indices 1..n. */
  lemma CollectedSlots(argv: seq<string>)
    ensures StartupSpec(argv).Collected? <==>
      |argv| >= 3 && forall j :: 1 <= j <= Inspected(argv) ==> argv[j] != ""
    ensures StartupSpec(argv).Collected? ==>
      var fs := StartupSpec(argv).files;
      |fs| == Inspected(argv) && forall k :: 0 <= k < |fs| ==> fs[k] == ParseFile(argv[k + 1], k + 1)
  {
    var slots := ParsedArgs(argv);
    InvalidIffEmpty(argv);
    var k := FirstInvalid(slots);
    if StartupSpec(argv).Collected? {
      forall j | 1 <= j <= Inspected(argv) ensures argv[j] != "" {
        assert !slots[j - 1].IsInvalid();
      }
    }
    if |argv| >= 3 && forall j :: 1 <= j <= Inspected(argv) ==> argv[j] != "" {
      assert k == |slots|;
    }
  }

  /** Arguments after the fourth are never read. */
  lemma ExtraArgumentsIgnored(argv: seq<string>)
    requires |argv| > 5
    ensures StartupSpec(argv) == StartupSpec(argv[..5])
  {
    assert ParsedArgs(argv) == ParsedArgs(argv[..5]);
  }
}
