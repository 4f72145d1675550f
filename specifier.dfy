/** `parse_file` of netvimdiff.py: one command-line argument becomes a remote slot
    (`[user@]host:path`), a local slot (any other non-empty text) or an invalid slot
    (the empty text). */
module Specifier {
  import opened Wrappers

  /** One file argument, as the dictionary the script keeps for it. `remote` is the
      `[user@]host` part, `file` the path (on the remote host or local), `index` the
      argument's position, and `temp` the staged local copy, attached after staging
      (parsing leaves it `None`). */
  datatype Slot = Slot(remote: Option<string>, file: Option<string>, index: nat, temp: Option<string>)
  {
    predicate IsRemote() { remote.Some? }

    /** The check the argument loop applies: both parts are `None`. */
    predicate IsInvalid() { remote.None? && file.None? }
  }

  /** Every slot carries a path: what the argument loop guarantees of the slots it keeps. */
  predicate AllValid(files: seq<Slot>) {
    forall k :: 0 <= k < |files| ==> files[k].file.Some?
  }

  predicate IsAlnum(c: char) {
    'A' <= c <= 'Z' || 'a' <= c <= 'z' || '0' <= c <= '9'
  }

  /** The user class `[A-Za-z0-9-_]` (the `-` after the range `0-9` is a literal). */
  predicate IsUserChar(c: char) {
    IsAlnum(c) || c == '-' || c == '_'
  }

  /** The host class `[A-Za-z0-9-_.]`. */
  predicate IsHostChar(c: char) {
    IsUserChar(c) || c == '.'
  }

  predicate AllUserChars(s: string) {
    forall i :: 0 <= i < |s| ==> IsUserChar(s[i])
  }

  predicate AllHostChars(s: string) {
    forall i :: 0 <= i < |s| ==> IsHostChar(s[i])
  }

  /** The language of group 1, `(?:[A-Za-z0-9-_]+@|)[A-Za-z0-9-_.]+`. */
  ghost predicate IsRemoteName(r: string) {
    (|r| > 0 && AllHostChars(r))
    || exists j :: 0 < j < |r| - 1 && r[j] == '@' && AllUserChars(r[..j]) && AllHostChars(r[j + 1..])
  }

  /** The language of group 2, `.+`: at least one character and no newline. */
  predicate IsPathText(p: string) {
    |p| > 0 && forall i :: 0 <= i < |p| ==> p[i] != '\n'
  }

  /** `re.match` of `^(group1):(group2)$` succeeds on s with groups r and p.
      Without MULTILINE, `$` matches at the end or just before a final newline. */
  ghost predicate MatchesRemote(s: string, r: string, p: string) {
    IsRemoteName(r) && IsPathText(p) && (s == r + ":" + p || s == r + ":" + p + "\n")
  }

  ghost predicate IsRemoteSpecifier(s: string) {
    exists r, p :: MatchesRemote(s, r, p)
  }

  /** The position of the first c in s, or |s| when s has none. */
  function FindChar(s: string, c: char): (k: nat)
    ensures k <= |s|
    ensures k < |s| ==> s[k] == c
    ensures forall i :: 0 <= i < k ==> s[i] != c
  {
    if s == [] then 0
    else if s[0] == c then 0
    else 1 + FindChar(s[1..], c)
  }

  /** Decides group 1: at most one `@`, a user part before it and a host part after it. */
  predicate LooksLikeRemoteName(r: string) {
    var j := FindChar(r, '@');
    if j == |r| then |r| > 0 && AllHostChars(r)
    else 0 < j < |r| - 1 && AllUserChars(r[..j]) && AllHostChars(r[j + 1..])
  }

  /** What `.+$` captures of the text after the colon: a final newline is left to `$`. */
  function PathGroup(t: string): string {
    if |t| > 0 && t[|t| - 1] == '\n' then t[..|t| - 1] else t
  }

  /** parse_file(file, index). Group 1 can hold neither `:` nor anything after the first
      colon, so the match, when there is one, splits s at its first colon. */
  function ParseFile(s: string, index: nat): (slot: Slot)
    ensures slot.index == index && slot.temp.None?
  {
    var k := FindChar(s, ':');
    if k < |s| && LooksLikeRemoteName(s[..k]) && IsPathText(PathGroup(s[k + 1..])) then
      Slot(Some(s[..k]), Some(PathGroup(s[k + 1..])), index, None)
    else if s != "" then
      Slot(None, Some(s), index, None)
    else
      Slot(None, None, index, None)
  }

  /** A remote name holds no character outside the two classes and `@`: no `:`, no `/`,
      no newline. */
  lemma RemoteNameChars(r: string, c: char)
    requires !IsHostChar(c) && c != '@'
    ensures IsRemoteName(r) ==> forall i :: 0 <= i < |r| ==> r[i] != c
  {
    if IsRemoteName(r) && !(|r| > 0 && AllHostChars(r)) {
      var j :| 0 < j < |r| - 1 && r[j] == '@' && AllUserChars(r[..j]) && AllHostChars(r[j + 1..]);
      forall i | 0 <= i < |r| ensures r[i] != c {
        if i < j {
          assert r[..j][i] == r[i];
        } else if i > j {
          assert r[j + 1..][i - j - 1] == r[i];
        }
      }
    }
  }

  /** The decision procedure for group 1 agrees with the pattern. */
  lemma RemoteNameDecided(r: string)
    ensures LooksLikeRemoteName(r) <==> IsRemoteName(r)
  {
    var j := FindChar(r, '@');
    if LooksLikeRemoteName(r) && j < |r| {
      assert 0 < j < |r| - 1 && r[j] == '@' && AllUserChars(r[..j]) && AllHostChars(r[j + 1..]);
    }
    if IsRemoteName(r) {
      if !(|r| > 0 && AllHostChars(r)) {
        var j0 :| 0 < j0 < |r| - 1 && r[j0] == '@' && AllUserChars(r[..j0]) && AllHostChars(r[j0 + 1..]);
        forall i | 0 <= i < j0 ensures r[i] != '@' {
          assert r[..j0][i] == r[i];
        }
        assert j == j0;
      }
    }
  }

  /** A remote slot is exactly what the pattern captures. */
  lemma ParseRemoteSound(s: string, index: nat)
    requires ParseFile(s, index).IsRemote()
    ensures MatchesRemote(s, ParseFile(s, index).remote.value, ParseFile(s, index).file.value)
  {
    var k := FindChar(s, ':');
    var r, t := s[..k], s[k + 1..];
    RemoteNameDecided(r);
    if |t| > 0 && t[|t| - 1] == '\n' {
      assert s == r + ":" + PathGroup(t) + "\n";
    } else {
      assert s == r + ":" + PathGroup(t);
    }
  }

  /** Whenever the pattern matches with groups r and p, the slot is remote with exactly
      those groups: the `user@` prefix stays in `remote`, later colons stay in `file`. */
  lemma ParseRemoteComplete(s: string, r: string, p: string, index: nat)
    requires MatchesRemote(s, r, p)
    ensures ParseFile(s, index) == Slot(Some(r), Some(p), index, None)
  {
    RemoteNameChars(r, ':');
    RemoteNameDecided(r);
    var t := if s == r + ":" + p then p else p + "\n";
    assert s == r + [':'] + t;
    FirstColonAfter(r, t);
    assert s[..|r|] == r && s[|r| + 1..] == t;
    assert PathGroup(t) == p;
  }

  /** The first colon of `r:t`, when r has none, is the one after r. */
  lemma {:induction false} FirstColonAfter(r: string, t: string)
    requires forall i :: 0 <= i < |r| ==> r[i] != ':'
    ensures FindChar(r + [':'] + t, ':') == |r|
  {
    if r != [] {
      assert (r + [':'] + t)[1..] == r[1..] + [':'] + t;
      FirstColonAfter(r[1..], t);
    }
  }

  /** Remote exactly when the pattern matches, invalid exactly for the empty text, and
      local (the whole text as `file`) otherwise. */
  lemma ParseClassification(s: string, index: nat)
    ensures ParseFile(s, index).IsRemote() <==> IsRemoteSpecifier(s)
    ensures ParseFile(s, index).IsInvalid() <==> s == ""
    ensures !IsRemoteSpecifier(s) && s != "" ==> ParseFile(s, index) == Slot(None, Some(s), index, None)
  {
    var slot := ParseFile(s, index);
    if slot.IsRemote() {
      ParseRemoteSound(s, index);
    }
    if IsRemoteSpecifier(s) {
      var r, p :| MatchesRemote(s, r, p);
      ParseRemoteComplete(s, r, p, index);
    }
  }

  /** A `/` before the first colon (a relative or absolute local path) makes the slot local. */
  lemma SlashBeforeColonIsLocal(s: string, i: nat, index: nat)
    requires i < FindChar(s, ':') && s[i] == '/'
    ensures ParseFile(s, index) == Slot(None, Some(s), index, None)
  {
    var k := FindChar(s, ':');
    assert s[..k][i] == '/';
    RemoteNameDecided(s[..k]);
    RemoteNameChars(s[..k], '/');
  }

  /** `host:` (nothing, or only a newline, after the colon) is a local slot. */
  lemma EmptyPathIsLocal(r: string, index: nat)
    requires IsRemoteName(r)
    ensures ParseFile(r + ":", index) == Slot(None, Some(r + ":"), index, None)
    ensures ParseFile(r + ":\n", index) == Slot(None, Some(r + ":\n"), index, None)
  {
    RemoteNameChars(r, ':');
    var s1, s2 := r + ":", r + ":\n";
    assert s1[|r|] == ':' && s2[|r|] == ':';
    assert forall i :: 0 <= i < |r| ==> s1[i] == r[i] && s2[i] == r[i];
    assert FindChar(s1, ':') == |r| && FindChar(s2, ':') == |r|;
    assert s1[|r| + 1..] == [] && s2[|r| + 1..] == "\n";
  }

  /** The worked example: `user@host:dir/a:b` keeps the user and the second colon. */
  lemma ParseUserHostExample()
    ensures ParseFile("user@host:dir/a:b", 2) == Slot(Some("user@host"), Some("dir/a:b"), 2, None)
  {
    var r := "user@host";
    assert r[4] == '@' && r[..4] == "user" && r[5..] == "host";
    assert AllUserChars(r[..4]) && AllHostChars(r[5..]);
    assert IsRemoteName(r);
    assert IsPathText("dir/a:b");
    assert "user@host:dir/a:b" == r + ":" + "dir/a:b";
    ParseRemoteComplete("user@host:dir/a:b", r, "dir/a:b", 2);
  }
}
