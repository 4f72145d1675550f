/** The temp-path formula of netvimdiff.py: a remote slot's staged copy is
    `{tmp_dir}/{index}-{remote}-{basename(file)}`. */
module Staging {
  import opened Specifier

  predicate IsDigit(c: char) {
    '0' <= c <= '9'
  }

  function DigitChar(d: nat): (c: char)
    requires d < 10
    ensures IsDigit(c)
  {
    ('0' as int + d) as char
  }

  /** `%i` of a non-negative number: its decimal digits, most significant first. */
  function Decimal(n: nat): (d: string)
    ensures |d| > 0 && d[|d| - 1] == DigitChar(n % 10)
    decreases n
  {
    if n < 10 then [DigitChar(n)] else Decimal(n / 10) + [DigitChar(n % 10)]
  }

  /** A number prints as at least one digit and nothing but digits, one digit exactly
      below 10. */
  lemma {:induction false} DecimalDigits(n: nat)
    ensures |Decimal(n)| > 0 && forall i :: 0 <= i < |Decimal(n)| ==> IsDigit(Decimal(n)[i])
    ensures n < 10 <==> |Decimal(n)| == 1
    decreases n
  {
    if n >= 10 {
      DecimalDigits(n / 10);
      var d := Decimal(n / 10);
      assert forall i :: 0 <= i < |d| ==> Decimal(n)[i] == d[i];
    }
  }

  /** Different numbers print differently. */
  lemma {:induction false} DecimalInjective(a: nat, b: nat)
    requires Decimal(a) == Decimal(b)
    ensures a == b
    decreases a
  {
    DecimalDigits(a);
    DecimalDigits(b);
    var da, db := Decimal(a), Decimal(b);
    assert da[|da| - 1] == db[|db| - 1];
    if a >= 10 && b >= 10 {
      DecimalDigits(a / 10);
      DecimalDigits(b / 10);
      assert Decimal(a / 10) == da[..|da| - 1] == db[..|db| - 1] == Decimal(b / 10);
      DecimalInjective(a / 10, b / 10);
    }
  }

  /** `os.path.basename` on a POSIX path: what follows the last `/` (all of p if it has none). */
  function Basename(p: string): (b: string)
    ensures |b| <= |p|
    ensures b != [] ==> b[|b| - 1] == p[|p| - 1]
  {
    if p == [] || p[|p| - 1] == '/' then [] else Basename(p[..|p| - 1]) + [p[|p| - 1]]
  }

  /** The basename is the suffix of p after its last `/`: a suffix without `/`, preceded
      by a `/` unless it is all of p. */
  lemma {:induction false} BasenameIsLastComponent(p: string)
    ensures |Basename(p)| <= |p| && Basename(p) == p[|p| - |Basename(p)|..]
    ensures forall i :: 0 <= i < |Basename(p)| ==> Basename(p)[i] != '/'
    ensures |Basename(p)| < |p| ==> p[|p| - |Basename(p)| - 1] == '/'
  {
    if p != [] && p[|p| - 1] != '/' {
      var q, c := p[..|p| - 1], p[|p| - 1];
      BasenameIsLastComponent(q);
      var bq := Basename(q);
      assert Basename(p) == bq + [c];
      assert p == q + [c];
      assert p[|p| - |bq| - 1..] == q[|q| - |bq|..] + [c];
      if |bq| < |q| {
        assert p[|p| - |bq| - 2] == q[|q| - |bq| - 1];
      }
    }
  }

  /** The temp file name of a remote slot: `'%s/%i-%s-%s' % (tmp_dir, index, remote, basename(file))`. */
  function TempPath(tmpDir: string, index: nat, remote: string, file: string): string {
    tmpDir + "/" + TempName(index, remote, file)
  }

  /** The part of the temp path after `tmp_dir + "/"`: `'%i-%s-%s' % (index, remote, basename(file))`. */
  function TempName(index: nat, remote: string, file: string): string {
    Decimal(index) + "-" + (remote + "-" + Basename(file))
  }

  /** A temp path is `tmp_dir`, a slash, the slot number, a dash, the host, a dash and the
      basename of the remote file, in that order. */
  lemma TempPathLayout(tmpDir: string, index: nat, remote: string, file: string)
    ensures var path, d, b := TempPath(tmpDir, index, remote, file), Decimal(index), Basename(file);
      && |path| == |tmpDir| + |d| + |remote| + |b| + 3
      && path[..|tmpDir| + 1] == tmpDir + "/"
      && path[|tmpDir| + 1..|tmpDir| + |d| + 2] == d + "-"
      && path[|tmpDir| + |d| + 2..|tmpDir| + |d| + |remote| + 3] == remote + "-"
      && path[|path| - |b|..] == b
  {
    var d, b := Decimal(index), Basename(file);
    var path := TempPath(tmpDir, index, remote, file);
    assert path == (tmpDir + "/") + (d + "-") + (remote + "-") + b;
  }

  /** A digit string ends where the first `-` begins. */
  lemma DigitsBeforeDash(a: string, b: string, x: string, y: string)
    requires forall i :: 0 <= i < |a| ==> IsDigit(a[i])
    requires forall i :: 0 <= i < |b| ==> IsDigit(b[i])
    requires a + "-" + x == b + "-" + y
    ensures a == b
  {
    var u := a + "-" + x;
    assert u == b + "-" + y;
    assert u[|a|] == '-' && forall i :: 0 <= i < |b| ==> u[i] == b[i];
    assert |b| <= |a|;
    assert u[|b|] == '-' && forall i :: 0 <= i < |a| ==> u[i] == a[i];
    assert |a| <= |b|;
    assert a == u[..|a|] == b;
  }

  /** Two slots with different indices never share a temp path, whatever their hosts and
      basenames: the index, ended by the first `-`, is read back from the name. */
  lemma TempPathsDistinct(tmpDir: string, i: nat, r1: string, f1: string, j: nat, r2: string, f2: string)
    requires i != j
    ensures TempPath(tmpDir, i, r1, f1) != TempPath(tmpDir, j, r2, f2)
  {
    var n1, n2 := TempName(i, r1, f1), TempName(j, r2, f2);
    var t := tmpDir + "/";
    assert (t + n1)[|t|..] == n1 && (t + n2)[|t|..] == n2;
    if n1 == n2 {
      DecimalDigits(i);
      DecimalDigits(j);
      DigitsBeforeDash(Decimal(i), Decimal(j), r1 + "-" + Basename(f1), r2 + "-" + Basename(f2));
      DecimalInjective(i, j);
    }
  }

  /** s holds no c. */
  predicate Lacks(s: string, c: char) {
    forall i :: 0 <= i < |s| ==> s[i] != c
  }

  lemma LacksConcat(a: string, b: string, c: char)
    requires Lacks(a, c) && Lacks(b, c)
    ensures Lacks(a + b, c)
  {
    forall i | 0 <= i < |a + b| ensures (a + b)[i] != c {
      if i >= |a| {
        assert (a + b)[i] == b[i - |a|];
      }
    }
  }

  /** The temp name of a remote slot has no `/`. */
  lemma TempNameHasNoSlash(index: nat, remote: string, file: string)
    requires IsRemoteName(remote)
    ensures Lacks(TempName(index, remote, file), '/')
  {
    RemoteNameChars(remote, '/');
    DecimalDigits(index);
    BasenameIsLastComponent(file);
    var d, b := Decimal(index), Basename(file);
    assert Lacks(d, '/');
    assert Lacks(b, '/');
    assert Lacks(remote, '/');
    assert Lacks("-", '/');
    LacksConcat(remote, "-", '/');
    LacksConcat(remote + "-", b, '/');
    LacksConcat(d, "-", '/');
    LacksConcat(d + "-", remote + "-" + b, '/');
  }

  /** The staged copy of a remote slot is a file directly inside the temp directory:
      the path is `tmp_dir + "/"` followed by a name without `/`. */
  lemma TempPathInsideTempDir(tmpDir: string, index: nat, remote: string, file: string)
    requires IsRemoteName(remote)
    ensures TempPath(tmpDir, index, remote, file)[..|tmpDir| + 1] == tmpDir + "/"
    ensures Lacks(TempPath(tmpDir, index, remote, file)[|tmpDir| + 1..], '/')
  {
    TempNameHasNoSlash(index, remote, file);
    var t, name := tmpDir + "/", TempName(index, remote, file);
    assert (t + name)[..|t|] == t && (t + name)[|t|..] == name;
  }
}
