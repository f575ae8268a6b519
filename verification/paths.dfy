/**
 * The POSIX `os.path` and `pathlib` helpers the generators use to name their
 * output and checkpoint files.
 */
module Paths {

  import opened Wrappers
  import opened Text

  const Sep: char := '/'
  const JsonExt: string := ".json"

  /** Index just after the last separator (0 when there is none). */
  function TailStart(p: string): (i: nat)
    ensures i <= |p|
    ensures Sep !in p[i..]
    ensures i > 0 ==> p[i - 1] == Sep
  {
    match LastIndexOf(p, Sep)
    case None => 0
    case Some(k) => k + 1
  }

  /** `os.path.basename(p)` */
  function Basename(p: string): (r: string)
    ensures Sep !in r
    ensures EndsWith(p, r)
  {
    p[TailStart(p)..]
  }

  predicate AllSep(s: string) {
    forall k :: 0 <= k < |s| ==> s[k] == Sep
  }

  function RStripSep(s: string): (r: string)
    ensures |r| <= |s| && r == s[..|r|]
    ensures |r| == 0 || r[|r| - 1] != Sep
  {
    if |s| > 0 && s[|s| - 1] == Sep then RStripSep(s[..|s| - 1]) else s
  }

  /** `os.path.dirname(p)` */
  function Dirname(p: string): (r: string)
    ensures StartsWith(p, r)
  {
    var head := p[..TailStart(p)];
    if |head| > 0 && !AllSep(head) then RStripSep(head) else head
  }

  /** `os.path.join(a, b)` for two components. */
  function Join(a: string, b: string): (r: string)
    ensures EndsWith(r, b)
  {
    if StartsWith(b, [Sep]) then b
    else if |a| == 0 || a[|a| - 1] == Sep then a + b
    else a + [Sep] + b
  }

  /** A joined name keeps its own base name when it has no separator. */
  lemma BasenameOfJoin(a: string, b: string)
    requires Sep !in b
    ensures Basename(Join(a, b)) == b
  {
    NotStartsWithSep(b);
    var x := if |a| == 0 || a[|a| - 1] == Sep then a else a + [Sep];
    assert Join(a, b) == x + b;
    TailStartAfterSep(x, b);
  }

  /** Different separator-free names joined to one directory differ. */
  lemma JoinDistinct(a: string, x: string, y: string)
    requires Sep !in x && Sep !in y && x != y
    ensures Join(a, x) != Join(a, y)
  {
    BasenameOfJoin(a, x);
    BasenameOfJoin(a, y);
  }

  lemma NotStartsWithSep(b: string)
    requires Sep !in b
    ensures !StartsWith(b, [Sep])
  {
    if |b| > 0 {
      assert b[0] in b;
    }
  }

  lemma TailStartAfterSep(x: string, b: string)
    requires Sep !in b
    requires |x| == 0 || x[|x| - 1] == Sep
    ensures TailStart(x + b) == |x|
  {
    var r := x + b;
    assert forall j :: |x| <= j < |r| ==> r[j] == b[j - |x|];
    if |x| > 0 {
      assert r[|x| - 1] == Sep;
      assert Sep in r;
    }
  }

  /** A non-empty directory name without a trailing separator. */
  predicate PlainDir(a: string) {
    |a| > 0 && a[|a| - 1] != Sep && !AllSep(a)
  }

  /** Joining a name to a directory and taking the directory back gives the
      directory, for a plain directory without trailing separators. */
  lemma DirnameOfJoin(a: string, b: string)
    requires Sep !in b
    requires PlainDir(a)
    ensures Dirname(Join(a, b)) == a
  {
    NotStartsWithSep(b);
    var r := Join(a, b);
    assert r == (a + [Sep]) + b;
    TailStartAfterSep(a + [Sep], b);
    var t := TailStart(r);
    assert t == |a| + 1 by {
      assert |Basename(r)| == |b|;
    }
    assert r[..t] == a + [Sep];
    assert RStripSep(a + [Sep]) == RStripSep(a) by {
      assert (a + [Sep])[..|a|] == a;
    }
    assert !AllSep(a + [Sep]) by {
      var k :| 0 <= k < |a| && a[k] != Sep;
      assert (a + [Sep])[k] == a[k];
    }
  }

  /** `os.path.splitext(p)[0]`: drop the extension, where the extension is
      the last `.` of the final component, provided that component has a
      character other than `.` before it. */
  function SplitextRoot(p: string): (r: string)
    ensures StartsWith(p, r)
  {
    var t := TailStart(p);
    var name := p[t..];
    match LastIndexOf(name, '.')
    case None => p
    case Some(d) =>
      if exists k :: 0 <= k < d && name[k] != '.' then p[..t + d] else p
  }

  /** A file's name without its extension has no separator. */
  lemma RootOfBasenameSepFree(p: string)
    ensures Sep !in SplitextRoot(Basename(p))
  {
    var base := Basename(p);
    var root := SplitextRoot(base);
    assert forall k :: 0 <= k < |root| ==> root[k] == base[k];
  }

  /** `pathlib.PurePosixPath(p).name`: the last component, ignoring empty
      components that repeated or trailing separators leave. */
  function PathName(p: string): (r: string)
    ensures Sep !in r
  {
    var parts := SplitOn(p, Sep);
    LastNonEmpty(parts)
  }

  function LastNonEmpty(parts: seq<string>): (r: string)
    requires forall k :: 0 <= k < |parts| ==> Sep !in parts[k]
    ensures Sep !in r
    ensures r == "" || r in parts
  {
    if |parts| == 0 then ""
    else if parts[|parts| - 1] != "" && parts[|parts| - 1] != "." then parts[|parts| - 1]
    else LastNonEmpty(parts[..|parts| - 1])
  }

  /** `pathlib.PurePosixPath(p).stem`: the name without its suffix, where a
      suffix needs a dot that is neither the first nor the last character. */
  function PathStem(p: string): (r: string)
    ensures Sep !in r
  {
    var name := PathName(p);
    match LastIndexOf(name, '.')
    case None => name
    case Some(i) => if 0 < i < |name| - 1 then name[..i] else name
  }

  /** The custom-output-name rule: append `.json` unless the name already
      ends with it. */
  function EnsureJsonExt(name: string): (r: string)
    ensures EndsWith(r, JsonExt)
    ensures EndsWith(name, JsonExt) ==> r == name
    ensures !EndsWith(name, JsonExt) ==> r == name + JsonExt
  {
    if EndsWith(name, JsonExt) then name else name + JsonExt
  }

  lemma EnsureJsonExtIdempotent(name: string)
    ensures EnsureJsonExt(EnsureJsonExt(name)) == EnsureJsonExt(name)
  {
  }

  /** `os.path.splitext(basename)[0]` of a file name, where the file name
      ends with `.json` and something precedes it that is not a dot. */
  lemma SplitextRootOfJsonName(stem: string)
    requires Sep !in stem && '.' !in stem && |stem| > 0
    ensures SplitextRoot(stem + JsonExt) == stem
  {
    var p := stem + JsonExt;
    assert TailStart(p) == 0 by {
      assert Sep !in p;
    }
    assert p[..0] == [];
    var d := |stem|;
    assert p[d] == '.';
    assert '.' !in p[d + 1..];
    assert LastIndexOf(p, '.') == Some(d);
    assert p[0] != '.' by { assert p[0] == stem[0]; }
  }
}
