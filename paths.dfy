/**
 * POSIX path-string operations as Python's `str.split`, `os.path.basename`,
 * `os.path.dirname` and `os.path.join` (two arguments) perform them, with
 * `os.sep` being '/'.
 */
module Paths {

  const Sep: char := '/'

  /** Python's `s.split(sep)`: always at least one part, empty parts kept. */
  function Split(s: string, sep: char): (parts: seq<string>)
    ensures |parts| >= 1
    decreases |s|
  {
    if |s| == 0 then [""]
    else
      var rest := Split(s[1..], sep);
      if s[0] == sep then [""] + rest else [[s[0]] + rest[0]] + rest[1..]
  }

  /** `sep.join(parts)`. */
  function JoinWith(parts: seq<string>, sep: char): string
    decreases |parts|
  {
    if |parts| == 0 then ""
    else if |parts| == 1 then parts[0]
    else parts[0] + [sep] + JoinWith(parts[1..], sep)
  }

  /** Splitting loses nothing and leaves no separator inside a part. */
  lemma {:induction false} SplitJoin(s: string, sep: char)
    ensures JoinWith(Split(s, sep), sep) == s
    ensures forall k :: 0 <= k < |Split(s, sep)| ==> sep !in Split(s, sep)[k]
    decreases |s|
  {
    if |s| > 0 {
      SplitJoin(s[1..], sep);
      var rest := Split(s[1..], sep);
      if s[0] == sep {
        assert s == [sep] + s[1..];
      } else {
        var parts := Split(s, sep);
        assert parts[0] == [s[0]] + rest[0];
        assert parts[1..] == rest[1..];
        if |rest| == 1 {
          assert JoinWith(parts, sep) == [s[0]] + rest[0];
        } else {
          assert JoinWith(rest, sep) == rest[0] + [sep] + JoinWith(rest[1..], sep);
          assert JoinWith(parts, sep) == ([s[0]] + rest[0]) + [sep] + JoinWith(rest[1..], sep);
        }
        assert s == [s[0]] + s[1..];
        forall k | 0 <= k < |parts| ensures sep !in parts[k] {
          if k == 0 {
            assert sep !in rest[0];
          } else {
            assert parts[k] == rest[k];
          }
        }
      }
    }
  }

  /** `os.path.basename(p)`: what follows the last separator. */
  function Basename(p: string): (name: string)
    ensures |name| <= |p| && name == p[|p| - |name|..]
    ensures Sep !in name
    decreases |p|
  {
    if |p| == 0 then ""
    else if p[|p| - 1] == Sep then ""
    else Basename(p[..|p| - 1]) + [p[|p| - 1]]
  }

  function RStripSep(s: string): (r: string)
    decreases |s|
  {
    if |s| > 0 && s[|s| - 1] == Sep then RStripSep(s[..|s| - 1]) else s
  }

  predicate AllSep(s: string) {
    forall k :: 0 <= k < |s| ==> s[k] == Sep
  }

  /** `os.path.dirname(p)`: everything up to the last separator, trailing separators removed unless it is all separators. */
  function Dirname(p: string): string {
    var head := p[..|p| - |Basename(p)|];
    if |head| > 0 && !AllSep(head) then RStripSep(head) else head
  }

  /** `os.path.join(a, b)`. */
  function Join(a: string, b: string): string {
    if |b| > 0 && b[0] == Sep then b
    else if |a| == 0 || a[|a| - 1] == Sep then a + b
    else a + [Sep] + b
  }

  lemma {:induction false} BasenameAfterSep(d: string, name: string)
    requires Sep !in name
    requires |d| > 0 && d[|d| - 1] == Sep
    ensures Basename(d + name) == name
    decreases |name|
  {
    if |name| > 0 {
      var p := d + name;
      assert p[..|p| - 1] == d + name[..|name| - 1];
      BasenameAfterSep(d, name[..|name| - 1]);
      assert name == name[..|name| - 1] + [name[|name| - 1]];
    } else {
      assert d + name == d;
    }
  }

  /** A plain file name joined onto a directory is the basename of the result. */
  lemma BasenameOfJoin(d: string, name: string)
    requires Sep !in name && |name| > 0
    ensures Basename(Join(d, name)) == name
  {
    if |d| == 0 {
      assert Join(d, name) == "" + name;
      BasenameAfterSepOrEmpty(name);
    } else if d[|d| - 1] == Sep {
      BasenameAfterSep(d, name);
    } else {
      assert Join(d, name) == (d + [Sep]) + name;
      BasenameAfterSep(d + [Sep], name);
    }
  }

  lemma {:induction false} BasenameAfterSepOrEmpty(name: string)
    requires Sep !in name
    ensures Basename("" + name) == name
    decreases |name|
  {
    assert "" + name == name;
    if |name| > 0 {
      BasenameAfterSepOrEmpty(name[..|name| - 1]);
      assert "" + name[..|name| - 1] == name[..|name| - 1];
      assert name == name[..|name| - 1] + [name[|name| - 1]];
    }
  }

  /** With the directory fixed, the joined path determines the relative name. */
  lemma JoinCancel(d: string, n1: string, n2: string)
    requires |n1| > 0 && n1[0] != Sep && |n2| > 0 && n2[0] != Sep
    ensures Join(d, n1) == Join(d, n2) <==> n1 == n2
  {
    if Join(d, n1) == Join(d, n2) {
      var k := if |d| == 0 || d[|d| - 1] == Sep then |d| else |d| + 1;
      assert n1 == Join(d, n1)[k..];
      assert n2 == Join(d, n2)[k..];
    }
  }

  /** The directory of a name joined onto a directory (without trailing separator) is that directory. */
  lemma DirnameOfJoin(d: string, name: string)
    requires Sep !in name && |name| > 0
    requires |d| > 0 && d[|d| - 1] != Sep
    ensures Dirname(Join(d, name)) == d
  {
    var p := Join(d, name);
    assert p == (d + [Sep]) + name;
    BasenameAfterSep(d + [Sep], name);
    var head := p[..|p| - |Basename(p)|];
    assert head == d + [Sep];
    assert !AllSep(head) by { assert head[|d| - 1] == d[|d| - 1]; }
    assert head[..|head| - 1] == d;
    assert RStripSep(head) == RStripSep(d) == d;
  }

  lemma {:induction false} RStripKeepsNonSep(s: string)
    requires !AllSep(s)
    ensures |RStripSep(s)| > 0
    decreases |s|
  {
    if |s| > 0 && s[|s| - 1] == Sep {
      var k :| 0 <= k < |s| && s[k] != Sep;
      assert s[..|s| - 1][k] == s[k];
      RStripKeepsNonSep(s[..|s| - 1]);
    }
  }

  /** A name joined onto a non-empty directory has a non-empty directory part. */
  lemma DirnameOfJoinNonEmpty(d: string, name: string)
    requires Sep !in name && |name| > 0 && |d| > 0
    ensures Dirname(Join(d, name)) != ""
  {
    var p := Join(d, name);
    var h := if d[|d| - 1] == Sep then d else d + [Sep];
    assert p == h + name;
    BasenameAfterSep(h, name);
    assert p[..|p| - |Basename(p)|] == h;
    if !AllSep(h) {
      RStripKeepsNonSep(h);
    }
  }
}
