/**
 * `os.path.splitext` on a POSIX system: the extension is the part of the
 * name from its last '.', provided that dot comes after the last '/' and is
 * not one of the dots the last path component starts with (so ".png" has no
 * extension, while "a.png" has ".png").
 */
module PosixPath {

  /** Python's `s.rfind(c)`: the index of the last `c` in `s`, or -1. */
  function RFind(s: string, c: char): (i: int)
    ensures -1 <= i < |s|
    ensures i >= 0 ==> s[i] == c
    ensures forall k :: i < k < |s| ==> s[k] != c
  {
    if |s| == 0 then -1
    else if s[|s| - 1] == c then |s| - 1
    else RFind(s[..|s| - 1], c)
  }

  /** Every character of `s` from index `lo` up to (not including) `hi` is a dot. */
  predicate DotsBetween(s: string, lo: int, hi: int)
    requires 0 <= lo <= hi <= |s|
  {
    forall k :: lo <= k < hi ==> s[k] == '.'
  }

  /** The pair `(root, ext)` that `os.path.splitext(p)` returns. */
  function SplitExt(p: string): (r: (string, string))
    ensures r.0 + r.1 == p
    ensures r.1 == [] || r.1[0] == '.'
    ensures forall k :: 0 < k < |r.1| ==> r.1[k] != '.' && r.1[k] != '/'
    ensures r.1 != [] ==> RFind(p, '/') < |r.0| && !DotsBetween(p, RFind(p, '/') + 1, |r.0|)
    ensures RFind(p, '.') > RFind(p, '/') && !DotsBetween(p, RFind(p, '/') + 1, RFind(p, '.')) ==>
      r == (p[..RFind(p, '.')], p[RFind(p, '.')..])
  {
    var sepIndex := RFind(p, '/');
    var dotIndex := RFind(p, '.');
    if dotIndex > sepIndex && !DotsBetween(p, sepIndex + 1, dotIndex) then
      (p[..dotIndex], p[dotIndex..])
    else
      (p, "")
  }

  /** The extension alone, `os.path.splitext(p)[1]`: a suffix of `p` that is
      empty or starts with a dot, and that runs from the last dot whenever
      that dot comes after the last '/' and after some non-dot character of
      the last path component. */
  function Ext(p: string): (r: string)
    ensures |r| <= |p| && r == p[|p| - |r|..]
    ensures r == [] || r[0] == '.'
    ensures r != [] ==> RFind(p, '.') > RFind(p, '/') && !DotsBetween(p, RFind(p, '/') + 1, RFind(p, '.'))
    ensures RFind(p, '.') > RFind(p, '/') && !DotsBetween(p, RFind(p, '/') + 1, RFind(p, '.')) ==>
      r == p[RFind(p, '.')..]
  {
    SplitExt(p).1
  }

  lemma {:induction false} RFindAppend(a: string, b: string, c: char)
    ensures RFind(a + b, c) == if RFind(b, c) >= 0 then |a| + RFind(b, c) else RFind(a, c)
    decreases |b|
  {
    if |b| > 0 {
      assert (a + b)[..|a + b| - 1] == a + b[..|b| - 1];
      RFindAppend(a, b[..|b| - 1], c);
    } else {
      assert a + b == a;
    }
  }

  /** Putting anything in front of a name that has an extension keeps that
      extension: the stored upload name `stamp + "-" + filename` has the
      extension of `filename`. */
  lemma {:induction false} ExtOfPrefixed(prefix: string, name: string)
    requires Ext(name) != []
    ensures Ext(prefix + name) == Ext(name)
  {
    var p := prefix + name;
    RFindAppend(prefix, name, '/');
    RFindAppend(prefix, name, '.');
    var sep, dot := RFind(name, '/'), RFind(name, '.');
    var sep', dot' := RFind(p, '/'), RFind(p, '.');
    assert dot' == |prefix| + dot;
    var k :| sep + 1 <= k < dot && name[k] != '.';
    assert p[|prefix| + k] == name[k];
    assert p[dot'..] == name[dot..];
  }

  /** `RFind` is the one index that holds `c` with no `c` after it. */
  lemma RFindIs(s: string, c: char, i: int)
    requires -1 <= i < |s|
    requires i >= 0 ==> s[i] == c
    requires forall k :: i < k < |s| ==> s[k] != c
    ensures RFind(s, c) == i
  {
  }

  /** Worked examples: only the last dot counts, and the case of the
      extension is kept. */
  lemma ExtExamples()
    ensures Ext("photo.PNG") == ".PNG"
    ensures Ext("archive.tar.gz") == ".gz"
    ensures Ext("a..png") == ".png"
  {
    RFindIs("photo.PNG", '.', 5);
    RFindIs("photo.PNG", '/', -1);
    assert "photo.PNG"[0] != '.' && "photo.PNG"[5..] == ".PNG";
    RFindIs("archive.tar.gz", '.', 11);
    RFindIs("archive.tar.gz", '/', -1);
    assert "archive.tar.gz"[0] != '.' && "archive.tar.gz"[11..] == ".gz";
    RFindIs("a..png", '.', 2);
    RFindIs("a..png", '/', -1);
    assert "a..png"[0] != '.' && "a..png"[2..] == ".png";
  }

  /** Worked examples of names without an extension: the leading dots of a
      name never start one, and a dot before the last '/' is not one. */
  lemma NoExtExamples()
    ensures Ext(".png") == [] && Ext("..png") == []
    ensures Ext("dir.d/file") == []
  {
    RFindIs(".png", '.', 0);
    RFindIs("..png", '.', 1);
    RFindIs("dir.d/file", '.', 3);
    RFindIs("dir.d/file", '/', 5);
  }
}
