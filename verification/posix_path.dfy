/** The POSIX flavour of Python's `os.path` that the program relies on
    (`splitext`, `basename`, `dirname`, `join`), and `get_path_parts`
    (ogr2bqjson.py:226-251) built from them. The separator is '/', and
    there is no alternative separator. */
module PosixPath {
  import opened Text

  /** `s.rfind(c)`: the index of the last `c` in `s`, or -1. */
  function RFind(s: string, c: char): (r: int)
    ensures -1 <= r < |s|
    ensures r >= 0 ==> s[r] == c
    ensures forall j :: r < j < |s| ==> s[j] != c
  {
    RFindBefore(s, c, |s|)
  }

  /** The index of the last `c` among the first `n` characters of `s`, or -1. */
  function RFindBefore(s: string, c: char, n: nat): (r: int)
    requires n <= |s|
    ensures -1 <= r < n
    ensures r >= 0 ==> s[r] == c
    ensures forall j :: r < j < n ==> s[j] != c
    decreases n
  {
    if n == 0 then -1
    else if s[n - 1] == c then n - 1
    else RFindBefore(s, c, n - 1)
  }

  /** The last occurrence is unique: any index with the same two
      properties is the one `RFind` returns. */
  lemma RFindUnique(s: string, c: char, r: int)
    requires -1 <= r < |s|
    requires r >= 0 ==> s[r] == c
    requires forall j :: r < j < |s| ==> s[j] != c
    ensures RFind(s, c) == r
  {
  }

  /** Every character of `s` from index `lo` up to `hi` is a '.'. */
  predicate OnlyDots(s: string, lo: int, hi: int)
    requires 0 <= lo && hi <= |s|
  {
    forall i :: lo <= i < hi ==> s[i] == '.'
  }

  /** The last component of `p` holds a '.' that has some character other
      than '.' before it within that component: exactly when `splitext`
      finds an extension. */
  ghost predicate HasExtension(p: string) {
    exists j, d :: RFind(p, '/') < j < d < |p| && p[j] != '.' && p[d] == '.'
  }

  /** An extension as `splitext` returns it: empty, or a '.' followed by
      characters that are neither '.' nor '/'. */
  predicate IsExtension(e: string) {
    e == [] || (e[0] == '.' && forall i :: 1 <= i < |e| ==> e[i] != '.' && e[i] != '/')
  }

  /** Where `splitext` cuts `p`: at the last '.' of the last component,
      unless everything in that component before the '.' is dots (so
      `.bashrc` and `..` have no extension); otherwise at the end. */
  function ExtStart(p: string): (i: int)
    ensures 0 <= i <= |p|
    ensures i < |p| ==> p[i] == '.' && RFind(p, '/') < i
  {
    var sep := RFind(p, '/');
    var dot := RFind(p, '.');
    if dot > sep && !OnlyDots(p, sep + 1, dot) then dot else |p|
  }

  /** `os.path.splitext(p)`: a prefix of `p` and the rest of it, which is
      an extension. */
  function SplitExt(p: string): (r: (string, string))
    ensures |r.0| <= |p| && r.0 == p[..|r.0|] && r.1 == p[|r.0|..]
    ensures IsExtension(r.1)
  {
    var i := ExtStart(p);
    (p[..i], p[i..])
  }

  /** The two parts of `splitext` rejoin to the path. */
  lemma SplitExtJoins(p: string)
    ensures SplitExt(p).0 + SplitExt(p).1 == p
  {
    var r := SplitExt(p);
    assert r.0 + r.1 == p[..|r.0|] + p[|r.0|..];
  }

  /** `splitext` finds an extension exactly when the last component has a
      '.' preceded in it by something other than '.'. */
  lemma SplitExtFindsExtension(p: string)
    ensures SplitExt(p).1 != [] <==> HasExtension(p)
  {
    if ExtStart(p) < |p| {
      ExtensionFound(p);
    }
    if HasExtension(p) {
      var j, d :| RFind(p, '/') < j < d < |p| && p[j] != '.' && p[d] == '.';
      ExtensionCut(p, j, d);
    }
  }

  lemma ExtensionFound(p: string)
    requires ExtStart(p) < |p|
    ensures HasExtension(p)
  {
    var sep := RFind(p, '/');
    var dot := RFind(p, '.');
    assert dot > sep && !OnlyDots(p, sep + 1, dot);
    var k :| sep + 1 <= k < dot && p[k] != '.';
    ExtensionWitness(p, k, dot);
  }

  lemma ExtensionWitness(p: string, j: int, d: int)
    requires 0 <= j < d < |p| && p[j] != '.' && p[d] == '.'
    requires RFind(p, '/') < j
    ensures HasExtension(p)
  {
  }

  lemma ExtensionCut(p: string, j: int, d: int)
    requires RFind(p, '/') < j < d < |p| && p[j] != '.' && p[d] == '.'
    ensures ExtStart(p) < |p|
  {
    assert d <= RFind(p, '.');
    ExtStartAt(p, j);
  }

  /** `os.path.basename(p)`: everything after the last '/'. */
  function Basename(p: string): (b: string)
    ensures |b| <= |p|
    ensures forall i :: 0 <= i < |b| ==> b[i] != '/'
  {
    var sep := RFind(p, '/');
    if sep < 0 then p else p[sep + 1..]
  }

  /** The basename is the tail of the path after its last '/' (or all of
      it when there is none). */
  lemma BasenameIsTail(p: string)
    ensures var b := Basename(p);
      EndsWith(p, b) && (|b| == |p| || p[|p| - |b| - 1] == '/')
  {
  }

  /** The basename is determined by any '/'-free tail that follows a '/'
      (or is the whole string). */
  lemma BasenameOfTail(p: string, n: nat)
    requires n <= |p|
    requires forall i :: |p| - n <= i < |p| ==> p[i] != '/'
    requires n == |p| || p[|p| - n - 1] == '/'
    ensures Basename(p) == p[|p| - n..]
  {
    RFindUnique(p, '/', |p| - n - 1);
  }

  predicate AllSlashes(s: string) {
    forall i :: 0 <= i < |s| ==> s[i] == '/'
  }

  /** `s.rstrip('/')`. */
  function RStripSlashes(s: string): (r: string)
    ensures |r| <= |s| && r == s[..|r|]
    ensures forall i :: |r| <= i < |s| ==> s[i] == '/'
    ensures r == [] || r[|r| - 1] != '/'
    decreases |s|
  {
    if s != [] && s[|s| - 1] == '/' then RStripSlashes(s[..|s| - 1]) else s
  }

  /** `os.path.dirname(p)`: everything up to the last '/', with trailing
      slashes removed unless it consists of slashes only. */
  function Dirname(p: string): (r: string)
    ensures |r| <= |p| && r == p[..|r|]
    ensures RFind(p, '/') < 0 ==> r == []
    ensures forall i :: |r| <= i < |p| - |Basename(p)| ==> p[i] == '/'
    ensures r == [] || AllSlashes(r) || r[|r| - 1] != '/'
    // only a head that is all slashes (or empty) is kept whole
    ensures |r| <= |p| - |Basename(p)|
    ensures r == [] || AllSlashes(r) ==> |r| == |p| - |Basename(p)|
  {
    var head := p[..RFind(p, '/') + 1];
    assert |p| - |Basename(p)| == |head|;
    assert forall i :: 0 <= i < |head| ==> head[i] == p[i];
    if head != [] && !AllSlashes(head) then
      var r := RStripSlashes(head);
      assert r != [] && !AllSlashes(r) by {
        var i :| 0 <= i < |head| && head[i] != '/';
        assert i < |r| && r[i] == head[i];
      }
      r
    else head
  }

  /** `os.path.join(a, b)`: an absolute `b` replaces `a`; otherwise `b` is
      appended, after a '/' unless `a` is empty or already ends in one. */
  function Join(a: string, b: string): (r: string)
    ensures EndsWith(r, b)
    ensures b != [] && b[0] == '/' ==> r == b
    ensures !(b != [] && b[0] == '/') ==> |a| <= |r| && r[..|a|] == a
    // between `a` and a relative `b`: nothing when `a` is empty or ends in
    // '/', and otherwise exactly one '/'
    ensures !(b != [] && b[0] == '/') && (a == [] || a[|a| - 1] == '/') ==> |r| == |a| + |b|
    ensures !(b != [] && b[0] == '/') && a != [] && a[|a| - 1] != '/' ==>
              |r| == |a| + 1 + |b| && r[|a|] == '/'
  {
    if b != [] && b[0] == '/' then b
    else if a == [] || a[|a| - 1] == '/' then a + b
    else a + "/" + b
  }

  /** Joining a '/'-free name gives a path whose basename is that name. */
  lemma JoinBasename(a: string, b: string)
    requires forall i :: 0 <= i < |b| ==> b[i] != '/'
    ensures Basename(Join(a, b)) == b
  {
    var r := Join(a, b);
    assert r[|r| - |b|..] == b;
    BasenameOfTail(r, |b|);
  }

  /** `dirname` undoes `join` with a '/'-free name, for a directory that
      does not end in '/'. */
  lemma DirnameOfJoin(d: string, name: string)
    requires d == [] || d[|d| - 1] != '/'
    requires forall i :: 0 <= i < |name| ==> name[i] != '/'
    ensures Dirname(Join(d, name)) == d
  {
    var p := Join(d, name);
    JoinBasename(d, name);
    if d == [] {
      assert p == name;
      RFindUnique(p, '/', -1);
    } else {
      assert p == d + "/" + name;
      var r := Dirname(p);
      assert |p| - |Basename(p)| == |d| + 1;
      assert p[|d| - 1] == d[|d| - 1] && p[|d|] == '/';
      assert !AllSlashes(p[..|d| + 1]);
      assert r == p[..|d|] == d;
    }
  }

  /** Cutting the extension off a '/'-free name leaves it '/'-free. */
  lemma RootHasNoSlash(b: string)
    requires forall i :: 0 <= i < |b| ==> b[i] != '/'
    ensures forall i :: 0 <= i < |SplitExt(b).0| ==> SplitExt(b).0[i] != '/'
  {
    var r := SplitExt(b).0;
    assert r == b[..ExtStart(b)];
    forall i | 0 <= i < |r| ensures r[i] != '/' {
      assert r[i] == b[i];
    }
  }

  /** The dictionary `get_path_parts` returns (ogr2bqjson.py:243-248). */
  datatype PathParts = PathParts(extension: string, filenameRoot: string, fullPath: string, pathRoot: string)

  /** `get_path_parts`. */
  function GetPathParts(path: string): (parts: PathParts)
    ensures parts.fullPath == path
    ensures |parts.pathRoot| <= |path| && parts.pathRoot == path[..|parts.pathRoot|]
    ensures parts.extension == path[|parts.pathRoot|..]
    ensures IsExtension(parts.extension)
    ensures var b := Basename(path);
      |parts.filenameRoot| <= |b| && parts.filenameRoot == b[..|parts.filenameRoot|]
    ensures path != [] && path[|path| - 1] == '/' ==> parts.filenameRoot == []
  {
    SplitExtOfBasename(path);
    var (root, ext) := SplitExt(path);
    PathParts(ext, SplitExt(Basename(path)).0, path, root)
  }

  /** The path root and the name root each rejoin with the extension: to
      the path and to its basename. */
  lemma GetPathPartsJoins(path: string)
    ensures var parts := GetPathParts(path);
      && parts.pathRoot + parts.extension == path
      && parts.filenameRoot + parts.extension == Basename(path)
  {
    SplitExtJoins(path);
    SplitExtJoins(Basename(path));
    SplitExtOfBasename(path);
  }

  /** The extension `splitext` finds is always inside the last component:
      splitting the basename finds the same one. */
  lemma SplitExtOfBasename(p: string)
    ensures SplitExt(Basename(p)).1 == SplitExt(p).1
  {
    var k := RFind(p, '/') + 1;
    var b := Basename(p);
    var e := ExtStart(p);
    assert ExtStart(b) == e - k by { ExtStartOfBasename(p); }
    assert b[e - k..] == p[e..] by {
      assert b == p[k..];
      TailOfTail(p, k, e);
    }
    assert SplitExt(b).1 == b[e - k..];
  }

  lemma ExtStartOfBasename(p: string)
    ensures ExtStart(Basename(p)) == ExtStart(p) - (RFind(p, '/') + 1)
  {
    var k := RFind(p, '/') + 1;
    assert ExtStart(Basename(p)) == ExtStart(p[k..]);
    ExtStartOfTail(p, k);
  }

  lemma ExtStartOfTail(p: string, k: nat)
    requires k == RFind(p, '/') + 1
    ensures ExtStart(p[k..]) == ExtStart(p) - k
  {
    var b := p[k..];
    var dot := RFind(p, '.');
    RFindOfTail(p, k, '/');
    RFindOfTail(p, k, '.');
    if dot >= k {
      assert b[..dot - k] == p[k..dot];
    }
  }

  lemma TailOfTail(s: string, k: nat, e: nat)
    requires k <= e <= |s|
    ensures s[k..][e - k..] == s[e..]
  {
  }

  /** Searching a tail of `s` finds the same last occurrence, shifted. */
  lemma RFindOfTail(s: string, k: nat, c: char)
    requires k <= |s|
    ensures RFind(s[k..], c) == if RFind(s, c) >= k then RFind(s, c) - k else -1
  {
    var t := s[k..];
    assert forall i :: 0 <= i < |t| ==> t[i] == s[k + i];
    RFindUnique(t, c, if RFind(s, c) >= k then RFind(s, c) - k else -1);
  }

  /** `e` is a non-empty extension. */
  predicate IsSimpleExtension(e: string) {
    e != [] && IsExtension(e)
  }

  /** A path that ends in a simple extension splits at that extension, or
      (when the component before it is only dots) not at all. */
  lemma SplitExtOfSuffix(a: string, e: string)
    requires IsSimpleExtension(e)
    ensures SplitExt(a + e).1 == e || SplitExt(a + e).1 == []
    ensures (exists j :: RFind(a, '/') < j < |a| && a[j] != '.') ==> SplitExt(a + e) == (a, e)
  {
    var p := a + e;
    SuffixCut(a, e);
    assert p[..|a|] == a && p[|a|..] == e;
    if exists j :: RFind(a, '/') < j < |a| && a[j] != '.' {
      var j :| RFind(a, '/') < j < |a| && a[j] != '.';
      SuffixCutNamed(a, e, j);
    }
  }

  lemma SuffixCut(a: string, e: string)
    requires IsSimpleExtension(e)
    ensures ExtStart(a + e) == |a| || ExtStart(a + e) == |a + e|
  {
    RFindAppend(a, e, '/');
    RFindAppendLast(a, e, '.');
  }

  lemma SuffixCutNamed(a: string, e: string, j: int)
    requires IsSimpleExtension(e)
    requires RFind(a, '/') < j < |a| && a[j] != '.'
    ensures ExtStart(a + e) == |a|
  {
    var p := a + e;
    var sep := RFind(a, '/');
    assert RFind(p, '/') == sep by { RFindAppend(a, e, '/'); }
    assert RFind(p, '.') == |a| by { RFindAppendLast(a, e, '.'); }
    assert p[j] != '.' by { assert p[j] == a[j]; }
    ExtStartAt(p, j);
  }

  /** A '.' that is the last one and follows, within the last component,
      a character other than '.' is where `splitext` cuts. */
  lemma ExtStartAt(p: string, j: int)
    requires RFind(p, '/') < j < RFind(p, '.') && p[j] != '.'
    ensures ExtStart(p) == RFind(p, '.')
  {
  }

  /** Appending characters other than `c` leaves the last `c` where it was. */
  lemma RFindAppend(a: string, e: string, c: char)
    requires forall i :: 0 <= i < |e| ==> e[i] != c
    ensures RFind(a + e, c) == RFind(a, c)
  {
    var p := a + e;
    var r := RFind(a, c);
    forall j | r < j < |p| ensures p[j] != c {
      if j < |a| {
        assert p[j] == a[j];
      } else {
        assert p[j] == e[j - |a|];
      }
    }
    assert r >= 0 ==> p[r] == a[r];
    RFindUnique(p, c, r);
  }

  /** Appending a string that starts with its only `c` puts the last `c`
      at the join. */
  lemma RFindAppendLast(a: string, e: string, c: char)
    requires e != [] && e[0] == c
    requires forall i :: 1 <= i < |e| ==> e[i] != c
    ensures RFind(a + e, c) == |a|
  {
    var p := a + e;
    forall j | |a| < j < |p| ensures p[j] != c {
      assert p[j] == e[j - |a|];
    }
    assert p[|a|] == e[0];
    RFindUnique(p, c, |a|);
  }
}
