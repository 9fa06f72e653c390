/** The parts of Python's `posixpath` that the service relies on:
    `str.rfind` on one character, `os.path.basename` and `os.path.splitext`
    (separator '/', extension separator '.'). */
module PosixPath {

  /** Index of the last occurrence of `c` in `s`, or -1 (Python's `s.rfind(c)`). */
  function RFind(s: string, c: char): (r: int)
    ensures -1 <= r < |s|
    ensures r == -1 <==> c !in s
    ensures r >= 0 ==> s[r] == c
    ensures forall j :: r < j < |s| ==> s[j] != c
  {
    if s == [] then -1
    else if s[|s| - 1] == c then |s| - 1
    else RFind(s[..|s| - 1], c)
  }

  /** `os.path.basename`: the final path component, everything after the last '/'. */
  function Basename(p: string): string
  {
    p[RFind(p, '/') + 1..]
  }

  /** The base name is the longest suffix of `p` without '/': a suffix, free
      of '/', and preceded by '/' when it is not all of `p`. */
  lemma BasenameSpec(p: string)
    ensures '/' !in Basename(p)
    ensures |Basename(p)| <= |p| && p[|p| - |Basename(p)|..] == Basename(p)
    ensures |Basename(p)| < |p| ==> p[|p| - |Basename(p)| - 1] == '/'
  {
  }

  /** `os.path.splitext`: the extension starts at the last '.', provided that
      dot lies in the last path component and the component has a character
      other than '.' before it (leading dots are part of the name). */
  function SplitExt(p: string): (r: (string, string))
    ensures r.0 + r.1 == p
  {
    var sep := RFind(p, '/');
    var dot := RFind(p, '.');
    if dot > sep && exists k :: sep + 1 <= k < dot && p[k] != '.' then
      (p[..dot], p[dot..])
    else
      (p, "")
  }

  /** `e` has the shape of an extension: one leading '.', no other '.' and no '/'. */
  ghost predicate ExtensionShaped(e: string)
  {
    e != [] && e[0] == '.' && forall i :: 0 < i < |e| ==> e[i] != '.' && e[i] != '/'
  }

  /** Independent description of "the extension of `p` is `e`": `p` ends in `e`
      and, within the last path component, some character before `e` is not a dot. */
  ghost predicate HasExtension(p: string, e: string)
  {
    && ExtensionShaped(e)
    && |e| <= |p| && p[|p| - |e|..] == e
    && exists k :: 0 <= k < |p| - |e| && p[k] != '.'
                   && forall j :: k <= j < |p| - |e| ==> p[j] != '/'
  }

  /** A non-empty result of SplitExt is exactly an extension in the sense of
      HasExtension, in both directions; so an empty result means `p` has none. */
  lemma SplitExtIsExtension(p: string, e: string)
    ensures e != "" && SplitExt(p).1 == e <==> HasExtension(p, e)
  {
    if e != "" && SplitExt(p).1 == e {
      SplitExtHasExtension(p);
    }
    if HasExtension(p, e) {
      ExtensionIsSplitExt(p, e);
    }
  }

  /** The non-empty extension SplitExt finds is one. */
  lemma SplitExtHasExtension(p: string)
    requires SplitExt(p).1 != ""
    ensures HasExtension(p, SplitExt(p).1)
  {
    var sep := RFind(p, '/');
    var dot := RFind(p, '.');
    var e := SplitExt(p).1;
    assert dot > sep && exists k :: sep + 1 <= k < dot && p[k] != '.';
    var k :| sep + 1 <= k < dot && p[k] != '.';
    assert e == p[dot..] && |p| - |e| == dot;
    assert p[|p| - |e|..] == e;
    assert forall j :: k <= j < |p| - |e| ==> p[j] != '/';
  }

  /** An extension of `p` is what SplitExt finds. */
  lemma ExtensionIsSplitExt(p: string, e: string)
    requires HasExtension(p, e)
    ensures SplitExt(p) == (p[..|p| - |e|], e)
  {
    var d := |p| - |e|;
    var k :| 0 <= k < d && p[k] != '.' && forall j :: k <= j < d ==> p[j] != '/';
    assert p[d] == e[0] == '.';
    forall j | d < j < |p| ensures p[j] != '.' && p[j] != '/' {
      assert p[j] == e[j - d];
    }
    assert RFind(p, '.') == d;
    assert RFind(p, '/') < k;
    assert p[d..] == e;
  }

  /** A non-empty extension always has the shape of one. */
  lemma SplitExtShape(p: string)
    ensures SplitExt(p).1 == "" || ExtensionShaped(SplitExt(p).1)
  {
    var e := SplitExt(p).1;
    if e != "" {
      SplitExtIsExtension(p, e);
    }
  }

  /** Only the last suffix counts. */
  lemma SplitExtLastSuffix()
    ensures SplitExt("a.tar.csv") == ("a.tar", ".csv")
  {
    var p := "a.tar.csv";
    assert p[5] == '.' && p[6] != '.' && p[7] != '.' && p[8] != '.';
    assert RFind(p, '.') == 5 && RFind(p, '/') == -1;
    assert p[0] != '.';
    assert p[..5] == "a.tar" && p[5..] == ".csv";
  }

  /** A name made of leading dots and a suffix has no extension. */
  lemma SplitExtLeadingDots()
    ensures SplitExt(".csv") == (".csv", "")
    ensures SplitExt("..csv") == ("..csv", "")
  {
    assert ".csv"[0] == '.' && "..csv"[1] == '.' && "..csv"[2] != '.';
  }

  /** A dot in a directory name is not an extension. */
  lemma SplitExtDirectoryDot()
    ensures SplitExt("dir.d/data") == ("dir.d/data", "")
  {
    assert "dir.d/data"[3] == '.' && "dir.d/data"[5] == '/';
  }
}
