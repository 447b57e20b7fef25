/**
 * Folder and file paths, and the string operations the site model is
 * written in: Python's `str.strip/lstrip/rstrip`, `os.path.join` with two
 * arguments, `os.path.splitext`, hydeengine's `Folder.get_fragment` and
 * `url.join`.
 *
 * A path is kept as its sequence of segment names; `Render` gives the
 * POSIX spelling ("/a/b", and "" for no segments).  The string-level
 * formulas the site tests use are proved to agree with the segment view.
 */
module Paths {

  import opened Wrappers

  type Path = seq<string>

  /** A segment name: what a directory entry can be called. */
  predicate ValidName(s: string) {
    |s| > 0 && '/' !in s
  }

  predicate ValidPath(p: Path) {
    forall i | 0 <= i < |p| :: ValidName(p[i])
  }

  /** `p` lies at or below `root` (path containment, segment-wise). */
  predicate Under(p: Path, root: Path) {
    root <= p
  }

  function Parent(p: Path): Path
    requires |p| > 0
  {
    p[..|p| - 1]
  }

  function Name(p: Path): string
    requires |p| > 0
  {
    p[|p| - 1]
  }

  /** The POSIX spelling of a path: every segment preceded by a slash. */
  function Render(p: Path): string {
    if p == [] then "" else "/" + p[0] + Render(p[1..])
  }

  lemma {:induction false} RenderAppend(a: Path, b: Path)
    ensures Render(a + b) == Render(a) + Render(b)
  {
    if a != [] {
      assert (a + b)[1..] == a[1..] + b;
      RenderAppend(a[1..], b);
    } else {
      assert a + b == b;
    }
  }

  lemma RenderSnoc(p: Path, name: string)
    ensures Render(p + [name]) == Render(p) + "/" + name
  {
    RenderAppend(p, [name]);
    assert Render([name]) == "/" + name + Render([]);
  }

  /** A rendered valid path is empty exactly when the path is, and otherwise
      starts with one slash and does not end with one. */
  lemma {:induction false} RenderShape(p: Path)
    requires ValidPath(p)
    ensures Render(p) == "" <==> p == []
    ensures p != [] ==> |Render(p)| >= 2 && Render(p)[0] == '/' && Render(p)[1] != '/'
    ensures p != [] ==> Render(p)[|Render(p)| - 1] != '/'
  {
    if p != [] {
      assert ValidName(p[0]);
      assert ValidPath(p[1..]) by {
        forall i | 0 <= i < |p[1..]| ensures ValidName(p[1..][i]) {
          assert p[1..][i] == p[i + 1];
        }
      }
      RenderShape(p[1..]);
      var r := Render(p);
      assert r == "/" + p[0] + Render(p[1..]);
      assert r[1] == p[0][0];
      assert p[0][0] in p[0];
      if p[1..] == [] {
        assert r == "/" + p[0];
        assert r[|r| - 1] == p[0][|p[0]| - 1];
        assert p[0][|p[0]| - 1] in p[0];
      } else {
        assert r[|r| - 1] == Render(p[1..])[|Render(p[1..])| - 1];
      }
    }
  }

  /** Python's `s.lstrip(c)`: drop every leading `c`. */
  function LStrip(s: string, c: char): string {
    if |s| > 0 && s[0] == c then LStrip(s[1..], c) else s
  }

  /** Python's `s.rstrip(c)`: drop every trailing `c`. */
  function RStrip(s: string, c: char): string {
    if |s| > 0 && s[|s| - 1] == c then RStrip(s[..|s| - 1], c) else s
  }

  /** What lstrip leaves: a suffix that does not start with `c`, after a
      run of nothing but `c`. */
  lemma {:induction false} LStripShape(s: string, c: char)
    ensures |LStrip(s, c)| <= |s| && LStrip(s, c) == s[|s| - |LStrip(s, c)|..]
    ensures LStrip(s, c) == [] || LStrip(s, c)[0] != c
    ensures forall i | 0 <= i < |s| - |LStrip(s, c)| :: s[i] == c
    decreases |s|
  {
    if |s| > 0 && s[0] == c {
      var t := s[1..];
      LStripShape(t, c);
      var r := LStrip(t, c);
      assert t[|t| - |r|..] == s[|s| - |r|..];
      forall i | 0 <= i < |s| - |r| ensures s[i] == c {
        if i > 0 {
          assert s[i] == t[i - 1];
        }
      }
    }
  }

  /** What rstrip leaves: a prefix that does not end with `c`, before a
      run of nothing but `c`. */
  lemma {:induction false} RStripShape(s: string, c: char)
    ensures |RStrip(s, c)| <= |s| && RStrip(s, c) == s[..|RStrip(s, c)|]
    ensures RStrip(s, c) == [] || RStrip(s, c)[|RStrip(s, c)| - 1] != c
    ensures forall i | |RStrip(s, c)| <= i < |s| :: s[i] == c
    decreases |s|
  {
    if |s| > 0 && s[|s| - 1] == c {
      var t := s[..|s| - 1];
      RStripShape(t, c);
      var r := RStrip(t, c);
      assert t[..|r|] == s[..|r|];
      forall i | |r| <= i < |s| ensures s[i] == c {
        if i < |s| - 1 {
          assert s[i] == t[i];
        }
      }
    }
  }

  /** Python's `s.strip(c)`. */
  function Strip(s: string, c: char): string {
    RStrip(LStrip(s, c), c)
  }

  /** A string that does not start with `c` is its own lstrip. */
  lemma LStripUnchanged(s: string, c: char)
    requires s == [] || s[0] != c
    ensures LStrip(s, c) == s
  {
  }

  /** A string that does not end with `c` is its own rstrip. */
  lemma RStripUnchanged(s: string, c: char)
    requires s == [] || s[|s| - 1] != c
    ensures RStrip(s, c) == s
  {
  }

  /** A string that neither starts nor ends with `c` is its own strip. */
  lemma StripUnchanged(s: string, c: char)
    requires s == [] || (s[0] != c && s[|s| - 1] != c)
    ensures Strip(s, c) == s
  {
    LStripUnchanged(s, c);
    RStripUnchanged(s, c);
  }

  /** The url normalisation `("/" + f.strip("/")).rstrip("/")`. */
  function Normalise(f: string): string {
    RStrip("/" + Strip(f, '/'), '/')
  }

  /** What strip leaves neither starts nor ends with `c`. */
  lemma StripShape(f: string, c: char)
    ensures Strip(f, c) == [] || (Strip(f, c)[0] != c && Strip(f, c)[|Strip(f, c)| - 1] != c)
  {
    var l := LStrip(f, c);
    LStripShape(f, c);
    RStripShape(l, c);
    var s := Strip(f, c);
    if s != [] {
      assert s[0] == l[0];
    }
  }

  /** Normalisation yields "" when `f` is only slashes, and otherwise the
      stripped fragment behind exactly one slash. */
  lemma NormaliseCases(f: string)
    ensures Strip(f, '/') == "" ==> Normalise(f) == ""
    ensures Strip(f, '/') != "" ==> Normalise(f) == "/" + Strip(f, '/')
  {
    var s := Strip(f, '/');
    StripShape(f, '/');
    if s != "" {
      assert ("/" + s)[|"/" + s| - 1] == s[|s| - 1];
      RStripUnchanged("/" + s, '/');
    } else {
      assert "/" + s == "/";
      assert RStrip("/", '/') == RStrip("", '/');
    }
  }

  /** What the tests assert of every content and media url: empty, or a
      leading slash and no trailing slash; and normalising twice changes
      nothing. */
  lemma NormaliseShape(f: string)
    ensures Normalise(f) == "" || (Normalise(f)[0] == '/' && Normalise(f)[|Normalise(f)| - 1] != '/')
    ensures Normalise(Normalise(f)) == Normalise(f)
  {
    NormaliseCases(f);
    var s := Strip(f, '/');
    StripShape(f, '/');
    if s != "" {
      assert Normalise(f)[|Normalise(f)| - 1] == s[|s| - 1];
      assert LStrip("/" + s, '/') == LStrip(s, '/');
      StripUnchanged(s, '/');
      assert Strip("/" + s, '/') == s;
    } else {
      assert Strip("", '/') == "";
    }
  }

  /** On a rendered valid path the normalisation is the identity. */
  lemma NormaliseRender(p: Path)
    requires ValidPath(p)
    ensures Normalise(Render(p)) == Render(p)
  {
    RenderShape(p);
    var r := Render(p);
    NormaliseCases(r);
    if p == [] {
      assert Strip(r, '/') == "";
    } else {
      var t := r[1..];
      assert t[0] == r[1] && t[|t| - 1] == r[|r| - 1];
      assert LStrip(r, '/') == LStrip(t, '/');
      StripUnchanged(t, '/');
      assert Strip(r, '/') == t;
      assert "/" + t == r;
    }
  }

  /** Python's `os.path.join(a, b)` (posixpath, two arguments). */
  function PyJoin(a: string, b: string): string {
    if |b| > 0 && b[0] == '/' then b
    else if a == "" || a[|a| - 1] == '/' then a + b
    else a + "/" + b
  }

  /** The hydeengine `url.join(base, name)`: one slash between the two. */
  function UrlJoin(base: string, name: string): string {
    RStrip(base, '/') + "/" + LStrip(name, '/')
  }

  /** `Folder.get_fragment(root)`: the path spelled relative to `root`. */
  function StrFragment(path: string, root: string): string {
    if root <= path then path[|root|..] else path
  }

  lemma StrFragmentRender(root: Path, rest: Path)
    ensures StrFragment(Render(root + rest), Render(root)) == Render(rest)
  {
    RenderAppend(root, rest);
  }

  /** `os.path.join(base, frag.lstrip("/"))` names (up to the trailing
      slash that `same_as` ignores) the folder `base + frag`. */
  lemma JoinRender(base: Path, frag: Path)
    requires ValidPath(base) && ValidPath(frag) && base != []
    ensures RStrip(PyJoin(Render(base), LStrip(Render(frag), '/')), '/') == Render(base + frag)
  {
    if frag == [] {
      assert base + frag == base;
      JoinEmpty(base);
    } else {
      JoinNonEmpty(base, frag);
    }
  }

  lemma JoinEmpty(base: Path)
    requires ValidPath(base) && base != []
    ensures RStrip(PyJoin(Render(base), LStrip("", '/')), '/') == Render(base)
  {
    RenderShape(base);
    var b := Render(base);
    assert PyJoin(b, LStrip("", '/')) == b + "/";
    var b' := b + "/";
    assert b'[..|b'| - 1] == b;
    assert RStrip(b', '/') == RStrip(b, '/');
    RStripUnchanged(b, '/');
  }

  lemma JoinNonEmpty(base: Path, frag: Path)
    requires ValidPath(base) && ValidPath(frag) && base != [] && frag != []
    ensures RStrip(PyJoin(Render(base), LStrip(Render(frag), '/')), '/') == Render(base + frag)
  {
    RenderShape(base);
    RenderShape(frag);
    RenderAppend(base, frag);
    JoinSlashLed(Render(base), Render(frag));
  }

  /** Joining a slash-led, not slash-ended name, stripped of its slash, onto
      a folder that does not end in a slash: the two concatenated. */
  lemma JoinSlashLed(b: string, f: string)
    requires |b| > 0 && b[|b| - 1] != '/'
    requires |f| >= 2 && f[0] == '/' && f[1] != '/' && f[|f| - 1] != '/'
    ensures RStrip(PyJoin(b, LStrip(f, '/')), '/') == b + f
  {
    var t := f[1..];
    assert t[0] == f[1];
    assert LStrip(f, '/') == LStrip(t, '/');
    LStripUnchanged(t, '/');
    assert PyJoin(b, t) == b + "/" + t;
    assert f == "/" + t;
    assert b + "/" + t == b + f;
    var bf := b + f;
    assert bf[|bf| - 1] == f[|f| - 1];
    RStripUnchanged(bf, '/');
  }

  /** `url.join` of a base not ending in a slash and a name not starting
      with one puts exactly one slash between them. */
  lemma UrlJoinPlain(u: string, name: string)
    requires u == "" || u[|u| - 1] != '/'
    requires |name| > 0 && name[0] != '/'
    ensures UrlJoin(u, name) == u + "/" + name
  {
    RStripUnchanged(u, '/');
    LStripUnchanged(name, '/');
  }

  /** `url.join` onto a url made of two parts, neither ending in `/`. */
  lemma UrlJoinBehind(www: string, r: string, name: string)
    requires www == "" || www[|www| - 1] != '/'
    requires r == "" || r[|r| - 1] != '/'
    requires ValidName(name)
    ensures UrlJoin(www + r, name) == www + (r + "/" + name)
  {
    var u := www + r;
    if r != [] {
      assert u[|u| - 1] == r[|r| - 1];
    } else {
      assert u == www;
    }
    assert name[0] in name;
    UrlJoinPlain(u, name);
    assert www + (r + "/" + name) == u + "/" + name;
  }

  /** A url joined onto a name: exactly one slash between them. */
  lemma UrlJoinRender(p: Path, name: string)
    requires ValidPath(p) && ValidName(name)
    ensures UrlJoin(Render(p), name) == Render(p + [name])
  {
    RenderShape(p);
    RenderSnoc(p, name);
    assert name[0] in name;
    if p != [] {
      RStripUnchanged(Render(p), '/');
    }
    LStripUnchanged(name, '/');
  }

  /** Python's `os.path.splitext(name)[1]`: from the last dot, unless every
      character before that dot is a dot too. */
  function Extension(name: string): (ext: string)
    ensures ext == "" || (ext[0] == '.' && |ext| < |name| && ext == name[|name| - |ext|..])
    ensures ext != "" ==> '.' !in ext[1..]
  {
    match LastDot(name)
    case None => ""
    case Some(i) => if exists j | 0 <= j < i :: name[j] != '.' then name[i..] else ""
  }

  /** Index of the last '.' in `s`. */
  function LastDot(s: string): (r: Option<nat>)
    ensures r.Some? ==> r.value < |s| && s[r.value] == '.' && '.' !in s[r.value + 1..]
    ensures r.None? ==> '.' !in s
  {
    if s == [] then None
    else if s[|s| - 1] == '.' then Some(|s| - 1)
    else
      var r := LastDot(s[..|s| - 1]);
      assert s == s[..|s| - 1] + [s[|s| - 1]];
      r
  }

  /** The last dot of `x + "." + e` is the one after `x` when `e` holds none. */
  lemma {:induction false} LastDotAfter(x: string, e: string)
    requires '.' !in e
    ensures LastDot(x + "." + e) == Some(|x|)
  {
    var s := x + "." + e;
    if e != [] {
      var e' := e[..|e| - 1];
      assert e[|e| - 1] in e;
      assert s[|s| - 1] == e[|e| - 1];
      assert s[..|s| - 1] == x + "." + e';
      assert '.' !in e' by {
        forall k | 0 <= k < |e'| ensures e'[k] != '.' {
          assert e'[k] == e[k];
          assert e[k] in e;
        }
      }
      LastDotAfter(x, e');
    }
  }

  /** The extension of `base + "." + e` is `"." + e` when `e` holds no dot
      and `base` is not all dots. */
  lemma ExtensionOf(base: string, e: string)
    requires '.' !in e
    requires exists j | 0 <= j < |base| :: base[j] != '.'
    ensures Extension(base + "." + e) == "." + e
  {
    var s := base + "." + e;
    LastDotAfter(base, e);
    var j :| 0 <= j < |base| && base[j] != '.';
    assert s[j] == base[j];
    assert s[|base|..] == "." + e;
  }
}
