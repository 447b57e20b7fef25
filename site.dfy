/**
 * The path classifier and the attributes derived from it: each folder of
 * the site is `content`, `media`, `layout` or `other`, and from that role
 * and its fragment come its url, full url, deploy folder and staging
 * (temp) folder, and the same for the files inside it.
 *
 * Content fragments are taken relative to the content folder; media
 * fragments relative to the site folder itself, so a media url keeps its
 * leading `/media`.
 */
module Site {

  import opened Wrappers
  import opened Paths
  import opened FrontMatter

  datatype Kind = Content | Media | Layout | Other

  /** The settings the site model reads: the source folders, the deploy and
      temp folders, and the base url of the deployed site. */
  datatype Config = Config(
    site: Path,
    content: Path,
    media: Path,
    layout: Path,
    deploy: Path,
    tmp: Path,
    wwwUrl: string)

  /** Neither folder contains the other. */
  predicate Apart(a: Path, b: Path) {
    !(a <= b) && !(b <= a)
  }

  /** The directory convention: content, media and layout are separate
      folders inside the site; deploy and temp lie outside it. */
  predicate Valid(c: Config) {
    && ValidPath(c.site) && ValidPath(c.content) && ValidPath(c.media)
    && ValidPath(c.layout) && ValidPath(c.deploy) && ValidPath(c.tmp)
    && c.site < c.content && c.site < c.media && c.site < c.layout
    && Apart(c.content, c.media) && Apart(c.content, c.layout) && Apart(c.media, c.layout)
    && c.deploy != [] && c.tmp != []
    && Apart(c.deploy, c.site) && Apart(c.tmp, c.site)
  }

  /** The role of a folder, decided by containment alone. */
  function Classify(c: Config, p: Path): (k: Kind)
    ensures k == Content <==> Under(p, c.content)
    ensures k == Media <==> Under(p, c.media) && !Under(p, c.content)
    ensures k == Layout <==> Under(p, c.layout) && !Under(p, c.content) && !Under(p, c.media)
  {
    if Under(p, c.content) then Content
    else if Under(p, c.media) then Media
    else if Under(p, c.layout) then Layout
    else Other
  }

  /** Content and media are the roles that get urls and output. */
  predicate Served(k: Kind) {
    k == Content || k == Media
  }

  /** The folder that fragments of a served role are taken from. */
  function Base(c: Config, k: Kind): Path {
    if k == Content then c.content else c.site
  }

  /** `get_node_fragment`: the folder relative to its role's base, empty for
      layout and other folders. */
  function Fragment(c: Config, p: Path): (f: Path)
    requires Valid(c)
    ensures Served(Classify(c, p)) ==> p == Base(c, Classify(c, p)) + f
    ensures !Served(Classify(c, p)) ==> f == []
  {
    var k := Classify(c, p);
    if Served(k) then
      assert Under(p, Base(c, k)) by {
        if k == Media {
          assert c.site <= c.media;
        }
      }
      p[|Base(c, k)|..]
    else []
  }

  function NodeUrl(c: Config, p: Path): string
    requires Valid(c)
  {
    if Served(Classify(c, p)) then Render(Fragment(c, p)) else ""
  }

  function NodeFullUrl(c: Config, p: Path): string
    requires Valid(c)
  {
    if Served(Classify(c, p)) then c.wwwUrl + NodeUrl(c, p) else ""
  }

  /** The root and every served folder get an output folder: the fragment
      re-rooted under `under`. */
  function OutputFolder(c: Config, under: Path, p: Path): Option<Path>
    requires Valid(c)
  {
    if p == c.site || Served(Classify(c, p)) then Some(under + Fragment(c, p)) else None
  }

  function TargetFolder(c: Config, p: Path): Option<Path>
    requires Valid(c)
  {
    OutputFolder(c, c.deploy, p)
  }

  function TempFolder(c: Config, p: Path): Option<Path>
    requires Valid(c)
  {
    OutputFolder(c, c.tmp, p)
  }

  // ----- Files -----

  /** A file takes the role of the folder it sits in. */
  function FileKind(c: Config, f: Path): Kind
    requires |f| > 0
  {
    Classify(c, Parent(f))
  }

  /** The file relative to its role's base. */
  function FileFragment(c: Config, f: Path): Path
    requires Valid(c) && |f| > 0
    requires Served(FileKind(c, f))
  {
    var k := FileKind(c, f);
    assert Under(f, Base(c, k)) by {
      var _ := Fragment(c, Parent(f));
      assert Parent(f) <= f;
    }
    f[|Base(c, k)|..]
  }

  function ResourceUrl(c: Config, f: Path): string
    requires Valid(c) && |f| > 0
  {
    if Served(FileKind(c, f)) then Render(FileFragment(c, f)) else ""
  }

  function ResourceFullUrl(c: Config, f: Path): string
    requires Valid(c) && |f| > 0
  {
    if Served(FileKind(c, f)) then c.wwwUrl + ResourceUrl(c, f) else ""
  }

  function OutputFile(c: Config, under: Path, f: Path): Option<Path>
    requires Valid(c) && |f| > 0
  {
    if Served(FileKind(c, f)) then Some(under + FileFragment(c, f)) else None
  }

  function TargetFile(c: Config, f: Path): Option<Path>
    requires Valid(c) && |f| > 0
  {
    OutputFile(c, c.deploy, f)
  }

  function TempFile(c: Config, f: Path): Option<Path>
    requires Valid(c) && |f| > 0
  {
    OutputFile(c, c.tmp, f)
  }

  /** One file of the site: where it is and the metadata it carries. */
  datatype Resource = Resource(file: Path, meta: Meta)

  /** Processors read the source from here and never write to it. */
  function SourceFile(r: Resource): Path {
    r.file
  }

  // ----- What the attribute tests assert -----

  /** The fragment the node test computes from strings: `get_fragment`
      against the role's base, then `("/" + f.strip("/")).rstrip("/")`;
      empty for folders that are neither content nor media. */
  function TestNodeFragment(c: Config, p: Path): string
    requires Valid(c)
  {
    var k := Classify(c, p);
    if Served(k) then Normalise(StrFragment(Render(p), Render(Base(c, k)))) else ""
  }

  lemma FragmentValid(c: Config, p: Path)
    requires Valid(c) && ValidPath(p)
    ensures ValidPath(Fragment(c, p))
  {
    var f := Fragment(c, p);
    if Served(Classify(c, p)) {
      var b := Base(c, Classify(c, p));
      forall i | 0 <= i < |f| ensures ValidName(f[i]) {
        assert f[i] == p[|b| + i];
      }
    }
  }

  /** The string fragment of the test is the rendered segment fragment. */
  lemma TestFragmentRender(c: Config, p: Path)
    requires Valid(c) && ValidPath(p)
    ensures TestNodeFragment(c, p) == Render(Fragment(c, p))
  {
    var k := Classify(c, p);
    if Served(k) {
      var f := Fragment(c, p);
      FragmentValid(c, p);
      StrFragmentRender(Base(c, k), f);
      NormaliseRender(f);
    }
  }

  /** The url of every content or media folder is its normalised fragment:
      empty or slash-led, never slash-ended, and the full url is the site
      url followed by it; every other folder has neither. */
  lemma NodeUrls(c: Config, p: Path)
    requires Valid(c) && ValidPath(p)
    ensures Served(Classify(c, p)) ==> NodeUrl(c, p) == TestNodeFragment(c, p)
    ensures Served(Classify(c, p)) ==> NodeFullUrl(c, p) == c.wwwUrl + TestNodeFragment(c, p)
    ensures NodeUrl(c, p) == "" || (NodeUrl(c, p)[0] == '/' && NodeUrl(c, p)[|NodeUrl(c, p)| - 1] != '/')
    ensures !Served(Classify(c, p)) ==> NodeUrl(c, p) == "" && NodeFullUrl(c, p) == ""
  {
    TestFragmentRender(c, p);
    FragmentValid(c, p);
    RenderShape(Fragment(c, p));
  }

  /** An output folder is `os.path.join(under, fragment.lstrip("/"))`, up
      to the trailing slash that `same_as` ignores. */
  lemma OutputFolderJoin(c: Config, under: Path, p: Path)
    requires Valid(c) && ValidPath(p) && ValidPath(under) && under != []
    ensures OutputFolder(c, under, p).Some? ==>
      Render(OutputFolder(c, under, p).value)
        == RStrip(PyJoin(Render(under), LStrip(TestNodeFragment(c, p), '/')), '/')
  {
    TestFragmentRender(c, p);
    FragmentValid(c, p);
    JoinRender(under, Fragment(c, p));
  }

  /** The output folders of the root and of every served folder are the
      deploy and temp folders joined with the fragment; every other folder
      has none. */
  lemma NodeFolders(c: Config, p: Path)
    requires Valid(c) && ValidPath(p)
    ensures (p == c.site || Served(Classify(c, p))) <==> TargetFolder(c, p).Some?
    ensures TargetFolder(c, p).Some? <==> TempFolder(c, p).Some?
    ensures TargetFolder(c, p).Some? ==>
      Render(TargetFolder(c, p).value)
        == RStrip(PyJoin(Render(c.deploy), LStrip(TestNodeFragment(c, p), '/')), '/')
    ensures TempFolder(c, p).Some? ==>
      Render(TempFolder(c, p).value)
        == RStrip(PyJoin(Render(c.tmp), LStrip(TestNodeFragment(c, p), '/')), '/')
  {
    OutputFolderJoin(c, c.deploy, p);
    OutputFolderJoin(c, c.tmp, p);
  }

  /** A served file's fragment is its folder's fragment and its name. */
  lemma FileFragmentIsChild(c: Config, f: Path)
    requires Valid(c) && |f| > 0 && Served(FileKind(c, f))
    ensures FileFragment(c, f) == Fragment(c, Parent(f)) + [Name(f)]
  {
    var b := Base(c, FileKind(c, f));
    var _ := Fragment(c, Parent(f));
    assert f == Parent(f) + [Name(f)];
  }

  lemma ParentValid(f: Path)
    requires ValidPath(f) && |f| > 0
    ensures ValidPath(Parent(f)) && ValidName(Name(f))
  {
    var p := Parent(f);
    forall i | 0 <= i < |p| ensures ValidName(p[i]) {
      assert p[i] == f[i];
    }
  }

  /** The file urls the resource test asserts: the url is the folder's url
      joined with the name, and the full url the folder's full url joined
      with the name (for a site url that does not end in a slash); a file
      outside content and media has neither. */
  lemma ResourceUrls(c: Config, f: Path)
    requires Valid(c) && ValidPath(f) && |f| > 0
    requires c.wwwUrl == "" || c.wwwUrl[|c.wwwUrl| - 1] != '/'
    ensures Served(FileKind(c, f)) ==> ResourceUrl(c, f) == UrlJoin(NodeUrl(c, Parent(f)), Name(f))
    ensures Served(FileKind(c, f)) ==>
      ResourceFullUrl(c, f) == UrlJoin(NodeFullUrl(c, Parent(f)), Name(f))
    ensures !Served(FileKind(c, f)) ==> ResourceUrl(c, f) == "" && ResourceFullUrl(c, f) == ""
  {
    if Served(FileKind(c, f)) {
      var p := Parent(f);
      var fr := Fragment(c, p);
      ParentValid(f);
      FragmentValid(c, p);
      FileFragmentIsChild(c, f);
      UrlJoinRender(fr, Name(f));
      FullUrlJoin(c.wwwUrl, fr, Name(f));
    }
  }

  /** The output files of a content or media file are its name inside the
      folder's output folders; other files have none. */
  lemma ResourceFiles(c: Config, f: Path)
    requires Valid(c) && |f| > 0
    ensures Served(FileKind(c, f)) ==>
      TargetFile(c, f) == Some(TargetFolder(c, Parent(f)).value + [Name(f)])
    ensures Served(FileKind(c, f)) ==>
      TempFile(c, f) == Some(TempFolder(c, Parent(f)).value + [Name(f)])
    ensures !Served(FileKind(c, f)) ==> TargetFile(c, f).None? && TempFile(c, f).None?
  {
    if Served(FileKind(c, f)) {
      FileFragmentIsChild(c, f);
      var fr := Fragment(c, Parent(f));
      assert c.deploy + (fr + [Name(f)]) == c.deploy + fr + [Name(f)];
      assert c.tmp + (fr + [Name(f)]) == c.tmp + fr + [Name(f)];
    }
  }

  /** Joining a name onto the site url plus a folder url. */
  lemma FullUrlJoin(www: string, fr: Path, name: string)
    requires ValidPath(fr) && ValidName(name)
    requires www == "" || www[|www| - 1] != '/'
    ensures UrlJoin(www + Render(fr), name) == www + Render(fr + [name])
  {
    RenderShape(fr);
    UrlJoinBehind(www, Render(fr), name);
    RenderSnoc(fr, name);
  }

  /** Two folders that both contain a path are nested one in the other. */
  lemma PrefixesNest(a: Path, b: Path, p: Path)
    ensures a <= p && b <= p ==> a <= b || b <= a
  {
    if a <= p && b <= p {
      if |a| <= |b| {
        assert b[..|a|] == p[..|a|];
      } else {
        assert a[..|b|] == p[..|b|];
      }
    }
  }

  /** Staged and deployed files lie outside the site, so they are never a
      source file. */
  lemma OutputOutsideSite(c: Config, f: Path)
    requires Valid(c) && |f| > 0 && Served(FileKind(c, f))
    ensures !Under(TempFile(c, f).value, c.site)
    ensures !Under(TargetFile(c, f).value, c.site)
  {
    PrefixesNest(c.tmp, c.site, TempFile(c, f).value);
    PrefixesNest(c.deploy, c.site, TargetFile(c, f).value);
  }
}
