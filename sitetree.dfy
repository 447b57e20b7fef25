/**
 * The site tree: one node per folder of the source tree, each holding its
 * role, its child folders (in listing order) and its files.  `Refresh`
 * builds the tree from a listing of the site folder; `FindChild` and
 * `FindResource` look a folder or file up by path, searching from a node
 * downward; `Walk` visits a tree in pre-order, the node first.
 */
module SiteTree {

  import opened Wrappers
  import opened Paths
  import opened FrontMatter
  import opened Site

  /** A folder as the file system lists it: its name, its sub-folders and
      the names of the files directly inside it. */
  datatype FsFolder = FsFolder(name: string, folders: seq<FsFolder>, files: seq<string>)

  /** What a real listing guarantees: every entry has a proper name and no
      two sub-folders share one. */
  predicate WellFormed(d: FsFolder)
    decreases d
  {
    && (forall i | 0 <= i < |d.folders| :: ValidName(d.folders[i].name) && WellFormed(d.folders[i]))
    && (forall i, j | 0 <= i < j < |d.folders| :: d.folders[i].name != d.folders[j].name)
    && (forall i | 0 <= i < |d.files| :: ValidName(d.files[i]))
  }

  datatype SiteNode = SiteNode(folder: Path, kind: Kind, children: seq<SiteNode>, resources: seq<Resource>)

  /** The node for the folder at `p` listed as `d`, and all below it. */
  function Build(c: Config, p: Path, d: FsFolder): SiteNode
    decreases d, 1
  {
    SiteNode(p, Classify(c, p), BuildAll(c, p, d.folders), FileResources(p, d.files))
  }

  function BuildAll(c: Config, p: Path, ds: seq<FsFolder>): (r: seq<SiteNode>)
    ensures |r| == |ds|
    decreases ds, 0
  {
    if ds == [] then [] else [Build(c, p + [ds[0].name], ds[0])] + BuildAll(c, p, ds[1..])
  }

  /** A fresh resource, without metadata yet, for each file of the folder. */
  function FileResources(p: Path, files: seq<string>): (r: seq<Resource>)
    ensures |r| == |files|
    ensures forall i | 0 <= i < |files| :: r[i] == Resource(p + [files[i]], DefaultMeta)
  {
    if files == [] then []
    else [Resource(p + [files[0]], DefaultMeta)] + FileResources(p, files[1..])
  }

  /** `refresh()`: the whole tree, rebuilt from the listing of the site. */
  function Refresh(c: Config, d: FsFolder): SiteNode {
    Build(c, c.site, d)
  }

  /** `walk()`: every node of the tree, in pre-order. */
  function Walk(n: SiteNode): seq<SiteNode>
    decreases n, 1
  {
    [n] + WalkAll(n.children)
  }

  function WalkAll(ns: seq<SiteNode>): seq<SiteNode>
    decreases ns, 0
  {
    if ns == [] then [] else Walk(ns[0]) + WalkAll(ns[1..])
  }

  /** `find_child(folder)`: the first node, in pre-order, whose folder is `p`. */
  function FindChild(n: SiteNode, p: Path): Option<SiteNode>
    decreases n, 1
  {
    if n.folder == p then Some(n) else FindChildIn(n.children, p)
  }

  function FindChildIn(ns: seq<SiteNode>, p: Path): Option<SiteNode>
    decreases ns, 0
  {
    if ns == [] then None
    else
      match FindChild(ns[0], p)
      case Some(m) => Some(m)
      case None => FindChildIn(ns[1..], p)
  }

  function FindFile(rs: seq<Resource>, f: Path): (r: Option<Resource>)
    ensures r.Some? ==> r.value in rs && r.value.file == f
    ensures r.None? ==> forall i | 0 <= i < |rs| :: rs[i].file != f
  {
    if rs == [] then None
    else if rs[0].file == f then Some(rs[0])
    else FindFile(rs[1..], f)
  }

  /** `find_resource(file)`: the node's own files first, then its children. */
  function FindResource(n: SiteNode, f: Path): Option<Resource>
    decreases n, 1
  {
    match FindFile(n.resources, f)
    case Some(r) => Some(r)
    case None => FindResourceIn(n.children, f)
  }

  function FindResourceIn(ns: seq<SiteNode>, f: Path): Option<Resource>
    decreases ns, 0
  {
    if ns == [] then None
    else
      match FindResource(ns[0], f)
      case Some(r) => Some(r)
      case None => FindResourceIn(ns[1..], f)
  }

  // ----- The shape of a built tree -----

  /** Every node has the role of its folder, sits one level below its
      parent, and holds only files directly inside its folder. */
  predicate WellBuilt(c: Config, n: SiteNode)
    decreases n
  {
    && ValidPath(n.folder)
    && n.kind == Classify(c, n.folder)
    && (forall i | 0 <= i < |n.children| ::
          && |n.children[i].folder| == |n.folder| + 1
          && n.folder <= n.children[i].folder
          && WellBuilt(c, n.children[i]))
    && (forall i | 0 <= i < |n.resources| ::
          && |n.resources[i].file| == |n.folder| + 1
          && Parent(n.resources[i].file) == n.folder
          && ValidName(Name(n.resources[i].file)))
  }

  lemma BuildAllAt(c: Config, p: Path, ds: seq<FsFolder>, i: nat)
    requires i < |ds|
    ensures BuildAll(c, p, ds)[i] == Build(c, p + [ds[i].name], ds[i])
    decreases ds
  {
    if i > 0 {
      BuildAllAt(c, p, ds[1..], i - 1);
    }
  }

  lemma {:induction false} BuildWellBuilt(c: Config, p: Path, d: FsFolder)
    requires ValidPath(p) && WellFormed(d)
    ensures WellBuilt(c, Build(c, p, d))
    decreases d
  {
    var n := Build(c, p, d);
    forall i | 0 <= i < |n.children|
      ensures |n.children[i].folder| == |p| + 1 && p <= n.children[i].folder
      ensures WellBuilt(c, n.children[i])
    {
      BuildAllAt(c, p, d.folders, i);
      var q := p + [d.folders[i].name];
      assert ValidPath(q) by {
        forall k | 0 <= k < |q| ensures ValidName(q[k]) {
          if k < |p| {
            assert q[k] == p[k];
          }
        }
      }
      BuildWellBuilt(c, q, d.folders[i]);
    }
    forall i | 0 <= i < |n.resources|
      ensures |n.resources[i].file| == |p| + 1 && Parent(n.resources[i].file) == p
      ensures ValidName(Name(n.resources[i].file))
    {
      assert n.resources[i].file == p + [d.files[i]];
    }
  }

  /** Every node a walk visits is well built and lies under the start. */
  lemma {:induction false} WalkUnder(c: Config, n: SiteNode)
    requires WellBuilt(c, n)
    ensures forall x | x in Walk(n) :: WellBuilt(c, x) && n.folder <= x.folder
    decreases n, 1
  {
    WalkAllUnder(c, n.children, n.folder);
  }

  lemma {:induction false} WalkAllUnder(c: Config, ns: seq<SiteNode>, p: Path)
    requires forall i | 0 <= i < |ns| :: WellBuilt(c, ns[i]) && p <= ns[i].folder
    ensures forall x | x in WalkAll(ns) :: WellBuilt(c, x) && p <= x.folder
    decreases ns, 0
  {
    if ns != [] {
      WalkUnder(c, ns[0]);
      WalkAllUnder(c, ns[1..], p);
    }
  }

  /** A node found by path has that path and is one the walk visits. */
  lemma {:induction false} FindChildSound(n: SiteNode, p: Path)
    ensures FindChild(n, p).Some? ==> FindChild(n, p).value.folder == p
    ensures FindChild(n, p).Some? ==> FindChild(n, p).value in Walk(n)
    decreases n, 1
  {
    if n.folder != p {
      FindChildInSound(n.children, p);
    }
  }

  lemma {:induction false} FindChildInSound(ns: seq<SiteNode>, p: Path)
    ensures FindChildIn(ns, p).Some? ==> FindChildIn(ns, p).value.folder == p
    ensures FindChildIn(ns, p).Some? ==> FindChildIn(ns, p).value in WalkAll(ns)
    decreases ns, 0
  {
    if ns != [] {
      FindChildSound(ns[0], p);
      FindChildInSound(ns[1..], p);
    }
  }

  /** A resource found by path has that path and belongs to a walked node. */
  lemma {:induction false} FindResourceSound(n: SiteNode, f: Path)
    ensures FindResource(n, f).Some? ==> FindResource(n, f).value.file == f
    ensures FindResource(n, f).Some? ==>
      exists x | x in Walk(n) :: FindResource(n, f).value in x.resources
    decreases n, 1
  {
    if FindFile(n.resources, f).None? {
      FindResourceInSound(n.children, f);
    } else {
      assert n in Walk(n);
    }
  }

  lemma {:induction false} FindResourceInSound(ns: seq<SiteNode>, f: Path)
    ensures FindResourceIn(ns, f).Some? ==> FindResourceIn(ns, f).value.file == f
    ensures FindResourceIn(ns, f).Some? ==>
      exists x | x in WalkAll(ns) :: FindResourceIn(ns, f).value in x.resources
    decreases ns, 0
  {
    if ns != [] {
      FindResourceSound(ns[0], f);
      FindResourceInSound(ns[1..], f);
    }
  }

  /** In a well-built tree a lookup only succeeds below the start. */
  lemma FindChildUnder(c: Config, n: SiteNode, p: Path)
    requires WellBuilt(c, n)
    ensures FindChild(n, p).Some? ==> n.folder <= p
  {
    FindChildSound(n, p);
    WalkUnder(c, n);
  }

  lemma FindResourceUnder(c: Config, n: SiteNode, f: Path)
    requires WellBuilt(c, n)
    ensures FindResource(n, f).Some? ==> n.folder < f
  {
    FindResourceSound(n, f);
    WalkUnder(c, n);
    if FindResource(n, f).Some? {
      var r := FindResource(n, f).value;
      var x :| x in Walk(n) && r in x.resources;
      var i :| 0 <= i < |x.resources| && x.resources[i] == r;
      assert x.folder <= f;
    }
  }

  /** Two sibling folders, `p + [a]` and `p + [b]` with `a != b`: nothing
      lies under both. */
  lemma SiblingsApart(p: Path, a: string, b: string, q: Path)
    requires a != b && p + [b] <= q
    ensures !(p + [a] <= q)
  {
    assert q[|p|] == (p + [b])[|p|] == b;
    assert (p + [a])[|p|] == a;
  }

  predicate DistinctNames(ds: seq<FsFolder>) {
    forall i, j | 0 <= i < j < |ds| :: ds[i].name != ds[j].name
  }

  lemma ValidChildPath(p: Path, name: string)
    requires ValidPath(p) && ValidName(name)
    ensures ValidPath(p + [name])
  {
    var q := p + [name];
    forall k | 0 <= k < |q| ensures ValidName(q[k]) {
      if k < |p| {
        assert q[k] == p[k];
      }
    }
  }

  /** A path under a sibling of the first child folder is not in the
      first child's subtree. */
  lemma FirstChildMiss(c: Config, p: Path, d: FsFolder, name: string, q: Path)
    requires ValidPath(p) && ValidName(d.name) && WellFormed(d)
    requires d.name != name && p + [name] <= q
    ensures FindChild(Build(c, p + [d.name], d), q).None?
    ensures FindResource(Build(c, p + [d.name], d), q).None?
  {
    var q0 := p + [d.name];
    ValidChildPath(p, d.name);
    BuildWellBuilt(c, q0, d);
    FindChildUnder(c, Build(c, q0, d), q);
    FindResourceUnder(c, Build(c, q0, d), q);
    SiblingsApart(p, d.name, name, q);
  }

  /** The folders after the first keep their validity and distinct names. */
  lemma TailFolders(ds: seq<FsFolder>)
    requires |ds| > 0 && DistinctNames(ds)
    requires forall k | 0 <= k < |ds| :: ValidName(ds[k].name) && WellFormed(ds[k])
    ensures DistinctNames(ds[1..])
    ensures forall k | 0 <= k < |ds[1..]| :: ValidName(ds[1..][k].name) && WellFormed(ds[1..][k])
    ensures forall k | 0 <= k < |ds[1..]| :: ds[1..][k].name != ds[0].name
  {
    forall a, b | 0 <= a < b < |ds[1..]| ensures ds[1..][a].name != ds[1..][b].name {
      assert ds[1..][a] == ds[a + 1] && ds[1..][b] == ds[b + 1];
    }
    forall k | 0 <= k < |ds[1..]|
      ensures ValidName(ds[1..][k].name) && WellFormed(ds[1..][k]) && ds[1..][k].name != ds[0].name
    {
      assert ds[1..][k] == ds[k + 1];
    }
  }

  /** A path under a folder none of the listed children is named after is
      found in none of their subtrees. */
  lemma {:induction false} FindInBuildAllMiss(c: Config, p: Path, ds: seq<FsFolder>, name: string, q: Path)
    requires ValidPath(p) && p + [name] <= q
    requires forall k | 0 <= k < |ds| :: ValidName(ds[k].name) && WellFormed(ds[k]) && ds[k].name != name
    ensures FindChildIn(BuildAll(c, p, ds), q).None?
    ensures FindResourceIn(BuildAll(c, p, ds), q).None?
    decreases ds
  {
    if ds != [] {
      var ns := BuildAll(c, p, ds);
      assert ns[0] == Build(c, p + [ds[0].name], ds[0]);
      assert ns[1..] == BuildAll(c, p, ds[1..]);
      FirstChildMiss(c, p, ds[0], name, q);
      assert forall k | 0 <= k < |ds[1..]| :: ds[1..][k] == ds[k + 1];
      FindInBuildAllMiss(c, p, ds[1..], name, q);
    }
  }

  /** Searching the children for a path under the i-th child folder asks
      only that child. */
  lemma {:induction false} FindChildInBuildAll(c: Config, p: Path, ds: seq<FsFolder>, i: nat, q: Path)
    requires ValidPath(p) && i < |ds| && DistinctNames(ds)
    requires forall k | 0 <= k < |ds| :: ValidName(ds[k].name) && WellFormed(ds[k])
    requires p + [ds[i].name] <= q
    ensures FindChildIn(BuildAll(c, p, ds), q) == FindChild(Build(c, p + [ds[i].name], ds[i]), q)
    decreases ds
  {
    var ns := BuildAll(c, p, ds);
    assert ns[0] == Build(c, p + [ds[0].name], ds[0]);
    assert ns[1..] == BuildAll(c, p, ds[1..]);
    TailFolders(ds);
    if i == 0 {
      FindInBuildAllMiss(c, p, ds[1..], ds[0].name, q);
    } else {
      FirstChildMiss(c, p, ds[0], ds[i].name, q);
      assert FindChildIn(ns, q) == FindChildIn(ns[1..], q);
      assert ds[1..][i - 1] == ds[i];
      FindChildInBuildAll(c, p, ds[1..], i - 1, q);
    }
  }

  lemma {:induction false} FindResourceInBuildAll(c: Config, p: Path, ds: seq<FsFolder>, i: nat, f: Path)
    requires ValidPath(p) && i < |ds| && DistinctNames(ds)
    requires forall k | 0 <= k < |ds| :: ValidName(ds[k].name) && WellFormed(ds[k])
    requires p + [ds[i].name] <= f
    ensures FindResourceIn(BuildAll(c, p, ds), f) == FindResource(Build(c, p + [ds[i].name], ds[i]), f)
    decreases ds
  {
    var ns := BuildAll(c, p, ds);
    assert ns[0] == Build(c, p + [ds[0].name], ds[0]);
    assert ns[1..] == BuildAll(c, p, ds[1..]);
    TailFolders(ds);
    if i == 0 {
      FindInBuildAllMiss(c, p, ds[1..], ds[0].name, f);
    } else {
      FirstChildMiss(c, p, ds[0], ds[i].name, f);
      assert FindResourceIn(ns, f) == FindResourceIn(ns[1..], f);
      assert ds[1..][i - 1] == ds[i];
      FindResourceInBuildAll(c, p, ds[1..], i - 1, f);
    }
  }

  // ----- Completeness -----

  /** `assert_node_complete(node, folder)`: the node is that folder, and
      looking up each sub-folder from it gives a node complete for that
      sub-folder, and each file is found. */
  ghost predicate NodeComplete(n: SiteNode, p: Path, d: FsFolder)
    decreases d
  {
    && n.folder == p
    && (forall i | 0 <= i < |d.folders| ::
          && FindChild(n, p + [d.folders[i].name]).Some?
          && NodeComplete(FindChild(n, p + [d.folders[i].name]).value, p + [d.folders[i].name], d.folders[i]))
    && (forall i | 0 <= i < |d.files| :: FindResource(n, p + [d.files[i]]).Some?)
  }

  /** Looking up a sub-folder of a built node gives the node built for it. */
  lemma FindChildOfBuilt(c: Config, p: Path, d: FsFolder, i: nat)
    requires ValidPath(p) && WellFormed(d) && i < |d.folders|
    ensures FindChild(Build(c, p, d), p + [d.folders[i].name])
         == Some(Build(c, p + [d.folders[i].name], d.folders[i]))
  {
    var q := p + [d.folders[i].name];
    assert q != p by { assert |q| == |p| + 1; }
    FindChildInBuildAll(c, p, d.folders, i, q);
  }

  /** The resource of a file of a built node is found, and is the one built. */
  lemma FindResourceOfBuilt(c: Config, p: Path, d: FsFolder, i: nat)
    requires i < |d.files|
    ensures FindResource(Build(c, p, d), p + [d.files[i]]) == Some(Resource(p + [d.files[i]], DefaultMeta))
  {
    var rs := FileResources(p, d.files);
    var f := p + [d.files[i]];
    var r := FindFile(rs, f);
    assert rs[i].file == f;
    assert r.Some? && r.value in rs;
    var j :| 0 <= j < |rs| && rs[j] == r.value;
    assert rs[j] == Resource(p + [d.files[j]], DefaultMeta);
    assert rs[j].file == f;
    assert p + [d.files[j]] == f;
    assert d.files[j] == f[|p|] == d.files[i];
  }

  lemma {:induction false} BuildComplete(c: Config, p: Path, d: FsFolder)
    requires ValidPath(p) && WellFormed(d)
    ensures NodeComplete(Build(c, p, d), p, d)
    decreases d
  {
    var n := Build(c, p, d);
    forall i | 0 <= i < |d.folders|
      ensures FindChild(n, p + [d.folders[i].name]).Some?
      ensures NodeComplete(FindChild(n, p + [d.folders[i].name]).value, p + [d.folders[i].name], d.folders[i])
    {
      var q := p + [d.folders[i].name];
      FindChildOfBuilt(c, p, d, i);
      assert ValidPath(q) by {
        forall k | 0 <= k < |q| ensures ValidName(q[k]) {
          if k < |p| {
            assert q[k] == p[k];
          }
        }
      }
      BuildComplete(c, q, d.folders[i]);
    }
    forall i | 0 <= i < |d.files| ensures FindResource(n, p + [d.files[i]]).Some? {
      FindResourceOfBuilt(c, p, d, i);
    }
  }

  /** After `refresh`, the tree is complete for the whole site folder. */
  lemma RefreshComplete(c: Config, d: FsFolder)
    requires Valid(c) && WellFormed(d)
    ensures NodeComplete(Refresh(c, d), c.site, d)
  {
    BuildComplete(c, c.site, d);
  }

  /** Every node of a refreshed tree is what looking its folder up gives,
      and every resource is what looking its file up gives. */
  lemma {:induction false} BuildFindable(c: Config, p: Path, d: FsFolder)
    requires ValidPath(p) && WellFormed(d)
    ensures forall x | x in Walk(Build(c, p, d)) :: FindChild(Build(c, p, d), x.folder) == Some(x)
    ensures forall x, r | x in Walk(Build(c, p, d)) && r in x.resources ::
      FindResource(Build(c, p, d), r.file) == Some(r)
    decreases d
  {
    var n := Build(c, p, d);
    forall i | 0 <= i < |d.folders|
      ensures forall x | x in Walk(n.children[i]) :: FindChild(n, x.folder) == Some(x)
      ensures forall x, r | x in Walk(n.children[i]) && r in x.resources :: FindResource(n, r.file) == Some(r)
    {
      ChildFindable(c, p, d, i);
    }
    forall x | x in Walk(n) ensures FindChild(n, x.folder) == Some(x) {
      if x != n {
        WalkAllMember(n.children, x);
      }
    }
    forall x, r | x in Walk(n) && r in x.resources ensures FindResource(n, r.file) == Some(r) {
      if x == n {
        var j :| 0 <= j < |n.resources| && n.resources[j] == r;
        FindResourceOfBuilt(c, p, d, j);
      } else {
        WalkAllMember(n.children, x);
      }
    }
  }

  /** The nodes and resources of one child's tree are found from the
      parent. */
  lemma {:induction false} ChildFindable(c: Config, p: Path, d: FsFolder, i: nat)
    requires ValidPath(p) && WellFormed(d) && i < |d.folders|
    ensures forall x | x in Walk(Build(c, p, d).children[i]) :: FindChild(Build(c, p, d), x.folder) == Some(x)
    ensures forall x, r | x in Walk(Build(c, p, d).children[i]) && r in x.resources ::
      FindResource(Build(c, p, d), r.file) == Some(r)
    decreases d, 0
  {
    var n := Build(c, p, d);
    var q := p + [d.folders[i].name];
    BuildAllAt(c, p, d.folders, i);
    var m := n.children[i];
    assert m == Build(c, q, d.folders[i]);
    ValidChildPath(p, d.folders[i].name);
    BuildFindable(c, q, d.folders[i]);
    BuildWellBuilt(c, q, d.folders[i]);
    WalkUnder(c, m);
    forall x | x in Walk(m) ensures FindChild(n, x.folder) == Some(x) {
      assert q <= x.folder;
      assert x.folder != p by { assert |x.folder| >= |q| > |p|; }
      FindChildInBuildAll(c, p, d.folders, i, x.folder);
    }
    forall x, r | x in Walk(m) && r in x.resources ensures FindResource(n, r.file) == Some(r) {
      assert q <= x.folder;
      var j :| 0 <= j < |x.resources| && x.resources[j] == r;
      assert x.folder <= r.file;
      assert FindFile(n.resources, r.file).None? by {
        forall k | 0 <= k < |n.resources| ensures n.resources[k].file != r.file {
          assert |n.resources[k].file| == |p| + 1;
        }
      }
      FindResourceInBuildAll(c, p, d.folders, i, r.file);
    }
  }

  /** A node of a walk over several trees is in the walk of one of them. */
  lemma {:induction false} WalkAllMember(ns: seq<SiteNode>, x: SiteNode)
    requires x in WalkAll(ns)
    ensures exists i | 0 <= i < |ns| :: x in Walk(ns[i])
    decreases ns
  {
    if x !in Walk(ns[0]) {
      WalkAllMember(ns[1..], x);
      var i :| 0 <= i < |ns[1..]| && x in Walk(ns[1..][i]);
      assert ns[1..][i] == ns[i + 1];
    }
  }

  /** In a refreshed tree each folder and file is found at its own node. */
  lemma RefreshFindable(c: Config, d: FsFolder)
    requires Valid(c) && WellFormed(d)
    ensures forall x | x in Walk(Refresh(c, d)) :: FindChild(Refresh(c, d), x.folder) == Some(x)
    ensures forall x, r | x in Walk(Refresh(c, d)) && r in x.resources ::
      FindResource(Refresh(c, d), r.file) == Some(r)
  {
    BuildFindable(c, c.site, d);
  }

  // ----- Roles -----

  /** The folder each role is configured at. */
  function RoleFolder(c: Config, k: Kind): Path
    requires k != Other
  {
    match k
    case Content => c.content
    case Media => c.media
    case Layout => c.layout
  }

  /** `test_type`: looking up the content, media or layout folder gives a
      node for that folder, and every node below it has that role. */
  lemma RoleSubtree(c: Config, d: FsFolder, k: Kind)
    requires Valid(c) && WellFormed(d) && k != Other
    ensures FindChild(Refresh(c, d), RoleFolder(c, k)).Some? ==>
      && FindChild(Refresh(c, d), RoleFolder(c, k)).value.folder == RoleFolder(c, k)
      && forall y | y in Walk(FindChild(Refresh(c, d), RoleFolder(c, k)).value) :: y.kind == k
  {
    var t := Refresh(c, d);
    var rf := RoleFolder(c, k);
    BuildWellBuilt(c, c.site, d);
    FindChildSound(t, rf);
    if FindChild(t, rf).Some? {
      var m := FindChild(t, rf).value;
      WalkUnder(c, t);
      WalkUnder(c, m);
      forall y | y in Walk(m) ensures y.kind == k {
        PrefixesNest(c.content, c.media, y.folder);
        PrefixesNest(c.content, c.layout, y.folder);
        PrefixesNest(c.media, c.layout, y.folder);
      }
    }
  }

  /** When the site folder lists the role's folder, the lookup succeeds. */
  lemma RoleFolderFound(c: Config, d: FsFolder, k: Kind, i: nat)
    requires Valid(c) && WellFormed(d) && k != Other
    requires i < |d.folders| && RoleFolder(c, k) == c.site + [d.folders[i].name]
    ensures FindChild(Refresh(c, d), RoleFolder(c, k)) == Some(Build(c, RoleFolder(c, k), d.folders[i]))
  {
    FindChildOfBuilt(c, c.site, d, i);
  }

  /** `test_attributes`: every node of a refreshed tree lies in the site,
      has the role of its folder, and every resource's source file sits
      directly in the node's folder, with a proper name. */
  lemma RefreshAttributes(c: Config, d: FsFolder)
    requires Valid(c) && WellFormed(d)
    ensures forall x | x in Walk(Refresh(c, d)) ::
      && ValidPath(x.folder) && Under(x.folder, c.site)
      && x.kind == Classify(c, x.folder)
      && forall r | r in x.resources ::
           |SourceFile(r)| > 0 && Parent(SourceFile(r)) == x.folder && ValidName(Name(SourceFile(r)))
  {
    BuildWellBuilt(c, c.site, d);
    WalkUnder(c, Refresh(c, d));
    forall x, r | x in Walk(Refresh(c, d)) && r in x.resources
      ensures |SourceFile(r)| > 0 && Parent(SourceFile(r)) == x.folder && ValidName(Name(SourceFile(r)))
    {
      var j :| 0 <= j < |x.resources| && x.resources[j] == r;
    }
  }
}
