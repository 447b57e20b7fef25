# Hyde site model in Dafny

Hyde is a static site generator. It holds a *site tree*: one node per folder
of the site's source folder. Each node has a role: `content`, `media`,
`layout` or other. Urls and output folders follow from that role. A
*monitor* watches the source folder and reports files that were added,
modified or deleted. A *pipeline* runs configured processors over content
and media files. It writes their output into a temporary staging folder and
never writes the source file.

This project states the rules that the repository's test suite
`tests/test_siteinfo.py` asserts about these three parts. It proves them
about a model of the parts:

- `paths.dfy` (module `Paths`) handles paths as sequences of segments and
  their POSIX spelling. It gives the string operations the tests use:
  Python's `strip`/`lstrip`/`rstrip`, `os.path.join`, `get_fragment`,
  `url.join` and `splitext`. Lemmas tie `strip`, `os.path.join`,
  `get_fragment` and `url.join` to their segment form. `splitext` works on
  a single file name rather than a path. Its own contract characterises it
  (the extension is a dot-led suffix with no further dot), and
  `ExtensionOf` gives the extension of a name built as base, dot,
  extension.
- `site.dfy` (module `Site`) covers how a folder is classified and the
  attributes derived from that: the url, the full url, the target and temp
  folders, and each file's url, full url, target file, temp file and source
  file.
- `sitetree.dfy` (module `SiteTree`) builds the site tree from a folder
  listing (`refresh`). It has `find_child`, `find_resource` and the
  pre-order `walk`. It proves that the tree is complete, that lookups find
  every node and resource, and that roles are inherited.
- `frontmatter.dfy` (module `FrontMatter`) handles the `{%hyde ... %}`
  front-matter block. It writes a block with a loop and reads it back. It
  proves the round trip and the defaults: every recognised key is present
  and empty.
- `monitor.dfy` (module `Monitor`) is the change monitor, modelled as a
  sequential snapshot diff (a loop over paths). It also has a `Watcher`
  class with its delivery channel, `clean_queue`, and the add, modify,
  delete, stop and front-matter scenarios of the tests.
- `pipeline.dfy` (module `Pipeline`) covers selecting a processor chain by
  glob and extension. It runs the chain, staging the result into the temp
  file, and handles monitor events. It proves that the source is never
  written.

The model brings its own `Option` and `Result` types (`wrappers.dfy`).

Decisions the tests leave open:

- **Media fragments.** Content fragments are taken relative to the content
  folder. Media fragments are taken relative to the *site* folder, as the
  test code does at `tests/test_siteinfo.py:85` and `:131`. So a media url
  starts with `/` and the media folder's path under the site folder
  (`/media` in the usual layout). Lines 85 and 131 take the media fragment
  with the site folder (`self.site.folder`) as base, and lines 87-89
  compare its normalised form with `node.url`. The model follows those
  lines.
- **What a glob is matched against.** A rule's glob is matched against the
  url of the file's folder without its leading slash. A media rule sees
  `media/css` for `media/css/base.css`, and a rule for a file directly in
  the content folder sees the empty string. The tests only use the glob
  `*`, which matches every subject, so this choice is not observable there.
- **`hydeengine.url.join`** is not shown in the source. The model
  (`Paths.UrlJoin`) takes it to be
  `base.rstrip("/") + "/" + name.lstrip("/")`.
- **`get_fragment`** is not shown in the source. The model
  (`Paths.StrFragment`) takes it to remove the base folder's path as a
  string prefix.
- **Paths in the tree.** Folders are compared as segment paths. The
  rendered strings are proved equal to the tests' string formulas, up to
  the trailing slash that `same_as` ignores.
- **Where attributes come from.** A resource of the tree starts with
  default metadata. For a content file, the monitor attaches the
  front-matter attributes when it resolves the file. So does the pipeline's
  front-matter processor.
- **Rule order.** When several rules could apply, the first in
  configuration order wins.

## Model

| member | source | states |
|---|---|---|
| Site.NodeUrls | tests/test_siteinfo.py:80-92 | A content or media folder's url is the test's normalised fragment. That url is empty, or starts with `/` and does not end with `/`. The full url is the site url followed by it. Every other folder has an empty url and full url. |
| Site.NodeUrl | tests/test_siteinfo.py:88 | Defines `node.url`: the rendered fragment of a content or media folder, empty otherwise. Contract in `Site.NodeUrls`. |
| Site.NodeFullUrl | tests/test_siteinfo.py:89 | Defines `node.full_url`: the site url followed by the node url for a content or media folder, empty otherwise. Contract in `Site.NodeUrls`. |
| Site.TargetFolder | tests/test_siteinfo.py:95-101 | Defines `node.target_folder`: the deploy folder followed by the fragment, for the site root and content or media folders only. Contract in `Site.NodeFolders`. |
| Site.TempFolder | tests/test_siteinfo.py:95-104 | Defines `node.temp_folder`: the temp folder followed by the fragment, for the site root and content or media folders only. Contract in `Site.NodeFolders`. |
| Site.ResourceUrl | tests/test_siteinfo.py:109-111 | Defines `resource.url`: the rendered fragment of a content or media file, empty otherwise. Contract in `Site.ResourceUrls`. |
| Site.ResourceFullUrl | tests/test_siteinfo.py:112-113 | Defines `resource.full_url`: the site url followed by the resource url, empty for other files. Contract in `Site.ResourceUrls`. |
| Site.TargetFile | tests/test_siteinfo.py:114-116 | Defines `resource.target_file`: the deploy folder followed by the file's fragment, for content and media files only. Contract in `Site.ResourceFiles`. |
| Site.TempFile | tests/test_siteinfo.py:117-118 | Defines `resource.temp_file`: the temp folder followed by the file's fragment, for content and media files only. Contract in `Site.ResourceFiles` and `Site.OutputOutsideSite`. |
| Site.TestFragmentRender | tests/test_siteinfo.py:126-132 | The fragment the test builds from strings (`get_fragment` against the content folder, or against the site folder for media, then normalised) equals the rendered segment fragment. |
| Site.TestNodeFragment | tests/test_siteinfo.py:126-132 | Defines the fragment the test computes from strings: `get_fragment` against the role's base (content folder or site folder), then normalised; empty for other folders. Contract in `Site.TestFragmentRender` and `Site.NodeUrls`. |
| Paths.NormaliseShape | tests/test_siteinfo.py:87 | `("/" + f.strip("/")).rstrip("/")` is empty, or starts with `/` and does not end with `/`. Applying it twice changes nothing. |
| Paths.LStrip | tests/test_siteinfo.py:101 | Defines Python's `s.lstrip(c)`: drop every leading `c`. Contract in `Paths.LStripShape` and `Paths.LStripUnchanged`. |
| Paths.RStrip | tests/test_siteinfo.py:87 | Defines Python's `s.rstrip(c)`: drop every trailing `c`. Contract in `Paths.RStripShape` and `Paths.RStripUnchanged`. |
| Paths.Strip | tests/test_siteinfo.py:87 | Defines Python's `s.strip(c)`: `rstrip` after `lstrip`. Contract in `Paths.StripShape` and `Paths.StripUnchanged`. |
| Paths.Normalise | tests/test_siteinfo.py:87 | Defines the url normalisation `("/" + f.strip("/")).rstrip("/")`. Contract in `Paths.NormaliseCases`, `Paths.NormaliseShape` and `Paths.NormaliseRender`. |
| Paths.PyJoin | tests/test_siteinfo.py:99-104 | Defines posixpath `os.path.join(a, b)`: an absolute `b` replaces `a`, otherwise one `/` is put between them unless `a` is empty or already ends with `/`. Contract in `Paths.JoinRender`, `Paths.JoinEmpty` and `Paths.JoinNonEmpty`. |
| Paths.UrlJoin | tests/test_siteinfo.py:110-113 | Defines `url.join(base, name)` as `base.rstrip("/") + "/" + name.lstrip("/")`. Contract in `Paths.UrlJoinPlain` and `Paths.UrlJoinRender`. |
| Paths.StrFragment | tests/test_siteinfo.py:83-85 | Defines `get_fragment(root)`: the path with the root's spelling removed as a prefix, or the path itself when it does not start with it. Contract in `Paths.StrFragmentRender`. |
| Paths.Extension | tests/test_siteinfo.py:292 | `os.path.splitext(name)[1]`, the key a media rule is chosen by: empty, or a suffix of the name that starts with `.`, contains no other `.` and is shorter than the name. |
| Paths.ExtensionOf | tests/test_siteinfo.py:292 | A name made of a base that is not all dots, a dot and a dot-free extension has that dot and extension as its extension (so `test.css` has `.css`). |
| Paths.NormaliseCases | tests/test_siteinfo.py:87 | The normalisation is `""` when the stripped fragment is empty. Otherwise it is that fragment behind one slash. |
| Paths.NormaliseRender | tests/test_siteinfo.py:87 | Normalising a rendered valid path leaves it as it is. |
| Site.NodeFolders | tests/test_siteinfo.py:94-104 | A folder has target and temp folders exactly when it is the site root or a content or media folder. Rendered, they equal `os.path.join(DEPLOY_DIR, fragment.lstrip("/"))` and `os.path.join(TMP_DIR, …)`, without a trailing slash. |
| Site.OutputFolderJoin | tests/test_siteinfo.py:99-104 | An output folder, rendered, is the `os.path.join` of its base with the fragment stripped of its leading slash. |
| Paths.JoinRender | tests/test_siteinfo.py:99-104 | `os.path.join` of a rendered folder and a rendered fragment without its leading slash renders the concatenated path, up to a trailing slash. |
| Site.ResourceUrls | tests/test_siteinfo.py:106-113 | A content or media file's url is `url.join(node.url, name)`, and its full url is `url.join(node.full_url, name)`. Any other file has empty urls. |
| Paths.UrlJoinRender | tests/test_siteinfo.py:110-111 | `url.join` of a rendered folder and a name renders the child path. |
| Site.ResourceFiles | tests/test_siteinfo.py:114-121 | A content or media file's target file is the node's target folder with the file name appended, and its temp file likewise with the temp folder. Other files have neither. |
| Site.SourceFile | tests/test_siteinfo.py:123-124 | Defines `resource.source_file` as the resource's own file. Contract in `SiteTree.RefreshAttributes`: its parent is the node's folder and its name the file name. |
| Site.OutputOutsideSite | tests/test_siteinfo.py:279-287 | A served file's temp file and target file lie outside the site folder, so neither can be a source file. |
| Site.Fragment | tests/test_siteinfo.py:126-132 | A served folder is its role's base followed by its fragment. Other folders have an empty fragment. |
| Site.Classify | tests/test_siteinfo.py:63-72 | A folder is content exactly when it is under the content folder. It is media exactly when it is under media and not under content. It is layout exactly when it is under layout and under neither of the others. |
| SiteTree.RefreshAttributes | tests/test_siteinfo.py:74-78 | Every node visited by a walk of the refreshed tree has a valid folder inside the site and the role of that folder. For each resource, the source file's parent is the node's folder and its name is a valid file name (`tests/test_siteinfo.py:123-124`). |
| SiteTree.RefreshComplete | tests/test_siteinfo.py:45-61 | `assert_node_complete` holds for the refreshed tree and the site folder. The root node is for the site folder. Looking up each sub-folder gives a node that is complete for that sub-folder, recursively. Looking up each file finds a resource. |
| SiteTree.NodeComplete | tests/test_siteinfo.py:45-57 | Defines `assert_node_complete(node, folder)`: the node is for the folder, each sub-folder is found from the node and is complete in turn, and each file is found. Contract in `SiteTree.BuildComplete` and `SiteTree.RefreshComplete`. |
| SiteTree.BuildComplete | tests/test_siteinfo.py:45-57 | The same completeness holds for a tree built from any well-formed folder listing at any valid path. |
| SiteTree.FindChildOfBuilt | tests/test_siteinfo.py:50-52 | Looking up a listed sub-folder from its parent's node gives exactly the node built for that sub-folder. |
| SiteTree.FindResourceOfBuilt | tests/test_siteinfo.py:54-55 | Looking up a listed file from its folder's node gives exactly that file's resource. |
| SiteTree.FindChildInBuildAll | tests/test_siteinfo.py:50 | Looking a path up among sibling trees asks only the sibling whose folder contains it. |
| SiteTree.RefreshFindable | tests/test_siteinfo.py:68-78 | Every node a walk of the refreshed tree visits is what looking up its folder gives. Every resource of such a node is what looking up its file gives. |
| SiteTree.FindChildSound | tests/test_siteinfo.py:65-67 | A node that `find_child` returns has the folder that was asked for and is visited by the walk. |
| SiteTree.FindResourceSound | tests/test_siteinfo.py:55 | A resource that `find_resource` returns has the path that was asked for and belongs to a node of the walk. |
| SiteTree.Refresh | tests/test_siteinfo.py:42-43 | Defines `refresh()`: the tree built from the listing of the site folder. Contracts in `SiteTree.RefreshComplete`, `SiteTree.RefreshFindable` and `SiteTree.RefreshAttributes`. |
| SiteTree.FindChild | tests/test_siteinfo.py:50 | Defines `find_child`: the first node in pre-order whose folder is the one asked for. Contracts in `SiteTree.FindChildSound`, `SiteTree.FindChildOfBuilt` and `SiteTree.RefreshFindable`. |
| SiteTree.FindResource | tests/test_siteinfo.py:55 | Defines `find_resource`: the node's own resource for that file if it has one, otherwise the first found in its children in order. Contracts in `SiteTree.FindResourceSound`, `SiteTree.FindResourceOfBuilt` and `SiteTree.RefreshFindable`. |
| SiteTree.Walk | tests/test_siteinfo.py:68 | Defines `walk()`: the node followed by the walks of its children, in order. Contracts in `SiteTree.RefreshFindable`, `SiteTree.RoleSubtree` and `SiteTree.RefreshAttributes`. |
| SiteTree.RoleSubtree | tests/test_siteinfo.py:63-72 | When looking up the content, media or layout folder gives a node, that node is for that folder, and every node in its walk has that role. |
| SiteTree.RoleFolderFound | tests/test_siteinfo.py:65-66 | When the site folder lists the role's folder, looking up that folder succeeds with the node built for it. |
| FrontMatter.Serialise | tests/test_siteinfo.py:236-239 | The appending loop produces the opener line, one indented `key: value` line per pair and the closing `%}`. |
| FrontMatter.RoundTrip | tests/test_siteinfo.py:231-245 | Reading back a block written from `key: value` pairs, followed by any body, gives the same pairs and the body. |
| FrontMatter.Load | tests/test_siteinfo.py:250-255 | Defines the metadata a `Page` gets from its text: the default metadata with the block's pairs assigned, and the body; a block that does not parse is an error. Contracts in `FrontMatter.VariablesAreAdded` and `FrontMatter.DefaultsWithoutBlock`. |
| FrontMatter.Parse | tests/test_siteinfo.py:231-245 | Defines reading a `{%hyde` block: a text without one has no pairs and is all body; a block that is not opened or closed properly, or has a bad line, is an error. Contract in `FrontMatter.RoundTrip` and `Pipeline.BadBlockFails`. |
| FrontMatter.VariablesAreAdded | tests/test_siteinfo.py:224-226 | Loading a page written with a block of distinct keys succeeds, keeps the body, and gives each key as an attribute equal to the value written. |
| FrontMatter.DefaultsWithoutBlock | tests/test_siteinfo.py:250-255 | A page without a block loads with the default metadata and its whole text as body. Every recognised key (`title`, `created`, `updated`) is present and empty, and no other key is present. |
| FrontMatter.ApplyAttrsReadBack | tests/test_siteinfo.py:224-226 | Assigning pairs with distinct keys makes each key read back as its value. |
| FrontMatter.ApplyAttrsOther | tests/test_siteinfo.py:224-226 | Assigning pairs leaves every key they do not mention unchanged. |
| FrontMatter.SetAttr | tests/test_siteinfo.py:225-226 | After setting an attribute it reads back as the value set. Every other attribute reads as before. |
| FrontMatter.Attr | tests/test_siteinfo.py:225-226 | Defines `hasattr`/`getattr` on a resource: the recognised keys are always present, other keys only once set. Contract in `FrontMatter.SetAttr`, `FrontMatter.ApplyAttrsReadBack` and `FrontMatter.DefaultsWithoutBlock`. |
| FrontMatter.ApplyAttrs | tests/test_siteinfo.py:224-226 | Defines assigning pairs in order, a later pair for the same key winning. Contract in `FrontMatter.ApplyAttrsReadBack` and `FrontMatter.ApplyAttrsOther`. |
| Monitor.ChangeOf | tests/test_siteinfo.py:160-209 | A path new in the later snapshot is Added. A path in both snapshots with a later modification time is Modified. A path that vanished is Deleted. |
| Monitor.EventAt | tests/test_siteinfo.py:160-168 | Defines the event the watcher queues for a path: its change, its resource and its exception. Contract in `Monitor.EventAtChange`, with the resource described by the `Monitor.Resolve*` lemmas. |
| Monitor.Resolve | tests/test_siteinfo.py:213-217 | A changed file's resource has that file's path. |
| Monitor.ResolveWritten | tests/test_siteinfo.py:213-226 | A content file whose text is a block of distinct keys followed by any body resolves with no exception. Each written key reads back as the value written. |
| Monitor.ResolveMalformed | tests/test_siteinfo.py:164-165 | A content file whose front matter fails to load resolves with default metadata, and the load failure becomes the exception. This is the model's own error rule; it complements the checks that a well-formed change carries no exception (also lines 218 and 266). |
| Monitor.ResolveOutsideContent | tests/test_siteinfo.py:178-199 | A file outside the content folder resolves with default metadata and no exception, whatever its text. |
| Monitor.EventAtChange | tests/test_siteinfo.py:160-209 | There is an event for a path exactly when the path changed. The event has that change's kind and a resource for that path. A Deleted event carries no exception. |
| Monitor.DetectChanges | tests/test_siteinfo.py:160-209 | One pass over both snapshots reports every changed path exactly once, each with the event `EventAt` defines, and nothing else. |
| Monitor.DiffUnique | tests/test_siteinfo.py:160-171 | Any two reports of the same changes have the same length and the same events. |
| Monitor.SingleChange | tests/test_siteinfo.py:160-171 | When exactly one path changed, the report is exactly that path's event. |
| Monitor.ChangedOnlyAt | tests/test_siteinfo.py:184-207 | Snapshots that differ only at one path, where a change is seen, changed exactly at that path. |
| Monitor.AddScenario | tests/test_siteinfo.py:188-199 | Creating `layout/test.ggg` under a running watcher delivers one Added event for that path, with default metadata and no exception. |
| Monitor.ModifyScenario | tests/test_siteinfo.py:178-186 | Moving the modification time of `media/css/base.css` forward delivers one Modified event for that path, with no exception. |
| Monitor.DeleteScenario | tests/test_siteinfo.py:201-209 | After the add, deleting `layout/test.ggg` delivers one Deleted event for that path, with no exception. |
| Monitor.StopScenario | tests/test_siteinfo.py:173-176 | After `dont_monitor`, a change in the tree delivers nothing. |
| Monitor.VariablesScenario | tests/test_siteinfo.py:213-247 | Writing a content page with a front-matter block delivers an Added event for that path, with no exception. Its resource has every written key as an attribute equal to its value. |
| Monitor.PlainPageDefaults | tests/test_siteinfo.py:249-255 | A content page without a block resolves with default metadata: every recognised key is present and empty. |
| Monitor.Watcher.Poll | tests/test_siteinfo.py:160-209 | A running watcher appends to its channel a report of exactly the changes since its last snapshot, then keeps the new snapshot. A stopped watcher changes nothing. |
| Monitor.Watcher.Start | tests/test_siteinfo.py:179 | `monitor()` starts the watch from the current tree. A second start while running is refused and changes nothing. |
| Monitor.Watcher.Stop | tests/test_siteinfo.py:173-176 | `dont_monitor()` stops the watch and keeps the channel and snapshot. |
| Monitor.Watcher.Receive | tests/test_siteinfo.py:162-163 | Receiving takes the oldest undelivered event. An empty channel gives nothing. |
| Monitor.Watcher.CleanQueue | tests/test_siteinfo.py:136-142 | `clean_queue` receives until the channel is empty and changes nothing else. |
| Pipeline.FirstMatch | tests/test_siteinfo.py:292-293 | The rule found applies, and no earlier rule does. No rule is found exactly when none applies. |
| Pipeline.Matches | tests/test_siteinfo.py:292 | Defines `fnmatch` for globs of `*` and literal characters: `*` stands for any run of characters. Contract in `Pipeline.StarMatchesAll` and `Pipeline.LiteralMatches`. |
| Pipeline.StarMatchesAll | tests/test_siteinfo.py:292 | The glob `*` matches every folder. |
| Pipeline.LiteralMatches | tests/test_siteinfo.py:292 | A glob without `*` matches exactly itself. |
| Pipeline.TransformChain | tests/test_siteinfo.py:277 | A chain of known transformations succeeds. It applies them in order and leaves the metadata unchanged. |
| Pipeline.Step | tests/test_siteinfo.py:277 | Defines one processor: a transformation renders the buffer and keeps the metadata; the front-matter processor removes a block and assigns its pairs, or fails with a content parse error. Contract in `Pipeline.ExtractWritten` and `Pipeline.SingleChain`. |
| Pipeline.RunChain | tests/test_siteinfo.py:277 | Defines the processors of a chain run in order, an unknown name or a failing processor ending it with its error. Contract in `Pipeline.TransformChain` and `Pipeline.MissingProcessor`. |
| Pipeline.MissingProcessor | tests/test_siteinfo.py:292-296 | A processor name missing from the registry, reached after known transformations, ends the chain with a configuration error naming it. |
| Pipeline.ExtractWritten | tests/test_siteinfo.py:231-245 | The front-matter processor, given a written block and a body, passes on the body and assigns the written pairs. |
| Pipeline.SourceNeverWritten | tests/test_siteinfo.py:279-287 | After processing, the source file's text is what it was, no file other than a served resource's temp file changes, and the resource keeps its path. For a content or media file, the temp file holds the staged output, and processing fails exactly when staging fails. |
| Pipeline.Process | tests/test_siteinfo.py:277 | Defines `generator.process`: stage a content or media resource into its temp file by the first applicable rule's chain. Contracts in `Pipeline.SourceNeverWritten` and `Pipeline.NoRuleCopies`. |
| Pipeline.HandleEvent | tests/test_siteinfo.py:265-269 | Defines what the generator does with a queued event: surface its exception, or process its resource. Contract in `Pipeline.HandleEventSafe`. |
| Pipeline.NoRuleCopies | tests/test_siteinfo.py:279-287 | A served resource that no rule applies to is copied unchanged to its temp file. |
| Pipeline.CssScenario | tests/test_siteinfo.py:274-303 | With the single media rule `*` / `.css` naming a template processor, processing `media/test.css` succeeds. It leaves the source text as it was and puts the rendered text in the temp file. |
| Pipeline.FrontMatterScenario | tests/test_siteinfo.py:224-245 | A content page whose chain is the front-matter processor alone stages its body. The resource ends with each written key set to its value. |
| Pipeline.BadBlockFails | tests/test_siteinfo.py:265-266 | The model's own error rule, complementing the no-exception checks of lines 165, 218 and 266: a malformed block makes processing fail with a content parse error carrying the parse failure. Nothing is written. |
| Pipeline.HandleEventSafe | tests/test_siteinfo.py:260-277 | An event that carries an exception is not processed: it gives a watch error that carries that exception. Any other event is processed. A handled event leaves its source file unchanged. |
| Pipeline.DeletedContentFails | tests/test_siteinfo.py:201-209 | A content file gone from the tree and the disk gives a Deleted event, whatever its last text. Handling that event fails with a file system error for that path, not with a front-matter error. |
| Pipeline.BadBlockSurfaced | tests/test_siteinfo.py:217-218 | The model's own error rule, complementing the no-exception checks of lines 165, 218 and 266: a content file that appears with a malformed block gives an event that the generator surfaces as a watch error. |

## Left out

- Threads, `Queue` blocking and timeouts, `task_done`, and `isAlive` are not modelled. The watcher is sequential. Each `Poll` is one pass of its loop, and the channel is a sequence.
- `clean_queue`'s `except Empty: break` cannot happen in a sequential model and does not appear.
- Real file system effects are not modelled. This covers `Initializer`, `setup_env`, writing, touching, copying and deleting files. Snapshots and the disk are maps from paths to modification times and texts.
- The Django `settings` object with its temporary rebinding of `MEDIA_PROCESSORS` and `SITE_ROOT` is not modelled. The model takes explicit `Config` and `Settings` values instead.
- The template engine and the expected stylesheet `test_dest.css` are not modelled. A template processor is an opaque function on buffers, and the variables it would read are folded into it.
- Date and time values are not modelled, and front-matter values are not parsed as YAML. Values are opaque strings.
- `node.source_folder == node.folder` (`tests/test_siteinfo.py:94`) needs no lemma. A node has one folder, and it serves as the source folder.
- `site.name` (`tests/test_siteinfo.py:60`) is not modelled. It is the last segment of the site folder.
- Site.ResourceUrls: requires that the site url does not end with `/`. When it does, `url.join` would drop the slash, and the equality is stated only for urls without one.
- Pipeline.Matches: supports only `*` and literal characters. The other `fnmatch` forms (`?` and `[...]`) are not modelled.
- Deleted events are handled like the others. Their resource keeps the metadata of the file's last text, and their exception is always empty. Processing the resource of a deleted content file fails with a file system error, because its source is gone (`Pipeline.DeletedContentFails`).
