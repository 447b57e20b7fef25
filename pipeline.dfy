/**
 * The processing pipeline.  A content or media resource is matched against
 * its role's rules (a path glob and a file extension, first match wins) to
 * find a chain of processor names; each processor turns the current
 * buffer into a new one and may set metadata on the resource.  The final
 * buffer is written to the resource's temp file; a resource no rule
 * matches is copied there unchanged.  The source file is only ever read.
 *
 * The file system is a map from path to text.  A processor that renders a
 * template is an opaque function on buffers.
 */
module Pipeline {

  import opened Wrappers
  import opened Paths
  import opened FrontMatter
  import opened Site
  import opened Monitor

  /** The two processor shapes: the front-matter extractor, and a
      transformation such as a template render. */
  datatype Processor = ExtractFrontMatter | Transform(render: string -> string)

  /** A configured chain: resources whose folder matches `glob` and whose
      extension is `ext` go through the processors named in `chain`. */
  datatype Rule = Rule(glob: string, ext: string, chain: seq<string>)

  /** The processor settings: the rules for content and for media, in
      configuration order, and the processors known by name. */
  datatype Settings = Settings(contentRules: seq<Rule>, mediaRules: seq<Rule>, registry: map<string, Processor>)

  datatype ProcessError =
    | ConfigurationError(id: string)
    | ContentParseError(error: ParseError)
    | FilesystemError(path: Path)
    | WatchError(cause: ParseError)

  /** File contents by path. */
  type Disk = map<Path, string>

  // ----- Matching -----

  /** Shell-style matching where `*` stands for any run of characters and
      every other character for itself. */
  function Matches(glob: string, s: string): bool
    decreases |glob| + |s|
  {
    if glob == [] then s == []
    else if glob[0] == '*' then Matches(glob[1..], s) || (s != [] && Matches(glob, s[1..]))
    else s != [] && glob[0] == s[0] && Matches(glob[1..], s[1..])
  }

  /** `*` matches every folder. */
  lemma {:induction false} StarMatchesAll(s: string)
    ensures Matches("*", s)
    decreases |s|
  {
    if s != [] {
      StarMatchesAll(s[1..]);
    }
  }

  /** A glob without `*` matches exactly itself. */
  lemma {:induction false} LiteralMatches(glob: string, s: string)
    requires '*' !in glob
    ensures Matches(glob, s) <==> glob == s
    decreases |glob|
  {
    if glob != [] && s != [] {
      assert glob[0] in glob;
      assert '*' !in glob[1..];
      LiteralMatches(glob[1..], s[1..]);
      if glob[0] == s[0] && glob[1..] == s[1..] {
        assert glob == [glob[0]] + glob[1..] && s == [s[0]] + s[1..];
      }
    } else if glob != [] {
      assert glob[0] in glob;
    }
  }

  /** The folder a media or content file's glob is matched against: its
      folder's url without the leading slash. */
  function GlobSubject(c: Config, f: Path): string
    requires Valid(c) && |f| > 0
  {
    LStrip(NodeUrl(c, Parent(f)), '/')
  }

  predicate Applies(r: Rule, subject: string, ext: string) {
    Matches(r.glob, subject) && r.ext == ext
  }

  /** The first rule, from index `i` on, that applies. */
  function FirstMatch(rules: seq<Rule>, subject: string, ext: string, i: nat): (m: Option<nat>)
    requires i <= |rules|
    ensures m.Some? ==> i <= m.value < |rules| && Applies(rules[m.value], subject, ext)
    ensures m.Some? ==> forall j | i <= j < m.value :: !Applies(rules[j], subject, ext)
    ensures m.None? <==> forall j | i <= j < |rules| :: !Applies(rules[j], subject, ext)
    decreases |rules| - i
  {
    if i == |rules| then None
    else if Applies(rules[i], subject, ext) then Some(i)
    else FirstMatch(rules, subject, ext, i + 1)
  }

  // ----- Running a chain -----

  /** One processor on the current buffer and metadata.  The extractor
      removes a leading block and assigns its pairs; text without a block
      passes through unchanged. */
  function Step(p: Processor, buf: string, meta: Meta): Result<(string, Meta), ProcessError> {
    match p
    case Transform(render) => Ok((render(buf), meta))
    case ExtractFrontMatter =>
      match Parse(buf)
      case Err(e) => Err(ContentParseError(e))
      case Ok(b) => Ok((b.body, ApplyAttrs(meta, b.attrs)))
  }

  /** The processors of a chain in order; an unknown name and a failing
      processor end the chain with their error. */
  function RunChain(registry: map<string, Processor>, chain: seq<string>, buf: string, meta: Meta)
    : Result<(string, Meta), ProcessError>
    decreases |chain|
  {
    if chain == [] then Ok((buf, meta))
    else if chain[0] !in registry then Err(ConfigurationError(chain[0]))
    else
      match Step(registry[chain[0]], buf, meta)
      case Err(e) => Err(e)
      case Ok(next) => RunChain(registry, chain[1..], next.0, next.1)
  }

  /** What the transformations of a chain do to a buffer, in order. */
  function ChainOutput(registry: map<string, Processor>, chain: seq<string>, buf: string): string
    requires forall id | id in chain :: id in registry && registry[id].Transform?
    decreases |chain|
  {
    if chain == [] then buf else ChainOutput(registry, chain[1..], registry[chain[0]].render(buf))
  }

  /** A chain of known transformations succeeds, renders the buffer, and
      leaves the metadata alone. */
  lemma {:induction false} TransformChain(registry: map<string, Processor>, chain: seq<string>, buf: string, meta: Meta)
    requires forall id | id in chain :: id in registry && registry[id].Transform?
    ensures RunChain(registry, chain, buf, meta) == Ok((ChainOutput(registry, chain, buf), meta))
    decreases |chain|
  {
    if chain != [] {
      assert forall id | id in chain[1..] :: id in chain;
      TransformChain(registry, chain[1..], registry[chain[0]].render(buf), meta);
    }
  }

  /** A name missing from the registry, reached after known
      transformations, is a configuration error. */
  lemma {:induction false} MissingProcessor(registry: map<string, Processor>, pre: seq<string>, id: string,
                                            post: seq<string>, buf: string, meta: Meta)
    requires forall x | x in pre :: x in registry && registry[x].Transform?
    requires id !in registry
    ensures RunChain(registry, pre + [id] + post, buf, meta) == Err(ConfigurationError(id))
    decreases |pre|
  {
    var chain := pre + [id] + post;
    if pre == [] {
      assert chain[0] == id;
    } else {
      assert chain[0] == pre[0];
      assert chain[1..] == pre[1..] + [id] + post;
      assert forall x | x in pre[1..] :: x in pre;
      MissingProcessor(registry, pre[1..], id, post, registry[pre[0]].render(buf), meta);
    }
  }

  /** The extractor on a written block gives the body and the pairs. */
  lemma ExtractWritten(vars: seq<(string, string)>, body: string, meta: Meta)
    requires Writable(vars)
    ensures Step(ExtractFrontMatter, BlockText(vars) + body, meta) == Ok((body, ApplyAttrs(meta, vars)))
  {
    RoundTrip(vars, body);
  }

  // ----- Processing one resource -----

  /** The rules for a role. */
  function RulesFor(s: Settings, k: Kind): seq<Rule> {
    if k == Content then s.contentRules else s.mediaRules
  }

  /** The buffer a served resource stages and the metadata it ends with:
      the first applicable chain run on the source text, or the text
      unchanged when no rule applies. */
  function Staged(s: Settings, c: Config, disk: Disk, r: Resource): Result<(string, Meta), ProcessError>
    requires Valid(c) && |r.file| > 0
  {
    if r.file !in disk then Err(FilesystemError(r.file))
    else
      var rules := RulesFor(s, FileKind(c, r.file));
      match FirstMatch(rules, GlobSubject(c, r.file), Extension(Name(r.file)), 0)
      case None => Ok((disk[r.file], r.meta))
      case Some(i) => RunChain(s.registry, rules[i].chain, disk[r.file], r.meta)
  }

  /** `process(resource)`: stage a content or media resource into its temp
      file; layout and other files are left as they are. */
  function Process(s: Settings, c: Config, disk: Disk, r: Resource): Result<(Disk, Resource), ProcessError>
    requires Valid(c) && |r.file| > 0
  {
    if !Served(FileKind(c, r.file)) then Ok((disk, r))
    else
      match Staged(s, c, disk, r)
      case Err(e) => Err(e)
      case Ok(out) => Ok((disk[TempFile(c, r.file).value := out.0], Resource(r.file, out.1)))
  }

  /** A served resource the first rule applies to stages what that rule's
      chain makes of its text. */
  lemma FirstRuleStages(s: Settings, c: Config, disk: Disk, r: Resource)
    requires Valid(c) && |r.file| > 0 && r.file in disk
    requires |RulesFor(s, FileKind(c, r.file))| > 0
    requires Applies(RulesFor(s, FileKind(c, r.file))[0], GlobSubject(c, r.file), Extension(Name(r.file)))
    ensures Staged(s, c, disk, r) == RunChain(s.registry, RulesFor(s, FileKind(c, r.file))[0].chain, disk[r.file], r.meta)
  {
  }

  /** A chain of one known processor is that processor's step. */
  lemma SingleChain(registry: map<string, Processor>, id: string, buf: string, meta: Meta)
    requires id in registry
    ensures RunChain(registry, [id], buf, meta) == Step(registry[id], buf, meta)
  {
    assert [id][1..] == [];
  }

  /** A source file lies in the site. */
  lemma SourceInSite(c: Config, f: Path)
    requires Valid(c) && |f| > 0 && Served(FileKind(c, f))
    ensures Under(f, c.site)
  {
    assert Parent(f) <= f;
  }

  /** Processing never writes the source: after it the source text is what
      it was, the temp file holds the staged output, and no other file
      changes.  A failure changes nothing. */
  lemma SourceNeverWritten(s: Settings, c: Config, disk: Disk, r: Resource)
    requires Valid(c) && |r.file| > 0
    ensures Process(s, c, disk, r).Ok? && r.file in disk ==>
      && r.file in Process(s, c, disk, r).value.0
      && Process(s, c, disk, r).value.0[r.file] == disk[r.file]
    ensures Process(s, c, disk, r).Ok? ==> Process(s, c, disk, r).value.1.file == r.file
    ensures Process(s, c, disk, r).Ok? && Served(FileKind(c, r.file)) ==>
      && TempFile(c, r.file).value in Process(s, c, disk, r).value.0
      && Process(s, c, disk, r).value.0[TempFile(c, r.file).value] == Staged(s, c, disk, r).value.0
    ensures Process(s, c, disk, r).Ok? ==>
      forall q | !(Served(FileKind(c, r.file)) && q == TempFile(c, r.file).value) ::
        && (q in Process(s, c, disk, r).value.0 <==> q in disk)
        && (q in disk ==> Process(s, c, disk, r).value.0[q] == disk[q])
    ensures Served(FileKind(c, r.file)) ==> (Process(s, c, disk, r).Err? <==> Staged(s, c, disk, r).Err?)
  {
    if Served(FileKind(c, r.file)) {
      SourceInSite(c, r.file);
      OutputOutsideSite(c, r.file);
    }
  }

  /** A served resource no rule applies to is copied to its temp file. */
  lemma NoRuleCopies(s: Settings, c: Config, disk: Disk, r: Resource)
    requires Valid(c) && |r.file| > 0 && Served(FileKind(c, r.file)) && r.file in disk
    requires forall j | 0 <= j < |RulesFor(s, FileKind(c, r.file))| ::
      !Applies(RulesFor(s, FileKind(c, r.file))[j], GlobSubject(c, r.file), Extension(Name(r.file)))
    ensures Process(s, c, disk, r) == Ok((disk[TempFile(c, r.file).value := disk[r.file]], r))
  {
  }

  /** The rule `*` / `.css` applies to any file named `test.css`. */
  lemma CssNameApplies(c: Config, f: Path)
    requires Valid(c) && |f| > 0 && Name(f) == "test.css"
    ensures Applies(Rule("*", ".css", ["TemplateProcessor"]), GlobSubject(c, f), Extension(Name(f)))
  {
    assert "test" + "." + "css" == "test.css";
    assert "test"[0] != '.';
    ExtensionOf("test", "css");
    StarMatchesAll(GlobSubject(c, f));
  }

  /** `test_process_css_with_templates`: with the single media rule `*`,
      `.css` naming a template processor, copying a stylesheet into the
      media folder and processing it leaves the source as it was and puts
      the rendered text in the temp file. */
  lemma CssScenario(s: Settings, c: Config, disk: Disk, render: string -> string)
    requires Valid(c) && c.media + ["test.css"] in disk
    requires s.mediaRules == [Rule("*", ".css", ["TemplateProcessor"])]
    requires "TemplateProcessor" in s.registry && s.registry["TemplateProcessor"] == Transform(render)
    ensures var f := c.media + ["test.css"];
      && Process(s, c, disk, Resource(f, DefaultMeta)).Ok?
      && Process(s, c, disk, Resource(f, DefaultMeta)).value.0[f] == disk[f]
      && Process(s, c, disk, Resource(f, DefaultMeta)).value.0[TempFile(c, f).value] == render(disk[f])
  {
    var f := c.media + ["test.css"];
    var r := Resource(f, DefaultMeta);
    assert Parent(f) == c.media;
    NotContent(c, c.media, f);
    CssNameApplies(c, f);
    assert RulesFor(s, FileKind(c, f)) == s.mediaRules;
    FirstRuleStages(s, c, disk, r);
    SingleChain(s.registry, "TemplateProcessor", disk[f], DefaultMeta);
    assert Staged(s, c, disk, r) == Ok((render(disk[f]), DefaultMeta));
    SourceNeverWritten(s, c, disk, r);
  }

  /** A content page whose chain is the extractor alone stages its body
      and ends with each written key set to its value. */
  lemma FrontMatterScenario(s: Settings, c: Config, disk: Disk, f: Path, id: string,
                            vars: seq<(string, string)>, body: string)
    requires Valid(c) && |f| > 0 && FileKind(c, f) == Content
    requires f in disk && disk[f] == BlockText(vars) + body
    requires Writable(vars) && DistinctKeys(vars)
    requires |s.contentRules| > 0 && s.contentRules[0].chain == [id]
    requires Applies(s.contentRules[0], GlobSubject(c, f), Extension(Name(f)))
    requires id in s.registry && s.registry[id] == ExtractFrontMatter
    ensures Process(s, c, disk, Resource(f, DefaultMeta)).Ok?
    ensures Process(s, c, disk, Resource(f, DefaultMeta)).value.0[TempFile(c, f).value] == body
    ensures forall i | 0 <= i < |vars| ::
      Attr(Process(s, c, disk, Resource(f, DefaultMeta)).value.1.meta, vars[i].0) == Some(vars[i].1)
  {
    var r := Resource(f, DefaultMeta);
    FirstRuleStages(s, c, disk, r);
    SingleChain(s.registry, id, disk[f], DefaultMeta);
    ExtractWritten(vars, body, DefaultMeta);
    ApplyAttrsReadBack(DefaultMeta, vars);
    assert Staged(s, c, disk, r) == Ok((body, ApplyAttrs(DefaultMeta, vars)));
    SourceNeverWritten(s, c, disk, r);
  }

  /** A malformed block fails the resource with a parse error and writes
      nothing. */
  lemma BadBlockFails(s: Settings, c: Config, disk: Disk, r: Resource, id: string)
    requires Valid(c) && |r.file| > 0 && FileKind(c, r.file) == Content && r.file in disk
    requires Parse(disk[r.file]).Err?
    requires |s.contentRules| > 0 && s.contentRules[0].chain == [id]
    requires Applies(s.contentRules[0], GlobSubject(c, r.file), Extension(Name(r.file)))
    requires id in s.registry && s.registry[id] == ExtractFrontMatter
    ensures Process(s, c, disk, r) == Err(ContentParseError(Parse(disk[r.file]).error))
  {
    FirstRuleStages(s, c, disk, r);
    SingleChain(s.registry, id, disk[r.file], r.meta);
    assert Staged(s, c, disk, r) == Err(ContentParseError(Parse(disk[r.file]).error));
  }

  // ----- Events -----

  /** What the generator does with an event: surface its exception, or
      process its resource. */
  function HandleEvent(s: Settings, c: Config, disk: Disk, e: ChangeEvent): Result<(Disk, Resource), ProcessError>
    requires Valid(c) && |e.resource.file| > 0
  {
    match e.exception
    case Some(x) => Err(WatchError(x))
    case None => Process(s, c, disk, e.resource)
  }

  /** An event whose front matter failed is surfaced as exactly that
      failure and nothing is written; any handled event leaves its source
      file as it was. */
  lemma HandleEventSafe(s: Settings, c: Config, disk: Disk, e: ChangeEvent)
    requires Valid(c) && |e.resource.file| > 0
    ensures e.exception.Some? ==> HandleEvent(s, c, disk, e) == Err(WatchError(e.exception.value))
    ensures e.exception.None? ==> HandleEvent(s, c, disk, e) == Process(s, c, disk, e.resource)
    ensures HandleEvent(s, c, disk, e).Ok? && e.resource.file in disk ==>
      && e.resource.file in HandleEvent(s, c, disk, e).value.0
      && HandleEvent(s, c, disk, e).value.0[e.resource.file] == disk[e.resource.file]
  {
    SourceNeverWritten(s, c, disk, e.resource);
  }

  /** A content file written with a malformed block and seen by the
      watcher yields an event that the generator surfaces, not processes. */
  lemma BadBlockSurfaced(s: Settings, c: Config, disk: Disk, before: Snapshot, after: Snapshot, p: Path)
    requires Valid(c) && |p| > 0 && FileKind(c, p) == Content
    requires p !in before && p in after && Load(after[p].text).Err?
    ensures EventAt(c, p, before, after).Some?
    ensures HandleEvent(s, c, disk, EventAt(c, p, before, after).value) ==
      Err(WatchError(Load(after[p].text).error))
  {
  }

  /** A content file that vanished, from the disk as from the tree, gives a
      Deleted event whatever its last text; handling it reaches the file
      system and fails there, never on a stale front-matter block. */
  lemma DeletedContentFails(s: Settings, c: Config, disk: Disk, before: Snapshot, after: Snapshot, p: Path)
    requires Valid(c) && |p| > 0 && FileKind(c, p) == Content
    requires p in before && p !in after && p !in disk
    ensures EventAt(c, p, before, after).Some? && EventAt(c, p, before, after).value.kind == Deleted
    ensures HandleEvent(s, c, disk, EventAt(c, p, before, after).value) == Err(FilesystemError(p))
  {
    EventAtChange(c, p, before, after);
  }
}
