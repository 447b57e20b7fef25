/**
 * The change monitor, as a sequential model.  A watcher compares two
 * snapshots of the source tree (path to modification time and text) and
 * reports each difference as one event: a path that appeared is Added, a
 * path whose modification time moved forward is Modified, a path that
 * vanished is Deleted.  Each event carries the resource for its path; for
 * a content file the resource's metadata comes from the file's front
 * matter, and a block that does not parse is captured in the event's
 * exception instead of stopping the watch.
 *
 * The delivery channel is the watcher's `channel` field; receiving takes
 * from its front.  Threads, blocking and timeouts are not modelled.
 */
module Monitor {

  import opened Wrappers
  import opened Paths
  import opened FrontMatter
  import opened Site

  /** What the watcher sees of one file. */
  datatype FileState = FileState(mtime: int, text: string)

  /** The files of the source tree at one moment. */
  type Snapshot = map<Path, FileState>

  datatype ChangeKind = Added | Modified | Deleted

  datatype ChangeEvent = ChangeEvent(kind: ChangeKind, resource: Resource, exception: Option<ParseError>)

  /** The change, if any, of one path between two snapshots. */
  function ChangeOf(p: Path, before: Snapshot, after: Snapshot): (k: Option<ChangeKind>)
    ensures k == Some(Added) <==> p !in before && p in after
    ensures k == Some(Modified) <==> p in before && p in after && before[p].mtime < after[p].mtime
    ensures k == Some(Deleted) <==> p in before && p !in after
  {
    if p !in before then (if p in after then Some(Added) else None)
    else if p !in after then Some(Deleted)
    else if before[p].mtime < after[p].mtime then Some(Modified)
    else None
  }

  /** Every path that changed. */
  function Changed(before: Snapshot, after: Snapshot): set<Path> {
    set p | p in before.Keys + after.Keys && ChangeOf(p, before, after).Some?
  }

  /** The resource for a file with the given text, and the error its front
      matter raised, if any.  Only content files carry front matter. */
  function Resolve(c: Config, p: Path, text: string): (r: (Resource, Option<ParseError>))
    ensures r.0.file == p
  {
    if |p| > 0 && FileKind(c, p) == Content then
      match Load(text)
      case Ok(loaded) => (Resource(p, loaded.0), None)
      case Err(e) => (Resource(p, DefaultMeta), Some(e))
    else (Resource(p, DefaultMeta), None)
  }

  /** A content file whose text is a block of distinct keys followed by any
      body resolves without exception, and each key reads back as the value
      written. */
  lemma ResolveWritten(c: Config, p: Path, vars: seq<(string, string)>, body: string)
    requires |p| > 0 && FileKind(c, p) == Content
    requires Writable(vars) && DistinctKeys(vars)
    ensures Resolve(c, p, BlockText(vars) + body).1.None?
    ensures forall i | 0 <= i < |vars| ::
      Attr(Resolve(c, p, BlockText(vars) + body).0.meta, vars[i].0) == Some(vars[i].1)
  {
    VariablesAreAdded(vars, body);
  }

  /** A content file whose front matter fails to load resolves with default
      metadata, and the failure becomes the exception. */
  lemma ResolveMalformed(c: Config, p: Path, text: string)
    requires |p| > 0 && FileKind(c, p) == Content && Load(text).Err?
    ensures Resolve(c, p, text) == (Resource(p, DefaultMeta), Some(Load(text).error))
  {
  }

  /** A file outside the content folder is never read for front matter: it
      resolves with default metadata and no exception, whatever its text. */
  lemma ResolveOutsideContent(c: Config, p: Path, text: string)
    requires |p| == 0 || FileKind(c, p) != Content
    ensures Resolve(c, p, text) == (Resource(p, DefaultMeta), None)
  {
  }

  /** The event the watcher reports for `p`.  A deleted file keeps the
      resource its last text gave, and since its source is gone no front
      matter is parsed into an exception. */
  function EventAt(c: Config, p: Path, before: Snapshot, after: Snapshot): Option<ChangeEvent> {
    match ChangeOf(p, before, after)
    case None => None
    case Some(k) =>
      if k == Deleted then Some(ChangeEvent(k, Resolve(c, p, before[p].text).0, None))
      else
        var (r, ex) := Resolve(c, p, after[p].text);
        Some(ChangeEvent(k, r, ex))
  }

  /** There is an event exactly where there is a change; it has that
      change's kind and the path's resource, and a deleted file's event
      carries no exception. */
  lemma EventAtChange(c: Config, p: Path, before: Snapshot, after: Snapshot)
    ensures EventAt(c, p, before, after).Some? <==> ChangeOf(p, before, after).Some?
    ensures EventAt(c, p, before, after).Some? ==>
      && EventAt(c, p, before, after).value.kind == ChangeOf(p, before, after).value
      && EventAt(c, p, before, after).value.resource.file == p
    ensures EventAt(c, p, before, after).Some? && EventAt(c, p, before, after).value.kind == Deleted ==>
      EventAt(c, p, before, after).value.exception.None?
  {
  }

  function Files(events: seq<ChangeEvent>): set<Path> {
    set e | e in events :: e.resource.file
  }

  /** `events` reports exactly the changes from `before` to `after`: one
      event per changed path, each the one `EventAt` gives. */
  predicate IsDiff(c: Config, before: Snapshot, after: Snapshot, events: seq<ChangeEvent>) {
    && (forall i | 0 <= i < |events| :: EventAt(c, events[i].resource.file, before, after) == Some(events[i]))
    && (forall i, j | 0 <= i < j < |events| :: events[i].resource.file != events[j].resource.file)
    && Files(events) == Changed(before, after)
  }

  /** Part way through a pass: `events` reports the changed paths that are
      no longer pending. */
  predicate PartialDiff(c: Config, before: Snapshot, after: Snapshot, events: seq<ChangeEvent>, pending: set<Path>) {
    && (forall i | 0 <= i < |events| :: EventAt(c, events[i].resource.file, before, after) == Some(events[i]))
    && (forall i, j | 0 <= i < j < |events| :: events[i].resource.file != events[j].resource.file)
    && Files(events) == Changed(before, after) - pending
  }

  /** One pass of the watch loop: every path of either snapshot is looked
      at once, in no particular order. */
  method DetectChanges(c: Config, before: Snapshot, after: Snapshot) returns (events: seq<ChangeEvent>)
    ensures IsDiff(c, before, after, events)
  {
    var pending := before.Keys + after.Keys;
    events := [];
    while pending != {}
      invariant PartialDiff(c, before, after, events, pending)
      decreases |pending|
    {
      var p :| p in pending;
      DiffStep(c, before, after, events, pending, p);
      var e := EventAt(c, p, before, after);
      if e.Some? {
        events := events + [e.value];
      }
      pending := pending - {p};
    }
  }

  /** Looking at one pending path keeps the partial report exact. */
  lemma DiffStep(c: Config, before: Snapshot, after: Snapshot, events: seq<ChangeEvent>, pending: set<Path>, p: Path)
    requires PartialDiff(c, before, after, events, pending) && p in pending
    ensures var e := EventAt(c, p, before, after);
      PartialDiff(c, before, after, if e.Some? then events + [e.value] else events, pending - {p})
  {
    EventAtChange(c, p, before, after);
    var e := EventAt(c, p, before, after);
    if e.Some? {
      var events' := events + [e.value];
      FilesSnoc(events, e.value);
      assert p in Changed(before, after);
      forall i | 0 <= i < |events'|
        ensures EventAt(c, events'[i].resource.file, before, after) == Some(events'[i])
      {
        if i < |events| {
          assert events'[i] == events[i];
        }
      }
      forall i, j | 0 <= i < j < |events'| ensures events'[i].resource.file != events'[j].resource.file {
        if j < |events| {
          assert events'[i] == events[i] && events'[j] == events[j];
        } else {
          assert events'[i] == events[i];
          assert events[i].resource.file in Files(events);
        }
      }
    } else {
      assert p !in Changed(before, after);
    }
  }

  lemma FilesSnoc(events: seq<ChangeEvent>, e: ChangeEvent)
    ensures Files(events + [e]) == Files(events) + {e.resource.file}
  {
    var s := events + [e];
    assert forall x | x in s :: x in events || x == e;
    assert e in s;
  }

  /** Two reports of the same changes hold the same events, in possibly
      different orders. */
  lemma DiffUnique(c: Config, before: Snapshot, after: Snapshot, e1: seq<ChangeEvent>, e2: seq<ChangeEvent>)
    requires IsDiff(c, before, after, e1) && IsDiff(c, before, after, e2)
    ensures |e1| == |e2|
    ensures forall e | e in e1 :: e in e2
  {
    forall e | e in e1 ensures e in e2 {
      var i :| 0 <= i < |e1| && e1[i] == e;
      assert e.resource.file in Files(e2);
      var f :| f in e2 && f.resource.file == e.resource.file;
      var j :| 0 <= j < |e2| && e2[j] == f;
    }
    DistinctCount(e1);
    DistinctCount(e2);
  }

  /** With distinct paths, there are as many events as changed paths. */
  lemma {:induction false} DistinctCount(events: seq<ChangeEvent>)
    requires forall i, j | 0 <= i < j < |events| :: events[i].resource.file != events[j].resource.file
    ensures |Files(events)| == |events|
  {
    if events != [] {
      var init := events[..|events| - 1];
      var last := events[|events| - 1];
      assert events == init + [last];
      DistinctCount(init);
      assert Files(events) == Files(init) + {last.resource.file};
      forall i | 0 <= i < |init| ensures init[i].resource.file != last.resource.file {
        assert init[i] == events[i];
      }
    }
  }

  /** When exactly one path changed, the report is that path's event alone. */
  lemma SingleChange(c: Config, before: Snapshot, after: Snapshot, p: Path, events: seq<ChangeEvent>)
    requires IsDiff(c, before, after, events) && Changed(before, after) == {p}
    ensures events == [EventAt(c, p, before, after).value]
  {
    DistinctCount(events);
    assert |events| == 1;
    assert events[0] in events;
    assert events[0].resource.file in Files(events);
  }

  /** Snapshots that differ only at `p` changed at most there. */
  lemma ChangedOnlyAt(before: Snapshot, after: Snapshot, p: Path)
    requires forall q | q != p :: (q in before <==> q in after) && (q in before ==> before[q] == after[q])
    requires ChangeOf(p, before, after).Some?
    ensures Changed(before, after) == {p}
  {
  }

  // ----- The watcher -----

  /** A watcher over one site: whether it runs, the snapshot it last took,
      and the events delivered and not yet received. */
  class Watcher {
    const config: Config
    var running: bool
    var known: Snapshot
    var channel: seq<ChangeEvent>

    constructor (c: Config)
      ensures config == c && !running && known == map[] && channel == []
    {
      config := c;
      running := false;
      known := map[];
      channel := [];
    }

    /** `monitor()`: starts watching from the tree as it is now.  Only one
        watch may run at a time; a second start is refused. */
    method Start(now: Snapshot) returns (started: bool)
      modifies this
      ensures started == !old(running)
      ensures running
      ensures started ==> known == now
      ensures !started ==> known == old(known)
      ensures channel == old(channel)
    {
      started := !running;
      if started {
        running := true;
        known := now;
      }
    }

    /** `dont_monitor()`: after it returns no event is delivered. */
    method Stop()
      modifies this
      ensures !running && known == old(known) && channel == old(channel)
    {
      running := false;
    }

    /** One look at the tree: a running watcher delivers the changes since
        its last look; a stopped one delivers nothing. */
    method Poll(now: Snapshot)
      modifies this
      ensures running == old(running)
      ensures !old(running) ==> known == old(known) && channel == old(channel)
      ensures old(running) ==> known == now
      ensures old(running) ==>
        && |old(channel)| <= |channel|
        && channel[..|old(channel)|] == old(channel)
        && IsDiff(config, old(known), now, channel[|old(channel)|..])
    {
      if running {
        var events := DetectChanges(config, known, now);
        channel := channel + events;
        assert channel[|old(channel)|..] == events;
        known := now;
      }
    }

    /** Take the oldest undelivered event; an empty channel gives nothing,
        as a wait that times out does. */
    method Receive() returns (e: Option<ChangeEvent>)
      modifies this
      ensures running == old(running) && known == old(known)
      ensures old(channel) == [] ==> e.None? && channel == []
      ensures old(channel) != [] ==> e == Some(old(channel)[0]) && channel == old(channel)[1..]
    {
      if channel == [] {
        e := None;
      } else {
        e := Some(channel[0]);
        channel := channel[1..];
      }
    }

    /** `clean_queue`: receive until nothing is left. */
    method CleanQueue()
      modifies this
      ensures channel == [] && running == old(running) && known == old(known)
    {
      while channel != []
        invariant running == old(running) && known == old(known)
        decreases |channel|
      {
        var _ := Receive();
      }
    }
  }

  // ----- The monitoring scenarios -----

  /** A layout file or a media file is not a content file. */
  lemma NotContent(c: Config, root: Path, f: Path)
    requires Valid(c) && (root == c.layout || root == c.media) && |f| > 0 && root <= Parent(f)
    ensures FileKind(c, f) != Content
  {
    PrefixesNest(c.content, root, Parent(f));
  }

  /** `test_add`: creating `layout/test.ggg` under a running watcher gives
      one Added event for that path, without exception. */
  method AddScenario(c: Config, before: Snapshot, t: int) returns (got: Option<ChangeEvent>)
    requires Valid(c) && c.layout + ["test.ggg"] !in before
    ensures got == Some(ChangeEvent(Added, Resource(c.layout + ["test.ggg"], DefaultMeta), None))
  {
    var p := c.layout + ["test.ggg"];
    var after := before[p := FileState(t, "test")];
    var w := new Watcher(c);
    var _ := w.Start(before);
    w.Poll(after);
    ChangedOnlyAt(before, after, p);
    SingleChange(c, before, after, p, w.channel);
    NotContent(c, c.layout, p);
    ResolveOutsideContent(c, p, "test");
    got := w.Receive();
  }

  /** `test_modify`: touching `media/css/base.css` gives one Modified event
      for that path, without exception. */
  method ModifyScenario(c: Config, before: Snapshot, t: int) returns (got: Option<ChangeEvent>)
    requires Valid(c)
    requires c.media + ["css", "base.css"] in before && before[c.media + ["css", "base.css"]].mtime < t
    ensures got == Some(ChangeEvent(Modified, Resource(c.media + ["css", "base.css"], DefaultMeta), None))
  {
    var p := c.media + ["css", "base.css"];
    var after := before[p := FileState(t, before[p].text)];
    var w := new Watcher(c);
    var _ := w.Start(before);
    w.Poll(after);
    ChangedOnlyAt(before, after, p);
    SingleChange(c, before, after, p, w.channel);
    assert Parent(p) == c.media + ["css"];
    NotContent(c, c.media, p);
    ResolveOutsideContent(c, p, before[p].text);
    got := w.Receive();
  }

  /** `test_delete`: after the add, deleting `layout/test.ggg` gives one
      Deleted event for that path, without exception. */
  method DeleteScenario(c: Config, before: Snapshot, t: int) returns (added: Option<ChangeEvent>, deleted: Option<ChangeEvent>)
    requires Valid(c) && c.layout + ["test.ggg"] !in before
    ensures added == Some(ChangeEvent(Added, Resource(c.layout + ["test.ggg"], DefaultMeta), None))
    ensures deleted == Some(ChangeEvent(Deleted, Resource(c.layout + ["test.ggg"], DefaultMeta), None))
  {
    var p := c.layout + ["test.ggg"];
    var middle := before[p := FileState(t, "test")];
    var w := new Watcher(c);
    var _ := w.Start(before);
    w.Poll(middle);
    ChangedOnlyAt(before, middle, p);
    SingleChange(c, before, middle, p, w.channel);
    NotContent(c, c.layout, p);
    ResolveOutsideContent(c, p, "test");
    added := w.Receive();
    var after := middle - {p};
    w.Poll(after);
    ChangedOnlyAt(middle, after, p);
    SingleChange(c, middle, after, p, w.channel);
    deleted := w.Receive();
  }

  /** After `dont_monitor()`, a change in the tree delivers nothing. */
  method StopScenario(c: Config, before: Snapshot, after: Snapshot) returns (got: Option<ChangeEvent>)
    ensures got.None?
  {
    var w := new Watcher(c);
    var _ := w.Start(before);
    w.Stop();
    w.Poll(after);
    got := w.Receive();
  }

  /** `test_variables_are_added`: writing a content page whose text is a
      block of distinct keys gives one Added event, without exception,
      whose resource has each key as an attribute equal to its value. */
  method VariablesScenario(c: Config, before: Snapshot, t: int, vars: seq<(string, string)>)
    returns (got: Option<ChangeEvent>)
    requires Valid(c) && c.content + ["test_yaml.html"] !in before
    requires Writable(vars) && DistinctKeys(vars)
    ensures got.Some? && got.value.kind == Added && got.value.exception.None?
    ensures got.value.resource.file == c.content + ["test_yaml.html"]
    ensures forall i | 0 <= i < |vars| :: Attr(got.value.resource.meta, vars[i].0) == Some(vars[i].1)
  {
    var p := c.content + ["test_yaml.html"];
    var content := Serialise(vars);
    var after := before[p := FileState(t, content)];
    var w := new Watcher(c);
    var _ := w.Start(before);
    w.Poll(after);
    ChangedOnlyAt(before, after, p);
    SingleChange(c, before, after, p, w.channel);
    assert content + "" == content;
    assert Parent(p) == c.content;
    ResolveWritten(c, p, vars, "");
    got := w.Receive();
  }

  /** A content page without a block resolves to a resource with every
      recognised key present and empty. */
  lemma PlainPageDefaults(c: Config, p: Path, text: string)
    requires Valid(c) && |p| > 0 && FileKind(c, p) == Content && !("{%hyde" <= text)
    ensures Resolve(c, p, text) == (Resource(p, DefaultMeta), None)
    ensures forall k | k in RecognisedKeys :: Attr(Resolve(c, p, text).0.meta, k) == Some("")
  {
    DefaultsWithoutBlock(text);
  }
}
