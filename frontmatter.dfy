/**
 * Page metadata and the `{%hyde ... %}` front-matter block that carries it.
 *
 * A content page may begin with
 *
 *     {%hyde
 *         key: value
 *         ...
 *     %}
 *
 * Each `key: value` line becomes an attribute of the page; the text after
 * the closing `%}` is the body handed on to the next processor.  The
 * recognised keys `title`, `created` and `updated` exist on every page and
 * read as "" (falsy) until a block sets them.  Values are kept as opaque
 * strings (dates are not interpreted).
 */
module FrontMatter {

  import opened Wrappers
  import opened Paths

  /** The metadata attached to a resource: the recognised keys as fields,
      every other key by name. */
  datatype Meta = Meta(title: string, created: string, updated: string, extra: map<string, string>)

  /** A page without a block: every recognised key present and empty. */
  const DefaultMeta: Meta := Meta("", "", "", map[])

  const RecognisedKeys: seq<string> := ["title", "created", "updated"]

  /** `getattr(resource, key)`, with None meaning `hasattr` is false. */
  function Attr(m: Meta, key: string): Option<string> {
    if key == "title" then Some(m.title)
    else if key == "created" then Some(m.created)
    else if key == "updated" then Some(m.updated)
    else if key in m.extra then Some(m.extra[key])
    else None
  }

  /** `setattr(resource, key, value)`. */
  function SetAttr(m: Meta, key: string, value: string): (r: Meta)
    ensures Attr(r, key) == Some(value)
    ensures forall k :: k != key ==> Attr(r, k) == Attr(m, k)
  {
    if key == "title" then m.(title := value)
    else if key == "created" then m.(created := value)
    else if key == "updated" then m.(updated := value)
    else m.(extra := m.extra[key := value])
  }

  /** Assign the pairs in order; a later pair for the same key wins. */
  function ApplyAttrs(m: Meta, pairs: seq<(string, string)>): Meta
    decreases |pairs|
  {
    if pairs == [] then m else ApplyAttrs(SetAttr(m, pairs[0].0, pairs[0].1), pairs[1..])
  }

  predicate DistinctKeys(pairs: seq<(string, string)>) {
    forall i, j | 0 <= i < j < |pairs| :: pairs[i].0 != pairs[j].0
  }

  /** Applying pairs leaves keys they do not mention alone. */
  lemma {:induction false} ApplyAttrsOther(m: Meta, pairs: seq<(string, string)>, k: string)
    requires forall i | 0 <= i < |pairs| :: pairs[i].0 != k
    ensures Attr(ApplyAttrs(m, pairs), k) == Attr(m, k)
    decreases |pairs|
  {
    if pairs != [] {
      ApplyAttrsOther(SetAttr(m, pairs[0].0, pairs[0].1), pairs[1..], k);
    }
  }

  /** With distinct keys every pair is read back as given. */
  lemma {:induction false} ApplyAttrsReadBack(m: Meta, pairs: seq<(string, string)>)
    requires DistinctKeys(pairs)
    ensures forall i | 0 <= i < |pairs| :: Attr(ApplyAttrs(m, pairs), pairs[i].0) == Some(pairs[i].1)
    decreases |pairs|
  {
    if pairs != [] {
      var m' := SetAttr(m, pairs[0].0, pairs[0].1);
      var rest := pairs[1..];
      assert DistinctKeys(rest) by {
        forall i, j | 0 <= i < j < |rest| ensures rest[i].0 != rest[j].0 {
          assert rest[i] == pairs[i + 1] && rest[j] == pairs[j + 1];
        }
      }
      ApplyAttrsReadBack(m', rest);
      assert forall i | 0 <= i < |rest| :: rest[i].0 != pairs[0].0 by {
        forall i | 0 <= i < |rest| ensures rest[i].0 != pairs[0].0 {
          assert rest[i] == pairs[i + 1];
        }
      }
      ApplyAttrsOther(m', rest, pairs[0].0);
      forall i | 0 <= i < |pairs|
        ensures Attr(ApplyAttrs(m, pairs), pairs[i].0) == Some(pairs[i].1)
      {
        if i > 0 {
          assert pairs[i] == rest[i - 1];
        }
      }
    }
  }

  // ----- Writing a block -----

  /** One `    key: value` line of a block. */
  function EntryLine(kv: (string, string)): string {
    "    " + kv.0 + ": " + kv.1 + "\n"
  }

  function Entries(vars: seq<(string, string)>): string {
    if vars == [] then "" else EntryLine(vars[0]) + Entries(vars[1..])
  }

  /** The block text for `vars`: opener, one line per pair, closer. */
  function BlockText(vars: seq<(string, string)>): string {
    "{%hyde\n" + Entries(vars) + "%}"
  }

  lemma {:induction false} EntriesSnoc(vars: seq<(string, string)>, kv: (string, string))
    ensures Entries(vars + [kv]) == Entries(vars) + EntryLine(kv)
  {
    if vars == [] {
      assert vars + [kv] == [kv];
      assert Entries([kv]) == EntryLine(kv) + Entries([]);
    } else {
      assert (vars + [kv])[1..] == vars[1..] + [kv];
      EntriesSnoc(vars[1..], kv);
    }
  }

  /** Builds the block one line at a time, as the page is written. */
  method Serialise(vars: seq<(string, string)>) returns (content: string)
    ensures content == BlockText(vars)
  {
    content := "{%hyde\n";
    for i := 0 to |vars|
      invariant content == "{%hyde\n" + Entries(vars[..i])
    {
      EntriesSnoc(vars[..i], vars[i]);
      assert vars[..i + 1] == vars[..i] + [vars[i]];
      content := content + "    " + vars[i].0 + ": " + vars[i].1 + "\n";
    }
    assert vars[..|vars|] == vars;
    content := content + "%}";
  }

  // ----- Reading a block -----

  datatype ParseError = BadOpening | Unterminated | BadLine(line: string)

  /** What the block held, and the text after it. */
  datatype Block = Block(attrs: seq<(string, string)>, body: string)

  /** Index of the first `c` in `s`. */
  function IndexOf(s: string, c: char): (r: Option<nat>)
    ensures r.Some? ==> r.value < |s| && s[r.value] == c && c !in s[..r.value]
    ensures r.None? ==> c !in s
  {
    if s == [] then None
    else if s[0] == c then Some(0)
    else
      match IndexOf(s[1..], c)
      case None => None
      case Some(i) =>
        assert s[..i + 1] == [s[0]] + s[1..][..i];
        Some(i + 1)
  }

  function Trim(s: string): string {
    Strip(s, ' ')
  }

  predicate Blank(line: string) {
    forall i | 0 <= i < |line| :: line[i] == ' '
  }

  /** `key: value`, split at the first colon, both sides trimmed. */
  function ParseEntry(line: string): Option<(string, string)> {
    match IndexOf(line, ':')
    case None => None
    case Some(j) =>
      var key := Trim(line[..j]);
      if key == "" then None else Some((key, Trim(line[j + 1..])))
  }

  /** The lines after the opener, up to and including a line starting `%}`. */
  function ParseLines(s: string): Result<Block, ParseError>
    decreases |s|
  {
    if "%}" <= s then Ok(Block([], s[2..]))
    else
      match IndexOf(s, '\n')
      case None => Err(Unterminated)
      case Some(i) =>
        var line := s[..i];
        if Blank(line) then ParseLines(s[i + 1..])
        else
          match ParseEntry(line)
          case None => Err(BadLine(line))
          case Some(kv) =>
            match ParseLines(s[i + 1..])
            case Err(e) => Err(e)
            case Ok(b) => Ok(Block([kv] + b.attrs, b.body))
  }

  /** A text without a leading `{%hyde` has no block: nothing to assign and
      the whole text is the body. */
  function Parse(text: string): Result<Block, ParseError> {
    if !("{%hyde" <= text) then Ok(Block([], text))
    else if !("{%hyde\n" <= text) then Err(BadOpening)
    else ParseLines(text[7..])
  }

  /** The metadata a page gets from its text, and the body left over. */
  function Load(text: string): Result<(Meta, string), ParseError> {
    match Parse(text)
    case Err(e) => Err(e)
    case Ok(b) => Ok((ApplyAttrs(DefaultMeta, b.attrs), b.body))
  }

  // ----- Round trip -----

  /** Keys and values that a line can carry and give back unchanged. */
  predicate WritableKey(k: string) {
    k != "" && k[0] != ' ' && k[|k| - 1] != ' ' && ':' !in k && '\n' !in k
  }

  predicate WritableValue(v: string) {
    (v == "" || (v[0] != ' ' && v[|v| - 1] != ' ')) && '\n' !in v
  }

  predicate Writable(vars: seq<(string, string)>) {
    forall i | 0 <= i < |vars| :: WritableKey(vars[i].0) && WritableValue(vars[i].1)
  }

  lemma {:induction false} IndexOfAfter(a: string, c: char, b: string)
    requires c !in a
    ensures IndexOf(a + [c] + b, c) == Some(|a|)
  {
    if a != [] {
      assert a[0] in a;
      assert (a + [c] + b)[1..] == a[1..] + [c] + b;
      assert c !in a[1..] by {
        forall k | 0 <= k < |a[1..]| ensures a[1..][k] != c {
          assert a[1..][k] == a[k + 1];
          assert a[k + 1] in a;
        }
      }
      IndexOfAfter(a[1..], c, b);
    }
  }

  lemma {:induction false} LStripPad(pad: string, k: string, c: char)
    requires forall i | 0 <= i < |pad| :: pad[i] == c
    requires k == [] || k[0] != c
    ensures LStrip(pad + k, c) == k
  {
    if pad == [] {
      assert pad + k == k;
      LStripUnchanged(k, c);
    } else {
      assert (pad + k)[1..] == pad[1..] + k;
      LStripPad(pad[1..], k, c);
    }
  }

  lemma TrimPadded(pad: string, x: string)
    requires forall i | 0 <= i < |pad| :: pad[i] == ' '
    requires x == "" || (x[0] != ' ' && x[|x| - 1] != ' ')
    ensures Trim(pad + x) == x
  {
    LStripPad(pad, x, ' ');
    RStripUnchanged(x, ' ');
  }

  lemma ColonAt(k: string, v: string)
    requires ':' !in k
    ensures IndexOf("    " + k + ": " + v, ':') == Some(4 + |k|)
  {
    var pre := "    " + k;
    assert ':' !in pre by {
      forall i | 0 <= i < |pre| ensures pre[i] != ':' {
        if i >= 4 {
          assert pre[i] == k[i - 4];
          assert k[i - 4] in k;
        }
      }
    }
    assert "    " + k + ": " + v == pre + [':'] + (" " + v);
    IndexOfAfter(pre, ':', " " + v);
  }

  /** One written line parses back to its pair. */
  lemma ParseEntryLine(kv: (string, string))
    requires WritableKey(kv.0) && WritableValue(kv.1)
    ensures ParseEntry("    " + kv.0 + ": " + kv.1) == Some(kv)
  {
    var k, v := kv.0, kv.1;
    var pre := "    " + k;
    var post := " " + v;
    var line := pre + [':'] + post;
    assert line == "    " + k + ": " + v;
    ColonAt(k, v);
    assert line[..|pre|] == pre;
    assert line[|pre| + 1..] == post;
    TrimPadded("    ", k);
    TrimPadded(" ", v);
  }

  lemma NoNewline(kv: (string, string))
    requires WritableKey(kv.0) && WritableValue(kv.1)
    ensures '\n' !in "    " + kv.0 + ": " + kv.1
  {
    var line := "    " + kv.0 + ": " + kv.1;
    forall i | 0 <= i < |line| ensures line[i] != '\n' {
      if 4 <= i < 4 + |kv.0| {
        assert line[i] == kv.0[i - 4];
        assert kv.0[i - 4] in kv.0;
      } else if i >= 6 + |kv.0| {
        assert line[i] == kv.1[i - 6 - |kv.0|];
        assert kv.1[i - 6 - |kv.0|] in kv.1;
      }
    }
  }

  /** The first line of a written entry and what follows it. */
  lemma FirstLine(kv: (string, string), rest: string)
    requires WritableKey(kv.0) && WritableValue(kv.1)
    ensures var s := EntryLine(kv) + rest;
      var line := "    " + kv.0 + ": " + kv.1;
      && !("%}" <= s)
      && IndexOf(s, '\n') == Some(|line|)
      && s[..|line|] == line && s[|line| + 1..] == rest
      && !Blank(line)
  {
    var s := EntryLine(kv) + rest;
    var line := "    " + kv.0 + ": " + kv.1;
    assert s == line + ['\n'] + rest;
    assert s[0] == ' ';
    NoNewline(kv);
    IndexOfAfter(line, '\n', rest);
    assert line[4] == kv.0[0];
  }

  /** The lines of a written block parse back to the pairs, in order, with
      whatever follows the closer as the body. */
  lemma {:induction false} ParseLinesRoundTrip(vars: seq<(string, string)>, body: string)
    requires Writable(vars)
    ensures ParseLines(Entries(vars) + "%}" + body) == Ok(Block(vars, body))
  {
    var s := Entries(vars) + "%}" + body;
    if vars == [] {
      assert s == "%}" + body;
      assert s[2..] == body;
    } else {
      var kv := vars[0];
      assert WritableKey(kv.0) && WritableValue(kv.1);
      var rest := Entries(vars[1..]) + "%}" + body;
      assert s == EntryLine(kv) + rest;
      FirstLine(kv, rest);
      ParseEntryLine(kv);
      assert Writable(vars[1..]) by {
        forall i | 0 <= i < |vars[1..]| ensures WritableKey(vars[1..][i].0) && WritableValue(vars[1..][i].1) {
          assert vars[1..][i] == vars[i + 1];
        }
      }
      ParseLinesRoundTrip(vars[1..], body);
      assert [kv] + vars[1..] == vars;
    }
  }

  /** Reading back a written block gives the pairs and the body. */
  lemma RoundTrip(vars: seq<(string, string)>, body: string)
    requires Writable(vars)
    ensures Parse(BlockText(vars) + body) == Ok(Block(vars, body))
  {
    var text := BlockText(vars) + body;
    assert text == "{%hyde\n" + (Entries(vars) + "%}" + body);
    assert text[7..] == Entries(vars) + "%}" + body;
    ParseLinesRoundTrip(vars, body);
  }

  /** A page written with a block of distinct keys has each of them as an
      attribute equal to the value written. */
  lemma VariablesAreAdded(vars: seq<(string, string)>, body: string)
    requires Writable(vars) && DistinctKeys(vars)
    ensures Load(BlockText(vars) + body).Ok?
    ensures Load(BlockText(vars) + body).value.1 == body
    ensures forall i | 0 <= i < |vars| ::
      Attr(Load(BlockText(vars) + body).value.0, vars[i].0) == Some(vars[i].1)
  {
    RoundTrip(vars, body);
    ApplyAttrsReadBack(DefaultMeta, vars);
  }

  /** A page without a block still has every recognised key, all falsy, and
      no other attribute; its whole text is the body. */
  lemma DefaultsWithoutBlock(text: string)
    requires !("{%hyde" <= text)
    ensures Load(text) == Ok((DefaultMeta, text))
    ensures forall k | k in RecognisedKeys :: Attr(Load(text).value.0, k) == Some("")
    ensures forall k | k !in RecognisedKeys :: Attr(Load(text).value.0, k).None?
  {
  }
}
