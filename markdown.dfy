/**
 * The markdown adapter: `Markdown.render` and its renderer hooks. mistune
 * itself is not modelled; it is a parser `lex` that turns text into the
 * blocks it hands to the renderer, in document order, and a page's HTML is
 * the renderer's output for those blocks, concatenated.
 */
module MarkdownAdapter {
  import opened Wrappers
  import opened Values
  import opened UrlEscaping

  /**
   * A block as mistune reports it: a paragraph's inline-rendered text, a
   * header's text and level, or a block whose rendering the generator does
   * not override, already as HTML.
   */
  datatype Block = Para(text: string) | Heading(text: string, level: nat) | Other(html: string)

  /** `s.strip(' ')`: spaces, and only spaces, removed from both ends. */
  function StripSpaces(s: string): (r: string)
    ensures r == "" || (r[0] != ' ' && r[|r| - 1] != ' ')
    ensures |r| <= |s|
    decreases |s|
  {
    if s != [] && s[0] == ' ' then StripSpaces(s[1..])
    else if s != [] && s[|s| - 1] == ' ' then StripSpaces(s[..|s| - 1])
    else s
  }

  function Spaces(n: nat): (r: string)
    ensures |r| == n && forall k :: 0 <= k < n ==> r[k] == ' '
  {
    seq(n, _ => ' ')
  }

  /** Stripping removes exactly the padding around a text that neither starts nor ends with a space. */
  lemma {:induction false} StripPadding(m: nat, t: string, n: nat)
    requires t == "" || (t[0] != ' ' && t[|t| - 1] != ' ')
    ensures StripSpaces(Spaces(m) + t + Spaces(n)) == t
    decreases m + n
  {
    var s := Spaces(m) + t + Spaces(n);
    if m > 0 {
      assert s[0] == ' ';
      assert s[1..] == Spaces(m - 1) + t + Spaces(n);
      StripPadding(m - 1, t, n);
    } else if t == "" {
      if n > 0 {
        assert s[0] == ' ';
        assert s[1..] == Spaces(0) + t + Spaces(n - 1);
        StripPadding(0, t, n - 1);
      } else {
        assert s == "";
      }
    } else if n > 0 {
      assert s[0] == t[0];
      assert s[|s| - 1] == ' ';
      assert s[..|s| - 1] == Spaces(0) + t + Spaces(n - 1);
      StripPadding(0, t, n - 1);
    } else {
      assert s == t;
    }
  }

  /** `Renderer.paragraph`'s output. */
  function ParagraphHtml(text: string): string {
    "<p>" + StripSpaces(text) + "</p>\n"
  }

  /** The start of a header's HTML, up to the opening quote of its `id`. */
  function HeaderOpen(level: nat): string {
    "<h" + NatToDecimal(level) + " id=\""
  }

  /** `Renderer.header`'s output. */
  function HeaderHtml(text: string, level: nat): string {
    HeaderOpen(level) + UrlEscape(text) + "\">" + text + "</h" + NatToDecimal(level) + ">\n"
  }

  function BlockHtml(b: Block): string {
    match b
    case Para(text) => ParagraphHtml(text)
    case Heading(text, level) => HeaderHtml(text, level)
    case Other(html) => html
  }

  /** What one hook does to `info`. */
  function Hooked(info: map<string, Value>, b: Block): map<string, Value> {
    match b
    case Para(text) => if "excerpt" in info then info else info["excerpt" := Str(StripSpaces(text))]
    case Heading(text, level) => if level == 1 then info["title" := Str(text)] else info
    case Other(_) => info
  }

  /** The pieces `f` gives for `xs`, concatenated. */
  function ConcatMap<T>(f: T -> string, xs: seq<T>): string {
    if xs == [] then "" else ConcatMap(f, xs[..|xs| - 1]) + f(xs[|xs| - 1])
  }

  /** The HTML mistune produces for `bs`. */
  function Html(bs: seq<Block>): string {
    ConcatMap(BlockHtml, bs)
  }

  /** `info` after the hooks have seen `bs`, starting from `info`. */
  function Feed(info: map<string, Value>, bs: seq<Block>): map<string, Value> {
    if bs == [] then info else Hooked(Feed(info, bs[..|bs| - 1]), bs[|bs| - 1])
  }

  /** The first paragraph of `bs`, stripped of spaces. */
  function FirstParagraph(bs: seq<Block>): Option<string> {
    if bs == [] then None
    else if bs[0].Para? then Some(StripSpaces(bs[0].text))
    else FirstParagraph(bs[1..])
  }

  /** The text of the last level-1 header of `bs`. */
  function LastTitle(bs: seq<Block>): Option<string> {
    if bs == [] then None
    else
      match LastTitle(bs[1..])
      case Some(t) => Some(t)
      case None => if bs[0].Heading? && bs[0].level == 1 then Some(bs[0].text) else None
  }

  /** What scanning a document finds: `excerpt` from its first paragraph, `title` from its last level-1 header. */
  function Scanned(bs: seq<Block>): (r: map<string, Value>)
    ensures r.Keys <= {"excerpt", "title"}
    ensures "excerpt" in r <==> FirstParagraph(bs).Some?
    ensures "title" in r <==> LastTitle(bs).Some?
    ensures "title" in r ==> r["title"] == Str(LastTitle(bs).value)
  {
    (match FirstParagraph(bs) case Some(e) => map["excerpt" := Str(e)] case None => map[])
    + (match LastTitle(bs) case Some(t) => map["title" := Str(t)] case None => map[])
  }

  lemma {:induction false} FirstParagraphSnoc(bs: seq<Block>, b: Block)
    ensures FirstParagraph(bs + [b]) ==
      if FirstParagraph(bs).Some? then FirstParagraph(bs)
      else if b.Para? then Some(StripSpaces(b.text)) else None
  {
    if bs == [] {
      assert bs + [b] == [b];
      assert [b][1..] == [];
    } else {
      assert (bs + [b])[1..] == bs[1..] + [b];
      FirstParagraphSnoc(bs[1..], b);
    }
  }

  lemma {:induction false} LastTitleSnoc(bs: seq<Block>, b: Block)
    ensures LastTitle(bs + [b]) ==
      if b.Heading? && b.level == 1 then Some(b.text) else LastTitle(bs)
  {
    if bs == [] {
      assert bs + [b] == [b];
      assert [b][1..] == [];
    } else {
      assert (bs + [b])[1..] == bs[1..] + [b];
      LastTitleSnoc(bs[1..], b);
    }
  }

  /**
   * Starting from an empty `info`, the hooks leave exactly what scanning
   * finds: the first paragraph's excerpt and the last level-1 title.
   */
  lemma {:induction false} FeedScans(bs: seq<Block>)
    ensures Feed(map[], bs) == Scanned(bs)
  {
    if bs != [] {
      var init := bs[..|bs| - 1];
      var b := bs[|bs| - 1];
      assert bs == init + [b];
      FeedScans(init);
      FirstParagraphSnoc(init, b);
      LastTitleSnoc(init, b);
      var before := Scanned(init);
      assert ("excerpt" in before) == FirstParagraph(init).Some?;
    }
  }

  lemma {:induction false} ConcatMapAppend<T>(f: T -> string, a: seq<T>, b: seq<T>)
    ensures ConcatMap(f, a + b) == ConcatMap(f, a) + ConcatMap(f, b)
    decreases |b|
  {
    if b == [] {
      assert a + b == a;
    } else {
      var b' := b[..|b| - 1];
      var c := a + b;
      assert c[..|c| - 1] == a + b';
      assert c[|c| - 1] == b[|b| - 1];
      ConcatMapAppend(f, a, b');
    }
  }

  /** Each block's HTML sits in the page's HTML between that of the blocks before and after it. */
  lemma HtmlAt(bs: seq<Block>, i: nat)
    requires i < |bs|
    ensures Html(bs) == Html(bs[..i]) + BlockHtml(bs[i]) + Html(bs[i + 1..])
  {
    var pre, b, post := bs[..i], bs[i], bs[i + 1..];
    assert bs == (pre + [b]) + post;
    ConcatMapAppend(BlockHtml, pre + [b], post);
    assert (pre + [b])[..|pre + [b]| - 1] == pre;
  }

  /** The characters of `s` from `from` up to the next double quote: an attribute's value. */
  function AttributeValue(s: string, from: nat): string
    decreases |s| - from
  {
    if from >= |s| || s[from] == '"' then "" else [s[from]] + AttributeValue(s, from + 1)
  }

  lemma {:induction false} AttributeValueOf(p: string, v: string, rest: string)
    requires '"' !in v
    ensures AttributeValue(p + v + "\"" + rest, |p|) == v
    decreases |v|
  {
    var s := p + v + "\"" + rest;
    if v == [] {
      assert s[|p|] == '"';
    } else {
      assert s[|p|] == v[0];
      assert s == (p + [v[0]]) + v[1..] + "\"" + rest;
      AttributeValueOf(p + [v[0]], v[1..], rest);
    }
  }

  /** A header's `id` attribute reads back as `url_escape` of its text. */
  lemma HeaderAnchor(text: string, level: nat)
    ensures AttributeValue(HeaderHtml(text, level), |HeaderOpen(level)|) == UrlEscape(text)
  {
    UrlEscapeNoSpaceOrQuote(text);
    var rest := ">" + text + "</h" + NatToDecimal(level) + ">\n";
    assert HeaderHtml(text, level) == HeaderOpen(level) + UrlEscape(text) + "\"" + rest;
    AttributeValueOf(HeaderOpen(level), UrlEscape(text), rest);
  }

  /** A separator line `---\n` starts at `j`. */
  predicate SeparatorAt(text: string, j: int) {
    0 <= j && j + 4 <= |text| && text[j..j + 4] == "---\n"
  }

  /** The last separator that starts in `[from, upto]`. */
  function LastSeparator(text: string, from: nat, upto: int): (r: Option<nat>)
    ensures r.Some? ==> from <= r.value <= upto && SeparatorAt(text, r.value)
    ensures r.Some? ==> forall k :: r.value < k <= upto ==> !SeparatorAt(text, k)
    ensures r.None? ==> forall k :: from <= k <= upto ==> !SeparatorAt(text, k)
    decreases upto - from
  {
    if upto < from then None
    else if SeparatorAt(text, upto) then Some(upto)
    else LastSeparator(text, from, upto - 1)
  }

  /**
   * `META_SEPARATOR.search(text)` with `^---\n(.*)---\n` and DOTALL: the
   * text must begin with a separator, and the greedy group runs to the last
   * separator after it. Gives the front matter and the text after it.
   */
  function SplitFrontMatter(text: string): Option<(string, string)> {
    if |text| >= 4 && text[..4] == "---\n" then
      match LastSeparator(text, 4, |text| - 4)
      case Some(j) => Some((text[4..j], text[j + 4..]))
      case None => None
    else None
  }

  /** There is front matter exactly when the text starts with a separator and has another one later. */
  lemma FrontMatterPresence(text: string)
    ensures SplitFrontMatter(text).Some? <==>
      SeparatorAt(text, 0) && exists j :: 4 <= j && SeparatorAt(text, j)
  {
    if SeparatorAt(text, 0) && exists j :: 4 <= j && SeparatorAt(text, j) {
      var j :| 4 <= j && SeparatorAt(text, j);
      assert text[..4] == text[0..4];
      assert j <= |text| - 4;
    }
  }

  lemma NoSeparatorAfter(m: string, body: string, k: int)
    requires forall i :: !SeparatorAt(body, i)
    requires 4 + |m| < k
    ensures !SeparatorAt("---\n" + m + "---\n" + body, k)
  {
    var text := "---\n" + m + "---\n" + body;
    var j := 4 + |m|;
    if k >= j + 4 && k + 4 <= |text| {
      assert text[k..k + 4] == body[k - j - 4..k - j];
      assert !SeparatorAt(body, k - j - 4);
    } else if k < j + 4 && k + 4 <= |text| {
      assert text[j + 3] == '\n';
      assert text[k..k + 4][j + 3 - k] == '\n';
    }
  }

  /**
   * The greedy split: whatever the front matter holds, even separators,
   * the body is everything after the last separator.
   */
  lemma FrontMatterRoundTrip(m: string, body: string)
    requires forall i :: !SeparatorAt(body, i)
    ensures SplitFrontMatter("---\n" + m + "---\n" + body) == Some((m, body))
  {
    var text := "---\n" + m + "---\n" + body;
    var j := 4 + |m|;
    assert text[j..j + 4] == "---\n";
    assert text[..4] == "---\n";
    forall k | j < k ensures !SeparatorAt(text, k) {
      NoSeparatorAfter(m, body, k);
    }
    assert SeparatorAt(text, j);
    var r := LastSeparator(text, 4, |text| - 4);
    assert r.Some?;
    assert r.value <= j;
    assert r == Some(j);
    assert text[4..j] == m;
    assert text[j + 4..] == body;
  }

  /** The result of `Markdown.render`: the body's HTML and the page context. */
  datatype Rendered = Rendered(html: string, info: map<string, Value>)

  /** A front-matter `excerpt` is itself markdown and is replaced by its HTML. */
  function ConvertExcerpt(meta: map<string, Value>, lex: string -> seq<Block>): Result<map<string, Value>, Error> {
    if "excerpt" !in meta then Success(meta)
    else if meta["excerpt"].Str? then Success(meta["excerpt" := Str(Html(lex(meta["excerpt"].s)))])
    else Failure(ExcerptNotText)
  }

  /** What `Markdown.render(text)` returns. */
  function RenderSpec(lex: string -> seq<Block>, yaml: string -> YamlDoc, text: string): Result<Rendered, Error> {
    match SplitFrontMatter(text)
    case None => Success(Rendered(Html(lex(text)), Scanned(lex(text))))
    case Some((front, body)) =>
      match yaml(front)
      case NotMapping => Failure(FrontMatterNotMapping)
      case Mapping(meta) =>
        match ConvertExcerpt(meta, lex)
        case Failure(e) => Failure(e)
        case Success(meta') => Success(Rendered(Html(lex(body)), Overlay(Scanned(lex(body)), meta')))
  }

  /** Without a leading separator, or without a second one, the whole text is the body and the context is what scanning finds. */
  lemma RenderWithoutFrontMatter(lex: string -> seq<Block>, yaml: string -> YamlDoc, text: string)
    requires !SeparatorAt(text, 0) || forall j :: 4 <= j ==> !SeparatorAt(text, j)
    ensures RenderSpec(lex, yaml, text) == Success(Rendered(Html(lex(text)), Scanned(lex(text))))
  {
    FrontMatterPresence(text);
  }

  /**
   * With front matter: the body after the last separator is rendered,
   * every front-matter key overrides what scanning found, and every other
   * scanned key is kept.
   */
  lemma RenderWithFrontMatter(lex: string -> seq<Block>, yaml: string -> YamlDoc, m: string, body: string)
    requires forall i :: !SeparatorAt(body, i)
    requires yaml(m).Mapping?
    requires "excerpt" in yaml(m).entries ==> yaml(m).entries["excerpt"].Str?
    ensures var r := RenderSpec(lex, yaml, "---\n" + m + "---\n" + body);
      var meta := yaml(m).entries;
      && r.Success?
      && r.value.html == Html(lex(body))
      && r.value.info.Keys == Scanned(lex(body)).Keys + meta.Keys
      && (forall k :: k in meta && k != "excerpt" ==> r.value.info[k] == meta[k])
      && ("excerpt" in meta ==> r.value.info["excerpt"] == Str(Html(lex(meta["excerpt"].s))))
      && (forall k :: k in Scanned(lex(body)) && k !in meta ==> r.value.info[k] == Scanned(lex(body))[k])
  {
    FrontMatterRoundTrip(m, body);
  }

  /** The renderer whose hooks fill the shared, class-level `info` dictionary. */
  class Renderer {
    var info: map<string, Value>

    constructor ()
      ensures info == map[]
    {
      info := map[];
    }

    /** `paragraph`: only a paragraph seen while `info` has no `excerpt` sets it. */
    method Paragraph(text: string) returns (html: string)
      modifies this
      ensures html == BlockHtml(Para(text))
      ensures info == Hooked(old(info), Para(text))
    {
      var stripped := StripSpaces(text);
      if "excerpt" !in info {
        info := info["excerpt" := Str(stripped)];
      }
      html := "<p>" + stripped + "</p>\n";
    }

    /** `header`: a level-1 header overwrites `title`; every header gets an anchor id. */
    method Header(text: string, level: nat) returns (html: string)
      modifies this
      ensures html == BlockHtml(Heading(text, level))
      ensures info == Hooked(old(info), Heading(text, level))
    {
      if level == 1 {
        info := info["title" := Str(text)];
      }
      var escape := UrlEscape(text);
      html := "<h" + NatToDecimal(level) + " id=\"" + escape + "\">" + text + "</h" + NatToDecimal(level) + ">\n";
    }
  }

  /** The adapter: a renderer and the mistune parser driving it. */
  class Markdown {
    const renderer: Renderer
    const lex: string -> seq<Block>

    constructor (lex: string -> seq<Block>)
      ensures this.lex == lex && fresh(renderer) && renderer.info == map[]
    {
      this.lex := lex;
      renderer := new Renderer();
    }

    /** `self.markdown.render(text)`: every block goes through the renderer, in order. */
    method Convert(text: string) returns (html: string)
      modifies renderer
      ensures html == Html(lex(text))
      ensures renderer.info == Feed(old(renderer.info), lex(text))
    {
      var blocks := lex(text);
      html := "";
      var i := 0;
      while i < |blocks|
        invariant 0 <= i <= |blocks|
        decreases |blocks| - i
        invariant html == Html(blocks[..i])
        invariant renderer.info == Feed(old(renderer.info), blocks[..i])
      {
        var piece: string;
        match blocks[i] {
          case Para(t) => piece := renderer.Paragraph(t);
          case Heading(t, level) => piece := renderer.Header(t, level);
          case Other(h) => piece := h;
        }
        assert blocks[..i + 1][..i] == blocks[..i];
        html := html + piece;
        i := i + 1;
      }
      assert blocks[..i] == blocks;
    }

    /**
     * `Markdown.render(text)`: split off the front matter, render the body
     * with a cleared `info`, and merge the front matter over what the hooks
     * found. On success `info` is left empty, so nothing leaks into the
     * next page; on failure it is untouched.
     */
    method Render(text: string, yaml: string -> YamlDoc) returns (r: Result<Rendered, Error>)
      modifies renderer
      ensures r == RenderSpec(lex, yaml, text)
      ensures r.Success? ==> renderer.info == map[]
      ensures r.Failure? ==> renderer.info == old(renderer.info)
    {
      var searched := SplitFrontMatter(text);
      var meta: map<string, Value> := map[];
      var body := text;
      if searched.Some? {
        body := searched.value.1;
        var doc := yaml(searched.value.0);
        if doc.NotMapping? {
          return Failure(FrontMatterNotMapping);
        }
        meta := doc.entries;
        if "excerpt" in meta {
          if !meta["excerpt"].Str? {
            return Failure(ExcerptNotText);
          }
          var excerpt := Convert(meta["excerpt"].s);
          meta := meta["excerpt" := Str(excerpt)];
        }
        assert ConvertExcerpt(doc.entries, lex) == Success(meta);
      }
      renderer.info := map[];
      var result := Convert(body);
      var info := renderer.info;
      renderer.info := map[];
      FeedScans(lex(body));
      assert searched.None? ==> Overlay(info, meta) == info;
      info := Overlay(info, meta);  // info.update(meta)
      r := Success(Rendered(result, info));
    }
  }
}
