/**
 * `Page`: a template or markdown file that is rendered through a layout.
 * Its kind and date come from its name, its meta from defaults, front
 * matter and what the markdown hooks find, and its source is wrapped in
 * the layout template it names.
 */
module Pages {
  import opened Wrappers
  import opened Paths
  import opened Values
  import opened Resources
  import opened MarkdownAdapter

  const TemplateExt: seq<string> := [".html", ".htm"]
  const MarkdownExt: seq<string> := [".markdown", ".md"]

  /** `file.suffix in MARKDOWN_EXT`. */
  predicate IsMarkdownName(name: string) {
    Suffix(name) in MarkdownExt
  }

  /** A file the site turns into a page rather than copying. */
  predicate IsPageName(name: string) {
    Suffix(name) in TemplateExt || Suffix(name) in MarkdownExt
  }

  /** `'{}.html'.format(filename.stem)`. */
  function PageOutputName(name: string): string {
    Stem(name) + ".html"
  }

  /** `LastDot` is the dot after which no other dot follows. */
  lemma LastDotAt(name: string, j: nat)
    requires j < |name| && name[j] == '.'
    requires forall k :: j < k < |name| ==> name[k] != '.'
    ensures LastDot(name) == j
  {
  }

  /** The last dot of `s + ".html"` is the one this appends. */
  lemma LastDotOfHtml(s: string)
    ensures LastDot(s + ".html") == |s|
  {
    var t := s + ".html";
    assert forall k :: |s| < k < |t| ==> t[k] == "html"[k - |s| - 1];
    LastDotAt(t, |s|);
  }

  /**
   * A page's output is a single `.html` component with the page's stem,
   * and computing it again from the output changes nothing.
   */
  lemma PageOutputNameShape(name: string)
    requires IsComponent(name)
    ensures var out := PageOutputName(name);
      && IsComponent(out)
      && Suffix(out) == ".html"
      && Stem(out) == Stem(name)
      && PageOutputName(out) == out
  {
    var stem := Stem(name);
    var out := stem + ".html";
    assert stem == name[..|stem|] by { assert name == stem + Suffix(name); }
    assert '/' !in stem;
    assert '/' !in ".html";
    assert '/' !in out;
    assert out != ".";
    LastDotOfHtml(stem);
  }

  /**
   * Two page files in one directory write to the same output exactly when
   * they have the same stem: `index.md` and `index.html` overwrite one
   * another.
   */
  lemma PageOutputsCollide(env: Env, relative: PurePath, a: string, b: string)
    requires IsComponent(a) && IsComponent(b)
    ensures Locate(env, a, relative, Some(PageOutputName(a))).outputPath ==
            Locate(env, b, relative, Some(PageOutputName(b))).outputPath
        <==> Stem(a) == Stem(b)
  {
    PageOutputNameShape(a);
    PageOutputNameShape(b);
    PageOutputLast(env, relative, a);
    PageOutputLast(env, relative, b);
  }

  /** A page's output path ends in its output name, and depends on the file name only through it. */
  lemma PageOutputLast(env: Env, relative: PurePath, a: string)
    requires IsComponent(a)
    ensures var out := PageOutputName(a);
      && Name(Locate(env, a, relative, Some(out)).outputPath) == out
      && Locate(env, a, relative, Some(out)).outputPath == Child(Join(env.targetPath, relative), out)
  {
    PageOutputNameShape(a);
    ParseComponent(PageOutputName(a));
  }

  lemma IndexPagesCollide(env: Env, relative: PurePath, stem: string)
    requires stem != "" && '.' !in stem && '/' !in stem
    ensures Locate(env, stem + ".md", relative, Some(PageOutputName(stem + ".md"))).outputPath ==
            Locate(env, stem + ".html", relative, Some(PageOutputName(stem + ".html"))).outputPath
  {
    var md, html := stem + ".md", stem + ".html";
    assert md[|stem|] == '.' && forall k :: |stem| < k < |md| ==> md[k] == "md"[k - |stem| - 1];
    LastDotAt(md, |stem|);
    LastDotOfHtml(stem);
    assert md[..|stem|] == stem && html[..|stem|] == stem;
    assert Stem(md) == stem && Stem(html) == stem;
    assert PageOutputName(md) == PageOutputName(html);
  }

  /** The length of the run of ASCII digits starting at `from`. */
  function DigitRun(s: string, from: nat): (n: nat)
    requires from <= |s|
    ensures from + n <= |s|
    ensures forall k :: from <= k < from + n ==> IsDigit(s[k])
    ensures from + n == |s| || !IsDigit(s[from + n])
    decreases |s| - from
  {
    if from == |s| || !IsDigit(s[from]) then 0 else 1 + DigitRun(s, from + 1)
  }

  /** Whether `c` may follow the third `-`: `.` matches anything but a newline. */
  predicate MatchesDot(c: char) {
    c != '\n'
  }

  /**
   * One `(\d+)-` of the post pattern at the start of `s`: the digits and
   * what follows the `-`. The greedy `\d+` must be followed by `-`, so it
   * takes the whole digit run or nothing.
   */
  function DigitGroup(s: string): (r: Option<(string, string)>)
    ensures r.Some? ==> r.value.0 != "" && AllDigits(r.value.0) && s == r.value.0 + "-" + r.value.1
  {
    var n := DigitRun(s, 0);
    if n == 0 || n == |s| || s[n] != '-' then None
    else
      assert s == s[..n] + "-" + s[n + 1..];
      Some((s[..n], s[n + 1..]))
  }

  /** The digits before a `-` are the group, and the rest is what follows. */
  lemma DigitGroupOf(g: string, rest: string)
    requires g != "" && AllDigits(g)
    ensures DigitGroup(g + "-" + rest) == Some((g, rest))
  {
    var s := g + "-" + rest;
    assert forall k :: 0 <= k < |g| ==> s[k] == g[k];
    assert s[|g|] == '-';
    assert DigitRun(s, 0) == |g|;
    assert s[..|g|] == g && s[|g| + 1..] == rest;
  }

  /**
   * `POST_PATTERN.match(name)` with `^(\d+)-(\d+)-(\d+)-.+`: the three
   * digit groups when the name starts with them and at least one more
   * character that is not a newline follows.
   */
  function MatchPost(name: string): (r: Option<(string, string, string)>)
    ensures r.Some? ==>
      && r.value.0 != "" && AllDigits(r.value.0)
      && r.value.1 != "" && AllDigits(r.value.1)
      && r.value.2 != "" && AllDigits(r.value.2)
  {
    match DigitGroup(name)
    case None => None
    case Some((y, r1)) =>
      match DigitGroup(r1)
      case None => None
      case Some((m, r2)) =>
        match DigitGroup(r2)
        case None => None
        case Some((d, rest)) =>
          if rest != "" && MatchesDot(rest[0]) then Some((y, m, d)) else None
  }

  lemma GroupsAssociate(y: string, m: string, d: string, rest: string)
    ensures y + "-" + m + "-" + d + "-" + rest == y + "-" + (m + "-" + (d + "-" + rest))
  {
  }

  /** A name built as `Y-M-D-rest` matches, with exactly those groups. */
  lemma MatchPostComposed(y: string, m: string, d: string, rest: string)
    requires y != "" && AllDigits(y)
    requires m != "" && AllDigits(m)
    requires d != "" && AllDigits(d)
    requires rest != "" && MatchesDot(rest[0])
    ensures MatchPost(y + "-" + m + "-" + d + "-" + rest) == Some((y, m, d))
  {
    var r2 := d + "-" + rest;
    var r1 := m + "-" + r2;
    GroupsAssociate(y, m, d, rest);
    DigitGroupOf(y, r1);
    DigitGroupOf(m, r2);
    DigitGroupOf(d, rest);
  }

  /** Conversely, a match is always such a name. */
  lemma MatchPostDecomposes(name: string) returns (rest: string)
    requires MatchPost(name).Some?
    ensures var g := MatchPost(name).value;
      rest != "" && MatchesDot(rest[0]) && name == g.0 + "-" + (g.1 + "-" + (g.2 + "-" + rest))
  {
    var (y, r1) := DigitGroup(name).value;
    var (m, r2) := DigitGroup(r1).value;
    var (d, r3) := DigitGroup(r2).value;
    assert MatchPost(name).value == (y, m, d);
    rest := r3;
  }

  /** `datetime.datetime`, to the second. */
  datatype DateTime = DateTime(year: int, month: int, day: int, hour: int, minute: int, second: int)

  predicate IsLeapYear(y: int) {
    y % 4 == 0 && (y % 100 != 0 || y % 400 == 0)
  }

  function DaysInMonth(y: int, m: int): (n: int)
    requires 1 <= m <= 12
    ensures 28 <= n <= 31
  {
    if m == 2 then (if IsLeapYear(y) then 29 else 28)
    else if m == 4 || m == 6 || m == 9 || m == 11 then 30
    else 31
  }

  /** The dates `datetime.datetime(year, month, day)` accepts. */
  predicate ValidDate(y: int, m: int, d: int) {
    1 <= y <= 9999 && 1 <= m <= 12 && 1 <= d <= DaysInMonth(y, m)
  }

  /**
   * `Page.page_type_and_creation(name)`: a post and its date when the name
   * matches the post pattern, otherwise not a post, created at `created`.
   */
  function PageTypeAndCreation(name: string, created: DateTime): (r: Result<(bool, DateTime), Error>)
    ensures MatchPost(name).None? ==> r == Success((false, created))
    ensures r.Success? && r.value.0 ==>
      MatchPost(name).Some? && r.value.1.hour == r.value.1.minute == r.value.1.second == 0
      && ValidDate(r.value.1.year, r.value.1.month, r.value.1.day)
  {
    match MatchPost(name)
    case None => Success((false, created))
    case Some((y, m, d)) =>
      if |y| != 2 then Failure(YearNotInteger(y))
      else
        var year := DigitsValue("20" + y);
        var month := DigitsValue(m);
        var day := DigitsValue(d);
        if ValidDate(year, month, day) then Success((true, DateTime(year, month, day, 0, 0, 0)))
        else Failure(InvalidDate(year, month, day))
  }

  /** A two-digit year `YY` is the year 20YY. */
  lemma TwentyPrefix(y: string)
    requires |y| == 2 && AllDigits(y)
    ensures AllDigits("20" + y) && DigitsValue("20" + y) == 2000 + DigitsValue(y)
  {
    DigitsValueAppend("20", y);
    assert "20"[..1] == "2";
    assert DigitsValue("2") == 2 by { assert "2"[..0] == ""; }
    assert Pow10(2) == 100;
  }

  /**
   * A post name with a two-digit year gives a post dated that day of the
   * 21st century, or an error when the month or day does not exist.
   */
  lemma PostDate(y: string, m: string, d: string, rest: string, created: DateTime)
    requires |y| == 2 && AllDigits(y)
    requires m != "" && AllDigits(m)
    requires d != "" && AllDigits(d)
    requires rest != "" && MatchesDot(rest[0])
    ensures var year := 2000 + DigitsValue(y);
      var month := DigitsValue(m);
      var day := DigitsValue(d);
      PageTypeAndCreation(y + "-" + m + "-" + d + "-" + rest, created) ==
        if ValidDate(year, month, day) then Success((true, DateTime(year, month, day, 0, 0, 0)))
        else Failure(InvalidDate(year, month, day))
  {
    MatchPostComposed(y, m, d, rest);
    TwentyPrefix(y);
  }

  /** Any other year length leaves the year a string, and the date cannot be built. */
  lemma PostYearNotTwoDigits(y: string, m: string, d: string, rest: string, created: DateTime)
    requires y != "" && |y| != 2 && AllDigits(y)
    requires m != "" && AllDigits(m)
    requires d != "" && AllDigits(d)
    requires rest != "" && MatchesDot(rest[0])
    ensures PageTypeAndCreation(y + "-" + m + "-" + d + "-" + rest, created) == Failure(YearNotInteger(y))
  {
    MatchPostComposed(y, m, d, rest);
  }

  /** `int()` of a two-digit literal. */
  lemma TwoDigits(t: string)
    requires |t| == 2 && AllDigits(t)
    ensures DigitsValue(t) == 10 * (t[0] as int - '0' as int) + (t[1] as int - '0' as int)
  {
    var head := t[..1];
    assert head[..0] == "" && head[0] == t[0];
    assert DigitsValue(head) == t[0] as int - '0' as int;
    assert DigitsValue(t) == DigitsValue(head) * 10 + (t[1] as int - '0' as int);
  }

  /** 29 February is a date exactly in the leap years `datetime` accepts. */
  lemma LeapDay(y: int)
    ensures ValidDate(y, 2, 29) <==> 1 <= y <= 9999 && IsLeapYear(y)
  {
  }

  /** 29 February of a year that is not a leap year is not a date. */
  lemma NotLeapDay(y: int)
    requires y % 4 != 0
    ensures !ValidDate(y, 2, 29)
  {
    LeapDay(y);
  }

  /** A post name whose three groups have two digits each. */
  lemma TwoDigitGroupsPost(y: string, m: string, d: string, rest: string, created: DateTime,
                            year: int, month: int, day: int)
    requires |y| == 2 && AllDigits(y) && |m| == 2 && AllDigits(m) && |d| == 2 && AllDigits(d)
    requires rest != "" && MatchesDot(rest[0])
    requires year == 2000 + 10 * (y[0] as int - '0' as int) + (y[1] as int - '0' as int)
    requires month == 10 * (m[0] as int - '0' as int) + (m[1] as int - '0' as int)
    requires day == 10 * (d[0] as int - '0' as int) + (d[1] as int - '0' as int)
    ensures PageTypeAndCreation(y + "-" + m + "-" + d + "-" + rest, created) ==
        if ValidDate(year, month, day) then Success((true, DateTime(year, month, day, 0, 0, 0)))
        else Failure(InvalidDate(year, month, day))
  {
    TwoDigits(y);
    TwoDigits(m);
    TwoDigits(d);
    PostDate(y, m, d, rest, created);
  }

  /** `24-03-05-<title>` is a post of 5 March 2024, whatever the title. */
  lemma ShortYearPostExample(title: string, created: DateTime)
    requires title != "" && title[0] != '\n'
    ensures PageTypeAndCreation("24-03-05-" + title, created) == Success((true, DateTime(2024, 3, 5, 0, 0, 0)))
  {
    assert "24-03-05-" + title == "24" + "-" + "03" + "-" + "05" + "-" + title;
    TwoDigitGroupsPost("24", "03", "05", title, created, 2024, 3, 5);
  }

  /** `2024-03-05-<title>` stops the run: its year is never converted to a number. */
  lemma LongYearPostExample(title: string, created: DateTime)
    requires title != "" && title[0] != '\n'
    ensures PageTypeAndCreation("2024-03-05-" + title, created) == Failure(YearNotInteger("2024"))
  {
    assert "2024-03-05-" + title == "2024" + "-" + "03" + "-" + "05" + "-" + title;
    PostYearNotTwoDigits("2024", "03", "05", title, created);
  }

  /** 2023 is no leap year, so `23-02-29-<title>` has no date. */
  lemma InvalidDatePostExample(title: string, created: DateTime)
    requires title != "" && title[0] != '\n'
    ensures PageTypeAndCreation("23-02-29-" + title, created) == Failure(InvalidDate(2023, 2, 29))
  {
    assert "23-02-29-" + title == "23" + "-" + "02" + "-" + "29" + "-" + title;
    NotLeapDay(2023);
    TwoDigitGroupsPost("23", "02", "29", title, created, 2023, 2, 29);
  }

  /** The meta every page starts from, before its markdown is rendered. */
  function InitialMeta(markdown: bool, post: bool, category: string): (meta: map<string, Value>)
    ensures meta.Keys == {"layout", "category", "published", "excerpt"}
    ensures meta["published"] == Bool(true) && meta["excerpt"] == Str("")
    ensures meta["layout"] == Str(if post then "post" else if markdown then "default" else "")
    ensures meta["category"] == Str(if markdown then category else "")
  {
    var meta := map["layout" := Str(""), "category" := Str(""), "published" := Bool(true), "excerpt" := Str("")];
    var meta := if markdown then meta["layout" := Str("default")]["category" := Str(category)] else meta;
    if post then meta["layout" := Str("post")] else meta
  }

  /** Scanning never sets a default key, and the defaults hold no title. */
  lemma DefaultKeysNotScanned()
    ensures "layout" !in {"excerpt", "title"} && "category" !in {"excerpt", "title"}
    ensures "title" !in {"layout", "category", "published", "excerpt"}
  {
  }

  const ExtendsPrefix: string := "{% extends \"_layout/"
  const ExtendsSuffix: string := ".html\" %}\n            {% block content %}"
  const EndBlock: string := "{% endblock %}"

  /** The template text that renders `content` inside `_layout/<layout>.html`. */
  function Wrap(layout: string, content: string): string {
    ExtendsPrefix + layout + ExtendsSuffix + content + EndBlock
  }

  /** Index of the first `"` at or after `from`. */
  function FirstQuote(s: string, from: nat): (r: Option<nat>)
    requires from <= |s|
    ensures r.Some? ==> from <= r.value < |s| && s[r.value] == '"'
    decreases |s| - from
  {
    if from == |s| then None
    else if s[from] == '"' then Some(from)
    else FirstQuote(s, from + 1)
  }

  /** Reads the layout name and the content back out of a wrapped template. */
  function Unwrap(s: string): Option<(string, string)> {
    UnwrapParts(s, ExtendsPrefix, ExtendsSuffix, EndBlock, 5)
  }

  /**
   * Reads `prefix + name + suffix + content + end` back into the name and
   * the content, where the name ends at the first quote and that quote is
   * character `k` of `suffix`.
   */
  function UnwrapParts(s: string, prefix: string, suffix: string, end: string, k: nat): Option<(string, string)> {
    if |s| < |prefix| || s[..|prefix|] != prefix then None
    else UnwrapQuoted(s, |prefix|, FirstQuote(s, |prefix|), suffix, end, k)
  }

  /** The rest of `UnwrapParts` once the first quote after the prefix (at `p`) has been looked for. */
  function UnwrapQuoted(s: string, p: nat, quote: Option<nat>, suffix: string, end: string, k: nat): Option<(string, string)>
    requires p <= |s| && (quote.Some? ==> quote.value < |s|)
  {
    match quote
    case None => None
    case Some(q) =>
      var start := q - k + |suffix|;
      if q < p + k || start + |end| > |s| || s[q - k..start] != suffix || s[|s| - |end|..] != end then None
      else Some((s[p..q - k], s[start..|s| - |end|]))
  }

  /** The wrapper loses nothing: a layout name without quotes and any content come back out. */
  lemma WrapUnwrap(layout: string, content: string)
    requires '"' !in layout
    ensures Unwrap(Wrap(layout, content)) == Some((layout, content))
  {
    SuffixShape();
    PartsRoundTrip(ExtendsPrefix, layout, ExtendsSuffix, content, EndBlock, 5);
  }

  /** Any five parts come back out, when the quote at `k` of `suffix` is the first quote after `prefix`. */
  lemma PartsRoundTrip(prefix: string, name: string, suffix: string, content: string, end: string, k: nat)
    requires '"' !in name
    requires k < |suffix| && suffix[k] == '"' && forall i :: 0 <= i < k ==> suffix[i] != '"'
    ensures UnwrapParts(prefix + name + suffix + content + end, prefix, suffix, end, k) == Some((name, content))
  {
    var s := prefix + name + suffix + content + end;
    var m := |prefix| + |name|;
    PartsQuote(prefix, name, suffix, content, end, k);
    assert s[..|prefix|] == prefix;
    assert s[m..m + |suffix|] == suffix && s[|s| - |end|..] == end;
    assert s[|prefix|..m] == name && s[m + |suffix|..|s| - |end|] == content;
    UnwrapQuotedOf(s, |prefix|, m, suffix, end, k);
  }

  /** The first quote after the prefix is the one at `k` of the suffix. */
  lemma PartsQuote(prefix: string, name: string, suffix: string, content: string, end: string, k: nat)
    requires '"' !in name
    requires k < |suffix| && suffix[k] == '"' && forall i :: 0 <= i < k ==> suffix[i] != '"'
    ensures var s := prefix + name + suffix + content + end;
      |prefix| + |name| + k < |s| && FirstQuote(s, |prefix|) == Some(|prefix| + |name| + k)
  {
    var s := prefix + name + suffix + content + end;
    var p := |prefix|;
    var q := p + |name| + k;
    WrapSlices(prefix, name, suffix, content, end);
    forall i | p <= i < q
      ensures s[i] != '"'
    {
      if i < p + |name| {
        assert s[i] == name[i - p];
      } else {
        assert s[i] == suffix[i - p - |name|];
      }
    }
    assert s[q] == suffix[k];
    FirstQuoteOf(s, p, q);
  }

  /** `UnwrapQuoted` when the name ends at `m`, the quote is `k` further, and the suffix and the end are in place. */
  lemma UnwrapQuotedOf(s: string, p: nat, m: nat, suffix: string, end: string, k: nat)
    requires p <= m && m + |suffix| + |end| <= |s| && m + k < |s|
    requires s[m..m + |suffix|] == suffix && s[|s| - |end|..] == end
    ensures UnwrapQuoted(s, p, Some(m + k), suffix, end, k) == Some((s[p..m], s[m + |suffix|..|s| - |end|]))
  {
  }

  /** The five parts of a concatenation can be sliced back out. */
  lemma WrapSlices(a: string, l: string, b: string, c: string, e: string)
    ensures var s := a + l + b + c + e;
      var i, j := |a| + |l|, |a| + |l| + |b|;
      && s[..|a|] == a && s[|a|..i] == l && s[i..j] == b && s[j..|s| - |e|] == c && s[|s| - |e|..] == e
      && (forall k :: 0 <= k < |l| ==> s[|a| + k] == l[k])
      && (forall k :: 0 <= k < |b| ==> s[i + k] == b[k])
  {
  }

  /** `.html"` opens the suffix: its only quote before the name ends is the sixth character. */
  lemma SuffixShape()
    ensures |ExtendsSuffix| > 5 && ExtendsSuffix[5] == '"'
    ensures forall k :: 0 <= k < 5 ==> ExtendsSuffix[k] != '"'
  {
  }

  /** The first quote at or after `from` is the one at `q` when none comes between. */
  lemma {:induction false} FirstQuoteOf(s: string, from: nat, q: nat)
    requires from <= q < |s| && s[q] == '"'
    requires forall k :: from <= k < q ==> s[k] != '"'
    ensures FirstQuote(s, from) == Some(q)
    decreases q - from
  {
    if from < q {
      FirstQuoteOf(s, from + 1, q);
    }
  }

  /** The layout wrap of `Page.render`: only a truthy layout wraps the source. */
  function Layout(meta: map<string, Value>, source: string): string
    requires "layout" in meta
  {
    if Truthy(meta["layout"]) then Wrap(Display(meta["layout"]), source) else source
  }

  /** `Page.render` after the read: markdown is converted and its context merged into the meta. */
  function RenderPage(meta: map<string, Value>, markdown: bool, text: string,
                      lex: string -> seq<Block>, yaml: string -> YamlDoc): (r: Result<(string, map<string, Value>), Error>)
    requires "layout" in meta
    ensures r.Success? ==> r.value.1.Keys >= meta.Keys
    ensures !markdown ==> r == Success((Layout(meta, text), meta))
  {
    if markdown then
      match RenderSpec(lex, yaml, text)
      case Failure(e) => Failure(e)
      case Success(rendered) =>
        var merged := Overlay(meta, rendered.info);
        Success((Layout(merged, rendered.html), merged))
    else Success((Layout(meta, text), meta))
  }

  /** Reading the source file, then rendering it. */
  function ReadAndRender(meta: map<string, Value>, markdown: bool, path: PurePath, read: PurePath -> Option<string>,
                         lex: string -> seq<Block>, yaml: string -> YamlDoc): Result<(string, map<string, Value>), Error>
    requires "layout" in meta
  {
    match read(path)
    case None => Failure(Unreadable(path))
    case Some(text) => RenderPage(meta, markdown, text, lex, yaml)
  }

  /** Without a title in the defaults, the title is the scanned one, else the file stem. */
  lemma TitleOfScanned(meta: map<string, Value>, blocks: seq<Block>, filename: string)
    requires "title" !in meta
    ensures TitleOf(Overlay(meta, Scanned(blocks)), filename)
      == (match LastTitle(blocks) case Some(t) => Str(t) case None => Str(Stem(filename)))
  {
    assert "title" in Overlay(meta, Scanned(blocks)) <==> LastTitle(blocks).Some?;
  }

  /** Everything a constructed page holds. */
  datatype PageState = PageState(
    loc: Location, post: bool, date: DateTime, markdown: bool,
    meta: map<string, Value>, source: string, title: Value)

  /** `str(filename.stem)` unless the meta names a title. */
  function TitleOf(meta: map<string, Value>, filename: string): Value {
    if "title" in meta then meta["title"] else Str(Stem(filename))
  }

  /** `Page(filename, relative)`, from the name to the rendered source. */
  function PageSpec(env: Env, filename: string, relative: PurePath, read: PurePath -> Option<string>,
                    ctime: PurePath -> DateTime, lex: string -> seq<Block>, yaml: string -> YamlDoc): Result<PageState, Error>
  {
    var loc := Locate(env, filename, relative, Some(PageOutputName(filename)));
    match PageTypeAndCreation(filename, ctime(loc.sourcePath))
    case Failure(e) => Failure(e)
    case Success((post, date)) =>
      var markdown := IsMarkdownName(filename);
      match ReadAndRender(InitialMeta(markdown, post, Name(relative)), markdown, loc.sourcePath, read, lex, yaml)
      case Failure(e) => Failure(e)
      case Success((source, meta)) =>
        Success(PageState(loc, post, date, markdown, meta, source, TitleOf(meta, filename)))
  }

  /** Every page that loads keeps the `published` key of its defaults, which `Page.build` reads. */
  lemma PageSpecPublished(env: Env, filename: string, relative: PurePath, read: PurePath -> Option<string>,
                          ctime: PurePath -> DateTime, lex: string -> seq<Block>, yaml: string -> YamlDoc)
    ensures var r := PageSpec(env, filename, relative, read, ctime, lex, yaml);
      r.Success? ==> "published" in r.value.meta
  {
    var loc := Locate(env, filename, relative, Some(PageOutputName(filename)));
    var kind := PageTypeAndCreation(filename, ctime(loc.sourcePath));
    if kind.Success? {
      var markdown := IsMarkdownName(filename);
      var meta := InitialMeta(markdown, kind.value.0, Name(relative));
      var rendered := ReadAndRender(meta, markdown, loc.sourcePath, read, lex, yaml);
      if rendered.Success? {
        assert "published" in meta;
        assert rendered.value.1.Keys >= meta.Keys;
      }
    }
  }

  /**
   * A template page that is neither markdown nor a post is published as
   * written: no layout, no wrapping, the default meta.
   */
  lemma PlainTemplateVerbatim(env: Env, filename: string, relative: PurePath, read: PurePath -> Option<string>,
                              ctime: PurePath -> DateTime, lex: string -> seq<Block>, yaml: string -> YamlDoc)
    requires Suffix(filename) in TemplateExt && MatchPost(filename).None?
    requires read(Locate(env, filename, relative, Some(PageOutputName(filename))).sourcePath).Some?
    ensures var r := PageSpec(env, filename, relative, read, ctime, lex, yaml);
      var loc := Locate(env, filename, relative, Some(PageOutputName(filename)));
      && r.Success?
      && r.value.source == read(loc.sourcePath).value
      && r.value.meta == InitialMeta(false, false, Name(relative))
      && r.value.title == Str(Stem(filename))
      && Truthy(r.value.meta["published"])
  {
    var loc := Locate(env, filename, relative, Some(PageOutputName(filename)));
    var text := read(loc.sourcePath).value;
    var created := ctime(loc.sourcePath);
    TemplateNotMarkdown(filename);
    var meta0 := InitialMeta(false, false, Name(relative));
    assert ReadAndRender(meta0, false, loc.sourcePath, read, lex, yaml) == Success((text, meta0));
    PageSpecOf(env, filename, relative, read, ctime, lex, yaml);
    DefaultTitle(false, false, Name(relative), filename);
  }

  /** The defaults hold no title, so a page that sets none is titled by its stem; and they publish. */
  lemma DefaultTitle(markdown: bool, post: bool, category: string, filename: string)
    ensures TitleOf(InitialMeta(markdown, post, category), filename) == Str(Stem(filename))
    ensures Truthy(InitialMeta(markdown, post, category)["published"])
  {
    DefaultKeysNotScanned();
  }

  /** No template extension is a markdown extension. */
  lemma TemplateNotMarkdown(filename: string)
    requires Suffix(filename) in TemplateExt
    ensures !IsMarkdownName(filename)
  {
  }

  /**
   * A markdown page without front matter takes its title from its last
   * level-1 header, or from its file stem when it has none, and its layout
   * is `post` for a post and `default` otherwise.
   */
  lemma MarkdownWithoutFrontMatter(env: Env, filename: string, relative: PurePath, read: PurePath -> Option<string>,
                                   ctime: PurePath -> DateTime, lex: string -> seq<Block>, yaml: string -> YamlDoc)
    requires IsMarkdownName(filename)
    requires var loc := Locate(env, filename, relative, Some(PageOutputName(filename)));
      PageTypeAndCreation(filename, ctime(loc.sourcePath)).Success?
      && read(loc.sourcePath).Some? && !SeparatorAt(read(loc.sourcePath).value, 0)
    ensures var r := PageSpec(env, filename, relative, read, ctime, lex, yaml);
      var loc := Locate(env, filename, relative, Some(PageOutputName(filename)));
      var blocks := lex(read(loc.sourcePath).value);
      && r.Success?
      && r.value.title == (match LastTitle(blocks) case Some(t) => Str(t) case None => Str(Stem(filename)))
      && r.value.meta["layout"] == Str(if r.value.post then "post" else "default")
      && r.value.meta["category"] == Str(Name(relative))
      && r.value.source == Wrap(if r.value.post then "post" else "default", Html(blocks))
  {
    var loc := Locate(env, filename, relative, Some(PageOutputName(filename)));
    var text := read(loc.sourcePath).value;
    var blocks := lex(text);
    var kind := PageTypeAndCreation(filename, ctime(loc.sourcePath));
    PlainMarkdownRender(kind.value.0, Name(relative), filename, text, lex, yaml);
    PageSpecOf(env, filename, relative, read, ctime, lex, yaml);
  }

  /** The meta and the source a markdown document without front matter renders to. */
  lemma PlainMarkdownRender(post: bool, category: string, filename: string, text: string,
                             lex: string -> seq<Block>, yaml: string -> YamlDoc)
    requires !SeparatorAt(text, 0)
    ensures var merged := Overlay(InitialMeta(true, post, category), Scanned(lex(text)));
      var layout := if post then "post" else "default";
      && merged["layout"] == Str(layout) && merged["category"] == Str(category)
      && TitleOf(merged, filename)
         == (match LastTitle(lex(text)) case Some(t) => Str(t) case None => Str(Stem(filename)))
      && RenderPage(InitialMeta(true, post, category), true, text, lex, yaml)
         == Success((Wrap(layout, Html(lex(text))), merged))
  {
    RenderWithoutFrontMatter(lex, yaml, text);
    DefaultKeysNotScanned();
    TitleOfScanned(InitialMeta(true, post, category), lex(text), filename);
  }

  /** `Page(filename, relative)` when the name is understood and the source renders. */
  lemma PageSpecOf(env: Env, filename: string, relative: PurePath, read: PurePath -> Option<string>,
                   ctime: PurePath -> DateTime, lex: string -> seq<Block>, yaml: string -> YamlDoc)
    requires var loc := Locate(env, filename, relative, Some(PageOutputName(filename)));
      PageTypeAndCreation(filename, ctime(loc.sourcePath)).Success?
    ensures var loc := Locate(env, filename, relative, Some(PageOutputName(filename)));
      var kind := PageTypeAndCreation(filename, ctime(loc.sourcePath)).value;
      var markdown := IsMarkdownName(filename);
      var rendered := ReadAndRender(InitialMeta(markdown, kind.0, Name(relative)), markdown, loc.sourcePath, read, lex, yaml);
      && (rendered.Failure? ==> PageSpec(env, filename, relative, read, ctime, lex, yaml) == Failure(rendered.error))
      && (rendered.Success? ==>
            PageSpec(env, filename, relative, read, ctime, lex, yaml) ==
            Success(PageState(loc, kind.0, kind.1, markdown, rendered.value.1, rendered.value.0,
                              TitleOf(rendered.value.1, filename))))
  {
  }

  /**
   * Front matter outranks everything: a markdown page whose front matter
   * sets a key has that value in its meta, whatever the defaults and the
   * scanned document say (an `excerpt` as its HTML).
   */
  lemma FrontMatterWins(meta: map<string, Value>, lex: string -> seq<Block>, yaml: string -> YamlDoc,
                        m: string, body: string, k: string)
    requires "layout" in meta
    requires forall i :: !SeparatorAt(body, i)
    requires yaml(m).Mapping? && k in yaml(m).entries && k != "excerpt"
    requires "excerpt" in yaml(m).entries ==> yaml(m).entries["excerpt"].Str?
    ensures var r := RenderPage(meta, true, "---\n" + m + "---\n" + body, lex, yaml);
      r.Success? && k in r.value.1 && r.value.1[k] == yaml(m).entries[k]
  {
    RenderWithFrontMatter(lex, yaml, m, body);
    var rendered := RenderSpec(lex, yaml, "---\n" + m + "---\n" + body).value;
    assert k in rendered.info && rendered.info[k] == yaml(m).entries[k];
  }

  /** A page: where it lives, what it is, and what it renders to. */
  class Page {
    const loc: Location
    const post: bool
    const date: DateTime
    const markdown: bool
    var meta: map<string, Value>
    var source: string
    var title: Value

    /** The keys every page's meta keeps from its defaults. */
    predicate Valid()
      reads this
    {
      "layout" in meta && "published" in meta
    }

    function State(): PageState
      reads this
    {
      PageState(loc, post, date, markdown, meta, source, title)
    }

    /** The part of `Page.__init__` before the render: defaults by kind. */
    constructor (loc: Location, post: bool, date: DateTime, markdown: bool, category: string)
      ensures this.loc == loc && this.post == post && this.date == date && this.markdown == markdown
      ensures meta == InitialMeta(markdown, post, category) && source == "" && title == Nil
      ensures Valid()
    {
      this.loc := loc;
      this.post := post;
      this.date := date;
      this.markdown := markdown;
      source := "";
      title := Nil;
      new;
      meta := map["layout" := Str(""), "category" := Str(""), "published" := Bool(true), "excerpt" := Str("")];
      if markdown {
        meta := meta["layout" := Str("default")];
        meta := meta["category" := Str(category)];
      }
      if post {
        meta := meta["layout" := Str("post")];
      }
    }

    /** `Page.render`: read, convert markdown into the meta, wrap in the layout. */
    method Render(read: PurePath -> Option<string>, md: MarkdownAdapter.Markdown, yaml: string -> YamlDoc)
      returns (r: Result<string, Error>)
      requires Valid()
      modifies this, md.renderer
      ensures var spec := ReadAndRender(old(meta), markdown, loc.sourcePath, read, md.lex, yaml);
        && (r.Success? <==> spec.Success?)
        && (r.Success? ==> r.value == spec.value.0 && meta == spec.value.1)
        && (r.Failure? ==> r.error == spec.error && meta == old(meta))
      ensures Valid() && source == old(source) && title == old(title)
    {
      var text := read(loc.sourcePath);
      if text.None? {
        return Failure(Unreadable(loc.sourcePath));
      }
      var src := text.value;
      if markdown {
        var rendered := md.Render(src, yaml);
        if rendered.Failure? {
          return Failure(rendered.error);
        }
        src := rendered.value.html;
        meta := Overlay(meta, rendered.value.info);  // self.meta.update(context)
      }
      if Truthy(meta["layout"]) {
        src := Wrap(Display(meta["layout"]), src);
      }
      r := Success(src);
    }

    /** `Page.build`: a page whose `published` is falsy writes nothing. */
    method Build() returns (action: Option<Action>)
      requires Valid()
      ensures action.None? <==> !Truthy(meta["published"])
      ensures action.Some? ==> action.value == Write(loc.outputPath, source, meta)
    {
      if !Truthy(meta["published"]) {
        return None;
      }
      action := Some(Write(loc.outputPath, source, meta));
    }
  }

  /** `Page(filename, relative)`: a page, or the error that aborts the run. */
  method NewPage(env: Env, filename: string, relative: PurePath, read: PurePath -> Option<string>,
                 ctime: PurePath -> DateTime, md: MarkdownAdapter.Markdown, yaml: string -> YamlDoc)
    returns (r: Result<Page, Error>)
    modifies md.renderer
    ensures var spec := PageSpec(env, filename, relative, read, ctime, md.lex, yaml);
      && (r.Success? <==> spec.Success?)
      && (r.Success? ==> fresh(r.value) && r.value.Valid() && r.value.State() == spec.value)
      && (r.Failure? ==> r.error == spec.error)
  {
    var loc := Locate(env, filename, relative, Some(PageOutputName(filename)));
    var kind := PageTypeAndCreation(filename, ctime(loc.sourcePath));
    if kind.Failure? {
      return Failure(kind.error);
    }
    PageSpecOf(env, filename, relative, read, ctime, md.lex, yaml);
    r := RenderedPage(loc, kind.value.0, kind.value.1, IsMarkdownName(filename), Name(relative), filename, read, md, yaml);
  }

  /**
   * The rest of `Page.__init__` once the kind and the date are known: the
   * defaults, the render, and the title from the meta or the file stem.
   */
  method RenderedPage(loc: Location, post: bool, date: DateTime, markdown: bool, category: string, filename: string,
                      read: PurePath -> Option<string>, md: MarkdownAdapter.Markdown, yaml: string -> YamlDoc)
    returns (r: Result<Page, Error>)
    modifies md.renderer
    ensures var rendered := ReadAndRender(InitialMeta(markdown, post, category), markdown, loc.sourcePath, read, md.lex, yaml);
      && (r.Success? <==> rendered.Success?)
      && (r.Success? ==>
            fresh(r.value) && r.value.Valid() &&
            r.value.State() == PageState(loc, post, date, markdown, rendered.value.1, rendered.value.0, TitleOf(rendered.value.1, filename)))
      && (r.Failure? ==> r.error == rendered.error)
  {
    var page := new Page(loc, post, date, markdown, category);
    var source := page.Render(read, md, yaml);
    if source.Failure? {
      return Failure(source.error);
    }
    var meta := page.meta;
    var title := if "title" in meta then meta["title"] else Str(Stem(filename));
    page.source := source.value;
    page.title := title;
    r := Success(page);
  }
}
