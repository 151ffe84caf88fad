# A model of a small static site generator

The generator walks a site directory and classifies every file it finds.
Templates (`.html`, `.htm`) and markdown documents (`.md`, `.markdown`)
become pages. Every other file becomes a static asset that is copied
unchanged. Names starting with `_` are skipped, and so is everything below a
directory whose name starts with `_`.

A page's name says whether it is a blog post (`yy-mm-dd-title`) and what
its date is. Its metadata starts from built-in defaults, then takes the
markdown overrides and the post override. On top of that comes what
rendering the markdown found:
- the first paragraph as `excerpt`;
- the last level-1 header as `title`;
- the keys of a leading `---` front-matter block, which win over both.

The page source is wrapped in `{% extends "_layout/<layout>.html" %}` when
the page has a layout. Building the site writes every published page first,
then copies every static asset.

The Dafny modules follow the two source files:

| module | what it models |
|---|---|
| `Wrappers` | `Option` and `Result` |
| `Values` | YAML scalars, Python truthiness, `dict.update` (`Overlay`), decimal digits, the errors a run can raise |
| `Paths` | the part of `pathlib.PurePath` the generator uses: parsing, joining, `name`, `suffix`, `stem` |
| `UrlEscaping` | `url_escape`: space to `_`, lower-casing, UTF-8, percent-encoding with `/` kept safe (`urllib.parse.quote`), and a decoder used to state what the encoding keeps |
| `ConfigLoader` | `load_config`: the defaults dictionary (a class, updated in place) and the merge |
| `Walker` | `walk` over an abstract directory tree: a specification by recursion, and a method with an explicit work list that stands for `os.walk` with in-place pruning |
| `MarkdownAdapter` | the renderer hooks (a class holding the shared `info` dictionary), the front-matter split and `Markdown.render` |
| `Resources` | `Resource.__init__` path arithmetic, the base URL, `Static` |
| `Pages` | post detection, metadata defaults, the layout wrap and its inverse, `Page` (a class whose `meta`, `source` and `title` are set as the source sets them) |
| `Sites` | `Site.is_ignore`, the routing of files into pages and statics, `Site()` as nested loops over the walk, `Site.build`, `generate()` |

Foreign code is passed in as parameters. These are:
- the markdown lexer, as a function from text to a list of paragraph and
  header events;
- the YAML parser, as a function from text to a mapping;
- reading a file, as a function from path to contents or nothing;
- the file creation time, as a function from path to date.

Each operation is stated as a function (`SiteSpec`, `PageSpec`, `RenderSpec`,
`ConfigOf`, `WalkFrom`, `GenerateSpec`). The methods that update objects are
proved to agree with those functions. The properties are proved about the
functions.

The model follows the code as written, with one exception. The URL of a
resource is built from the resolved output name, as the output path on
`generate.py:113` is. As written, `generate.py:110` builds it from the
`output_name` argument and raises for every static file. So in the model
a site with static files loads, where the code as written fails. "## Findings"
records this, and `Resources.UrlAsWritten` models the code as written. In
these cases the code does something a reader might not expect, and the model
does the same:
- **Four-digit years.** A post name with a year of other than two digits,
  such as `2024-03-05-x.md`, keeps its year as a string, and `datetime`
  raises. The model gives an error (`LongYearPostExample`), not a 2024 post.
- **Title.** Every level-1 header overwrites `title`, so the last one wins,
  not the first (`LastTitleSnoc`, `TitleOfScanned`).
- **Collisions.** Output paths are not collision-free. `index.md` and
  `index.html` in one directory write the same `index.html`
  (`IndexPagesCollide`). In general two pages collide exactly when their
  stems are equal (`PageOutputsCollide`).
- **Precedence.** After `meta.update(context)`, front-matter keys win over
  scanned keys, and both win over the built-in defaults (`FrontMatterWins`,
  `RenderWithFrontMatter`).

## Model

| member | source | states |
|---|---|---|
| `Values.Overlay` | support.py:37 | `dict.update`: the keys are the union; a key of the update takes its value, every other key keeps the old one |
| `Values.DecimalRoundTrip` | generate.py:163-165 | `int()` of the decimal spelling of `n` is `n` |
| `Values.DigitsValueAppend` | generate.py:163 | the value of a concatenation of digit strings is the first shifted by the second's length plus the second; `'20' + yy` is `2000 + yy` |
| `Paths.ParseFormat` | generate.py:107-113 | formatting a path and parsing it again gives the same path |
| `Paths.RootOf` | generate.py:19-20 | the root of a parsed path: none without a leading `/`, `//` for exactly two leading slashes, `/` otherwise |
| `Paths.ParseDoubleSlash` | generate.py:109-110 | `//host` parses with the root `//` kept, `///host` with the root `/` |
| `Paths.SegmentsOfJoin` | generate.py:107-113 | splitting components joined with `/` gives the components back |
| `Paths.Suffix` | generate.py:81 | `Path.suffix`: empty, or a dot followed by at least one character and no further dot, and it ends the name |
| `Paths.SuffixRule` | generate.py:81 | pathlib's rule: a name has a suffix exactly when it has a dot after its first character and does not end in a dot; the suffix then runs from the last dot |
| `Paths.Stem` | generate.py:149 | `Path.stem`: the stem followed by the suffix is the name; a non-empty name has a non-empty stem |
| `Paths.LastDot` | generate.py:130 | the index of the last dot, or -1 when there is none |
| `UrlEscaping.UrlEscapeDecodes` | support.py:60-62 | percent-decoding the escaped text gives the UTF-8 of the text with spaces as `_` and ASCII letters lower-cased: nothing is lost |
| `UrlEscaping.UnquoteQuote` | support.py:62 | `quote` is inverted by percent-decoding, for every byte string |
| `UrlEscaping.UnquoteQuoteByte` | support.py:62 | one quoted byte decodes to itself in front of whatever the rest decodes to |
| `UrlEscaping.QuoteAlphabet` | support.py:62 | every character of `quote`'s output is an unreserved character, `/`, `%` or an upper-case hex digit |
| `UrlEscaping.QuoteUnsafe` | support.py:62 | bytes outside the safe set become three characters each, starting with `%` |
| `UrlEscaping.UrlEscapeNoSpaceOrQuote` | support.py:60-62 | the result has no space and no `"` (so it is a valid `id` attribute value) |
| `UrlEscaping.UrlEscapeAsciiChar` | support.py:60-62 | a space becomes `_`; an upper-case letter becomes its lower-case letter; another safe character is kept; any other ASCII character becomes `%XX` with upper-case hex |
| `UrlEscaping.UrlEscapeNonAsciiChar` | support.py:62 | a non-ASCII character becomes `%XX` once per byte of its UTF-8 encoding |
| `UrlEscaping.UrlEscapeAppend` | support.py:60-62 | escaping distributes over concatenation |
| `UrlEscaping.CharUtf8` | support.py:62 | UTF-8 encoding of one character: one to four bytes, one byte exactly for ASCII, only bytes of at least 0x80 otherwise |
| `UrlEscaping.Utf8Append` | support.py:62 | UTF-8 encoding distributes over concatenation |
| `UrlEscaping.HexRoundTrip` | support.py:62 | the hex digit written for `d` reads back as `d` |
| `ConfigLoader.Dict.Update` | support.py:37 | `default.update(config)` changes the dictionary in place to the overlay |
| `ConfigLoader.LoadConfig` | support.py:33-38 | an unreadable file or a non-mapping document fails and leaves the defaults alone; otherwise the defaults are updated in place with every key of the file, and the same dictionary is returned |
| `ConfigLoader.ConfigDefaults` | generate.py:12-18 | the settings hold every file key with the file's value, and `site_path`, `target_path` and `document_path` with their defaults `site`, `target` and `document` where the file has none |
| `Walker.Keep` | support.py:51 | the kept files are exactly the files that are not ignored |
| `Walker.KeepDirs` | support.py:50 | the kept subdirectories are exactly those whose names are not ignored |
| `Walker.WalkFrom` | support.py:49-52 | the first entry is the walk root itself, with the root's kept files; every entry's path extends the root's path |
| `Walker.WalkAll` | support.py:49-52 | entries below a list of subdirectories lie strictly below the parent |
| `Walker.WalkFromSound` | support.py:49-52 | every entry is a directory reachable from the root through kept directories, with that directory's kept files and its path relative to the root |
| `Walker.WalkAllSound` | support.py:49-52 | every entry below a list of subdirectories is reached through one kept subdirectory of that list |
| `Walker.WalkFromComplete` | support.py:49-52 | every directory reachable through kept directories is yielded |
| `Walker.WalkAllComplete` | support.py:49-52 | every directory reachable through a kept subdirectory of the list is yielded |
| `Walker.WalkFromDistinct` | support.py:49-52 | in a tree whose sibling directories have distinct names, no two entries have the same path: with `WalkFromSound` and `WalkFromComplete`, each visited directory is yielded exactly once |
| `Walker.WalkAllDistinct` | support.py:49-52 | the same for the walks of a list of sibling directories with distinct names |
| `Walker.FirstRestDiffer` | support.py:49-52 | entries under different siblings differ in the component right below the parent |
| `Walker.ReachesThroughKept` | support.py:50 | no component of a reachable directory's path is ignored |
| `Walker.WalkPrunesIgnored` | support.py:50-51 | no yielded file is ignored and no yielded path passes through an ignored directory |
| `Walker.WalkAllIsPending` | support.py:49-50 | the recursive walk of a directory list is the walk of the work list built from its kept subdirectories |
| `Walker.PendingStep` | support.py:49-52 | taking the top of the work list yields its entry, then walks its kept subdirectories before the rest: the top-down order of `os.walk` |
| `Walker.Walk` | support.py:48-52 | the work-list walk yields exactly the entries of the recursive specification |
| `MarkdownAdapter.StripSpaces` | generate.py:35 | `strip(' ')`: the result does not start or end with a space and is no longer than the input |
| `MarkdownAdapter.StripPadding` | generate.py:35 | stripping removes exactly the spaces padding a text that has none at either end |
| `MarkdownAdapter.Scanned` | generate.py:34-42 | the hooks record only `excerpt` and `title`; `excerpt` exactly when there is a paragraph, `title` exactly when there is a level-1 header, and then the last header's text |
| `MarkdownAdapter.FirstParagraphSnoc` | generate.py:36-37 | a further event changes the excerpt only when none is set yet and the event is a paragraph |
| `MarkdownAdapter.LastTitleSnoc` | generate.py:41-42 | a level-1 header replaces the title; any other event keeps it |
| `MarkdownAdapter.FeedScans` | generate.py:34-42 | feeding the events one by one to the hooks, starting from an empty `info`, gives the scanned metadata |
| `MarkdownAdapter.HtmlAt` | generate.py:59 | the HTML of an event list is the HTML of each event in order |
| `MarkdownAdapter.ConcatMapAppend` | generate.py:59 | the HTML of two event lists is the HTML of each in turn |
| `MarkdownAdapter.AttributeValueOf` | generate.py:44 | the attribute value read after a prefix is the text up to the next `"` |
| `MarkdownAdapter.HeaderAnchor` | generate.py:43-44 | the `id` attribute read back from a header's HTML is `url_escape` of its text |
| `MarkdownAdapter.LastSeparator` | generate.py:29 | the found `---\n` is a separator and no later one exists up to the bound; with none found, there is none in the range |
| `MarkdownAdapter.FrontMatterPresence` | generate.py:29 | front matter is found exactly when the text starts with `---\n` and has another `---\n` after it |
| `MarkdownAdapter.NoSeparatorAfter` | generate.py:29 | no `---\n` starts inside the body that follows the last separator |
| `MarkdownAdapter.FrontMatterRoundTrip` | generate.py:29 | `---\n` + metadata + `---\n` + a body without a further separator splits back into that metadata and that body (the greedy match runs to the last separator) |
| `MarkdownAdapter.RenderWithoutFrontMatter` | generate.py:50-63 | without front matter the result is the HTML of the whole text with only the scanned metadata |
| `MarkdownAdapter.RenderWithFrontMatter` | generate.py:50-63 | with front matter the body after it is rendered; the metadata keys are the scanned keys and the front-matter keys; front-matter values win, a front-matter `excerpt` is itself rendered, and scanned values fill the rest |
| `MarkdownAdapter.Renderer.constructor` | generate.py:32 | the shared `info` starts empty |
| `MarkdownAdapter.Renderer.Paragraph` | generate.py:34-38 | returns `<p>` around the stripped text, and sets `excerpt` only when it is unset |
| `MarkdownAdapter.Renderer.Header` | generate.py:40-44 | returns the header HTML with `id` = `url_escape(text)`, and sets `title` for level 1 |
| `MarkdownAdapter.Markdown.constructor` | generate.py:46-48 | a fresh renderer with an empty `info` |
| `MarkdownAdapter.Markdown.Convert` | generate.py:59 | returns the HTML of the events and feeds them to the hooks |
| `MarkdownAdapter.Markdown.Render` | generate.py:50-63 | returns what `RenderSpec` gives; `info` is empty again after a successful call and untouched by a failed one, so nothing leaks from one page to the next |
| `Resources.PathSetting` | generate.py:19-20 | a path setting succeeds exactly when the key holds a string, and then is that string parsed as a path |
| `Resources.BaseUrl` | generate.py:109 | without `base_url` the base is `/`; otherwise it is the configured path |
| `Resources.ProtocolRelativeBase` | generate.py:109-110 | a protocol-relative `base_url` such as `//cdn.example.com` keeps its `//` root |
| `Resources.LocateLayout` | generate.py:104-113 | the output name is the given one or else the file name; the source path, the output path and the URL are the site root, the target root and the base, each followed by the relative directory and the file or output name |
| `Resources.StaticUrlAsWrittenFails` | generate.py:110 | with the URL as written, a resource built without an output name (every static) fails |
| `Resources.UrlAsWrittenAgrees` | generate.py:110 | with an output name given, as every page gives one, the written URL equals the corrected one |
| `Resources.Static.constructor` | generate.py:189-190 | a static is located with no output name, so it is written under its own name |
| `Resources.Static.Build` | generate.py:192-193 | building a static copies its source path to its output path |
| `Pages.PageOutputNameShape` | generate.py:130 | a page's output name is one path component with suffix `.html` and the page's stem, and naming it again changes nothing |
| `Pages.PageOutputLast` | generate.py:113 | a page's output path is its output name under the target directory of its relative directory |
| `Pages.PageOutputsCollide` | generate.py:130 | two pages in one directory get the same output path exactly when their stems are equal |
| `Pages.IndexPagesCollide` | generate.py:130 | `x.md` and `x.html` in one directory have the same output path |
| `Pages.LastDotOfHtml` | generate.py:130 | the last dot of `stem + ".html"` is just after the stem |
| `Pages.DigitRun` | generate.py:127 | `\d+` runs to the first non-digit: every character in the run is a digit and the next one is not |
| `Pages.DigitGroup` | generate.py:127 | a matched group is a non-empty digit string followed by `-` and the rest of the name |
| `Pages.DigitGroupOf` | generate.py:127 | a digit string followed by `-` matches as that group |
| `Pages.MatchPost` | generate.py:127 | a match gives three non-empty digit groups |
| `Pages.MatchPostComposed` | generate.py:127 | a name made of three digit groups, each followed by `-`, and a non-empty rest matches with exactly those groups |
| `Pages.MatchPostDecomposes` | generate.py:127 | a matching name is the three groups joined by `-`, then `-` and a non-empty rest |
| `Pages.DaysInMonth` | generate.py:166 | a month has 28 to 31 days |
| `Pages.LeapDay` | generate.py:166 | 29 February is a valid date exactly in the leap years from 1 to 9999 |
| `Pages.NotLeapDay` | generate.py:166 | 29 February is not a valid date in a year that is not a multiple of 4 |
| `Pages.PageTypeAndCreation` | generate.py:157-168 | a name that does not match is not a post and takes the creation time; a post's date is a valid date at midnight |
| `Pages.TwentyPrefix` | generate.py:163 | `'20' + yy` is a digit string worth `2000 + yy` |
| `Pages.PostDate` | generate.py:160-166 | a two-digit year `yy` gives year `2000 + yy` with the parsed month and day, or an error when that is not a date |
| `Pages.PostYearNotTwoDigits` | generate.py:161-166 | a year of other than two digits is an error, whatever the month and day |
| `Pages.TwoDigits` | generate.py:164-165 | the value of a two-digit string |
| `Pages.TwoDigitGroupsPost` | generate.py:160-166 | for two-digit groups the post date is read off the digits directly |
| `Pages.ShortYearPostExample` | generate.py:157-166 | any name `24-03-05-<title>` is a post of 5 March 2024 |
| `Pages.LongYearPostExample` | generate.py:157-166 | any name `2024-03-05-<title>` is an error, not a post |
| `Pages.InvalidDatePostExample` | generate.py:157-166 | any name `23-02-29-<title>` is an invalid-date error |
| `Pages.InitialMeta` | generate.py:134-144 | the defaults hold exactly `layout`, `category`, `published`, `excerpt`; `published` is true and `excerpt` empty; the layout is `post` for a post, else `default` for markdown, else empty; the category is the directory name for markdown, else empty |
| `Pages.DefaultTitle` | generate.py:146-149 | with nothing scanned and no front matter, the title is the file stem and the page is published |
| `Pages.TemplateNotMarkdown` | generate.py:133 | a `.html` or `.htm` file is not markdown |
| `Pages.FirstQuote` | generate.py:176 | a found quote is at or after the start and is a `"` |
| `Pages.FirstQuoteOf` | generate.py:176 | the first `"` at or after a position is found there |
| `Pages.WrapUnwrap` | generate.py:175-178 | the layout wrapper can be taken apart again into the layout name and the content, for a layout name without `"` |
| `Pages.PartsRoundTrip` | generate.py:176-177 | splitting a wrapper at its fixed parts gives back the name and the content |
| `Pages.PartsQuote` | generate.py:176 | the first `"` after the prefix closes the layout name |
| `Pages.RenderPage` | generate.py:170-179 | rendering keeps every key the page had; a template is wrapped as it was read, with its meta unchanged |
| `Pages.PageSpecPublished` | generate.py:134-144 | every page that loads keeps the `published` key of its defaults |
| `Pages.TitleOfScanned` | generate.py:146-149 | without front matter the title is the last level-1 header, or else the file stem |
| `Pages.FrontMatterWins` | generate.py:174 | every front-matter key except `excerpt` ends up in the page meta with its front-matter value |
| `Pages.PlainMarkdownRender` | generate.py:140-174 | a markdown page without front matter keeps its layout and category defaults and gets the scanned title or the stem, and its source is the wrapped HTML |
| `Pages.MarkdownWithoutFrontMatter` | generate.py:129-179 | the same for a whole page, from its file |
| `Pages.PlainTemplateVerbatim` | generate.py:129-179 | a template page that is not a post is its file verbatim, with the default meta, the stem as title, and published |
| `Pages.Page.constructor` | generate.py:129-144 | the meta starts as the defaults |
| `Pages.Page.Render` | generate.py:170-179 | returns the source read, rendered and wrapped; on success the meta is the merged meta, on failure the meta is unchanged |
| `Pages.Page.Build` | generate.py:181-185 | an unpublished page writes nothing; a published page writes its source with its meta to its output path |
| `Pages.NewPage` | generate.py:129-149 | constructing a page fails exactly when the page specification fails, with the same error; otherwise the object holds the specified state |
| `Pages.RenderedPage` | generate.py:145-149 | after rendering, the page holds the rendered source, the merged meta, and the title from the meta or else the stem |
| `Sites.IsIgnore` | generate.py:93-94 | a name is ignored exactly when it starts with `_` |
| `Sites.EntryRoutes` | generate.py:79-80 | a walk entry gives one route per file, in order, under the entry's relative path |
| `Sites.DiscoveredPrefix` | generate.py:77-80 | the files of the first entries come first |
| `Sites.DiscoveredFrom` | generate.py:77-80 | every discovered route is a file of some entry |
| `Sites.SiteSkipsUnderscored` | generate.py:77-80 | no discovered file is ignored, and no directory on its relative path is |
| `Sites.FilterPartition` | generate.py:81-84 | kept and rejected elements together are the input, as a multiset |
| `Sites.FilterMembers` | generate.py:81-84 | an element is kept exactly when it is in the input and passes the test, rejected exactly when it fails it |
| `Sites.FilterAppend` | generate.py:81-84 | routing distributes over concatenation |
| `Sites.RoutingPartition` | generate.py:81-84 | every discovered file goes to exactly one of pages and statics, and to pages exactly when its suffix is a template or markdown suffix |
| `Sites.RoutesStep` | generate.py:81-84 | one more file adds a page or a static according to its suffix |
| `Sites.LoadPages` | generate.py:82 | loading succeeds exactly when every page loads, and gives each page's state in order |
| `Sites.LoadPagesStep` | generate.py:82 | one more page that loads appends its state |
| `Sites.LoadPagesStops` | generate.py:82 | after a page fails, later pages change nothing: the first failure is the result |
| `Sites.StaticLocations` | generate.py:84 | one location per static, each located without an output name |
| `Sites.PageActions` | generate.py:87-88 | building the pages only ever writes |
| `Sites.CopyActions` | generate.py:89-90 | building the statics copies each one, in order |
| `Sites.SitePagesPublished` | generate.py:181-182 | every page of a loaded site holds `published`, so the build never fails for lack of it |
| `Sites.PublishedPagesOnly` | generate.py:181-185 | an action is among the page writes exactly when it is the write of a published page |
| `Sites.PageActionsStep` | generate.py:87-88 | one more page adds its write when it is published |
| `Sites.CopyActionsStep` | generate.py:89-90 | one more static adds its copy |
| `Sites.WritesBeforeCopies` | generate.py:86-90 | no write comes after a copy |
| `Sites.LoadPage` | generate.py:82 | constructing the page of a route agrees with the loader |
| `Sites.Site.constructor` | generate.py:70-75 | a new site has no pages and no statics |
| `Sites.Site.AddPage` | generate.py:82 | appending a page adds its state and leaves the statics alone |
| `Sites.Site.AddStatic` | generate.py:84 | appending a static adds its location and leaves the pages alone |
| `Sites.Site.AddFile` | generate.py:81-84 | one file becomes a page or a static by its suffix; a page that fails to load stops the run with its error |
| `Sites.Site.AddEntry` | generate.py:79-84 | the files of one directory in order; on failure, the failing page follows pages that all loaded |
| `Sites.Site.AddDirectory` | generate.py:77-84 | one directory of the walk, with the base-URL check before its first file |
| `Sites.Site.AddEntries` | generate.py:77-84 | the whole walk: the site's pages and statics are those of `SiteSpec`, or the run fails with its error |
| `Sites.Site.Load` | generate.py:70-84 | `Site()` succeeds exactly when `SiteSpec` does, and then holds its title, pages and statics |
| `Sites.Site.Build` | generate.py:86-90 | the actions are every published page's write, in page order, then every static's copy; no write comes after a copy |
| `Sites.DiscoveredStep` | generate.py:77-80 | one more directory appends its files |
| `Sites.EntryFailureSpec` | generate.py:79-82 | a page failing inside a directory is the site's error |
| `Sites.PageFailureSpec` | generate.py:82 | the first page that fails gives the site's error |
| `Sites.FirstFailure` | generate.py:82 | a page that fails after pages that loaded is the error of all pages |
| `Sites.Generate` | generate.py:196-198 | a whole run gives what `GenerateSpec` gives: configuration, paths, the site, then its build |

## Left out

- mistune's markdown-to-HTML conversion is a parameter. It is a function from
  text to a flat list of paragraph, header and other events. Nested blocks
  are flattened into that list, and the HTML of an event other than a
  paragraph or a header is taken as given.
- YAML parsing is a parameter, from text to a mapping or a non-mapping.
  Non-string keys are not modelled.
- Jinja2 is not modelled. Building a page yields a `Write` action holding
  the template source and the meta, not the rendered text. Building a static
  yields a `Copy` action.
- Filesystem I/O is a parameter: reading a file, the creation time
  (`creation_time`) and the directory tree. `os.walk`'s listing order is
  taken as the order of the tree's lists.
- The logger, the module-level globals and `__getattr__` are left out.
  `config`, `env` and `logger` are plumbing; the model passes the
  configuration explicitly. `__getattr__` is only a map lookup.
- `Site.categories` is left out: the source never fills it.
- UrlEscaping.Lower: `str.lower()` is modelled on ASCII letters only.
  Other characters are taken unchanged, not Unicode case-folded.
- UrlEscaping.UrlEscapeDecodes: states the lower-casing of ASCII letters
  only, as `UrlEscaping.Lower` models it.
- UrlEscaping.UrlEscapeNonAsciiChar: a non-ASCII capital is encoded as it
  is, without Python's case folding first.
- UrlEscaping.UrlEscapeAppend: holds for the model's lower-casing only.
  Python lower-cases a capital sigma by its context (final or not), so the
  source's `url_escape` does not split over concatenation.
- Pages.DigitRun: `\d` is taken as the ASCII digits `0-9` only; Python's
  `\d` also matches other Unicode decimal digits.
- Pages.DigitGroup: the same ASCII reading of `\d`.
- Pages.MatchPost: the same ASCII reading of `\d`; a name with non-ASCII
  decimal digits in its groups does not match here.
- Pages.PageTypeAndCreation: the same ASCII reading of `\d`; such a name
  is not a post here.
- ConfigLoader.LoadConfig: a YAML document that is not a mapping is an
  error here, while `dict.update` accepts some such values, such as a list
  of pairs.
- Values.Value: YAML values are strings, booleans, integers and null only.
  Floats, dates, lists and nested mappings (such as `tags: [a, b]` in front
  matter) have no representation. Front matter that is not a mapping is an
  error here (`MarkdownAdapter.RenderSpec`), while `info.update(meta)`
  accepts a list of pairs.
- Sites.Site.AddDirectory: a bad `base_url` is checked once per directory
  before its first file, not once per file. The outcome is the same: the
  first file of the walk fails with that error either way.
- Pages.WrapUnwrap: holds only for layout names without `"`, because the
  wrapper has no quoting.

## Findings

| source | as written | input that shows it | evidently intended | confidence | as-written member | corrected member |
|---|---|---|---|---|---|---|
| generate.py:110 | the URL is built from the `output_name` argument, which is `None` for every static, so `base / relative / None` raises `TypeError` | any static file, such as `style.css`, in any directory | the URL is built from the resolved `self.output_name`, like the output path on line 113 | not executed | `Resources.UrlAsWritten`, `Resources.StaticUrlAsWrittenFails` | `Resources.Locate`, `Resources.LocateLayout` |

The rest of the model uses `Resources.Locate`. For pages the two agree
(`Resources.UrlAsWrittenAgrees`).
