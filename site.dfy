/**
 * `Site`: walks the site directory, makes every template or markdown file
 * a page and every other file a static copy, and builds all pages before
 * all statics. `Generate` is the whole run, from the configuration file to
 * the list of writes and copies.
 */
module Sites {
  import opened Wrappers
  import opened Paths
  import opened Values
  import opened Walker
  import opened Resources
  import opened Pages
  import opened ConfigLoader
  import opened MarkdownAdapter

  /** `Site.is_ignore`: names starting with `_` (layouts, drafts) are skipped. */
  function IsIgnore(name: string): (r: bool)
    ensures r <==> |name| > 0 && name[0] == '_'
  {
    "_" <= name
  }

  /** A discovered file: its directory below the site root and its name. */
  datatype Route = Route(relative: PurePath, filename: string)

  /** The files of one walked directory, in listing order. */
  function EntryRoutes(e: Entry): (r: seq<Route>)
    ensures |r| == |e.files|
    ensures forall i :: 0 <= i < |r| ==> r[i] == Route(PurePath("", e.path), e.files[i])
  {
    seq(|e.files|, i requires 0 <= i < |e.files| => Route(PurePath("", e.path), e.files[i]))
  }

  /** Every file of the walk, in the order the two nested loops of `Site.__init__` meet them. */
  function Discovered(entries: seq<Entry>): seq<Route> {
    if entries == [] then [] else Discovered(entries[..|entries| - 1]) + EntryRoutes(entries[|entries| - 1])
  }

  /** The walk order is kept: discovering a prefix of the entries gives a prefix of the routes. */
  lemma {:induction false} DiscoveredPrefix(entries: seq<Entry>, i: nat)
    requires i <= |entries|
    ensures Discovered(entries[..i]) <= Discovered(entries)
    decreases |entries|
  {
    if i < |entries| {
      var init := entries[..|entries| - 1];
      assert entries[..i] == init[..i];
      DiscoveredPrefix(init, i);
    } else {
      assert entries[..i] == entries;
    }
  }

  /** A discovered route is a file of some walked directory. */
  lemma {:induction false} DiscoveredFrom(entries: seq<Entry>, k: nat) returns (i: nat, j: nat)
    requires k < |Discovered(entries)|
    ensures i < |entries| && j < |entries[i].files|
    ensures Discovered(entries)[k] == Route(PurePath("", entries[i].path), entries[i].files[j])
    decreases |entries|
  {
    var init := entries[..|entries| - 1];
    if k < |Discovered(init)| {
      i, j := DiscoveredFrom(init, k);
    } else {
      i, j := |entries| - 1, k - |Discovered(init)|;
    }
  }

  /**
   * Nothing under the site root whose name, or the name of a directory on
   * its way, starts with `_` becomes a page or a static file.
   */
  lemma SiteSkipsUnderscored(tree: Tree, k: nat)
    requires k < |Discovered(WalkFrom([], tree, IsIgnore))|
    ensures var route := Discovered(WalkFrom([], tree, IsIgnore))[k];
      && !IsIgnore(route.filename)
      && forall n :: 0 <= n < |route.relative.parts| ==> !IsIgnore(route.relative.parts[n])
  {
    var entries := WalkFrom([], tree, IsIgnore);
    var i, j := DiscoveredFrom(entries, k);
    WalkPrunesIgnored(tree, IsIgnore, i);
    assert entries[i].files[j] in entries[i].files;
  }

  /** The elements of `xs` that `keep` accepts, in order. */
  function Filter<T>(keep: T -> bool, xs: seq<T>): seq<T>
  {
    if xs == [] then []
    else Filter(keep, xs[..|xs| - 1]) + (if keep(xs[|xs| - 1]) then [xs[|xs| - 1]] else [])
  }

  /** The elements of `xs` that `keep` refuses, in order. */
  function Reject<T>(keep: T -> bool, xs: seq<T>): seq<T>
  {
    if xs == [] then []
    else Reject(keep, xs[..|xs| - 1]) + (if keep(xs[|xs| - 1]) then [] else [xs[|xs| - 1]])
  }

  /** Filtering and rejecting split a sequence: each element lands on exactly one side, as often as it occurs. */
  lemma {:induction false} FilterPartition<T>(keep: T -> bool, xs: seq<T>)
    ensures multiset(Filter(keep, xs)) + multiset(Reject(keep, xs)) == multiset(xs)
  {
    if xs != [] {
      var init, last := xs[..|xs| - 1], xs[|xs| - 1];
      FilterPartition(keep, init);
      assert xs == init + [last];
      FilterSnoc(keep, init, last);
      PartitionSnoc(Filter(keep, init), Reject(keep, init), init, last);
    }
  }

  /** A split of `xs` stays a split of `xs + [x]` when `x` joins either side. */
  lemma PartitionSnoc<T>(f: seq<T>, r: seq<T>, xs: seq<T>, x: T)
    requires multiset(f) + multiset(r) == multiset(xs)
    ensures multiset(f + [x]) + multiset(r) == multiset(xs + [x])
    ensures multiset(f) + multiset(r + [x]) == multiset(xs + [x])
  {
    assert multiset(xs + [x]) == multiset(xs) + multiset{x};
    assert multiset(f + [x]) == multiset(f) + multiset{x};
    assert multiset(r + [x]) == multiset(r) + multiset{x};
  }

  /** Exactly the accepted elements are kept, and exactly the refused ones rejected. */
  lemma {:induction false} FilterMembers<T>(keep: T -> bool, xs: seq<T>, x: T)
    ensures x in Filter(keep, xs) <==> x in xs && keep(x)
    ensures x in Reject(keep, xs) <==> x in xs && !keep(x)
  {
    if xs != [] {
      var init := xs[..|xs| - 1];
      FilterMembers(keep, init, x);
      assert xs == init + [xs[|xs| - 1]];
    }
  }

  lemma {:induction false} FilterAppend<T>(keep: T -> bool, a: seq<T>, b: seq<T>)
    ensures Filter(keep, a + b) == Filter(keep, a) + Filter(keep, b)
    ensures Reject(keep, a + b) == Reject(keep, a) + Reject(keep, b)
    decreases |b|
  {
    if b != [] {
      var init, last := b[..|b| - 1], b[|b| - 1];
      assert a + b == (a + init) + [last];
      assert b == init + [last];
      FilterAppend(keep, a, init);
      FilterSnoc(keep, a + init, last);
      FilterSnoc(keep, init, last);
      var kept, refused := if keep(last) then [last] else [], if keep(last) then [] else [last];
      AppendAssoc(Filter(keep, a), Filter(keep, init), kept);
      AppendAssoc(Reject(keep, a), Reject(keep, init), refused);
    } else {
      assert a + b == a;
    }
  }

  /** One more element is kept or rejected according to `keep`. */
  lemma FilterSnoc<T>(keep: T -> bool, xs: seq<T>, x: T)
    ensures Filter(keep, xs + [x]) == Filter(keep, xs) + (if keep(x) then [x] else [])
    ensures Reject(keep, xs + [x]) == Reject(keep, xs) + (if keep(x) then [] else [x])
  {
    assert (xs + [x])[..|xs|] == xs;
  }

  /** A file that becomes a page. */
  predicate IsPageRoute(route: Route) {
    IsPageName(route.filename)
  }

  /** The routes that become pages, in order. */
  function PageRoutes(routes: seq<Route>): seq<Route> {
    Filter(IsPageRoute, routes)
  }

  /** The routes that become static copies, in order. */
  function StaticRoutes(routes: seq<Route>): seq<Route> {
    Reject(IsPageRoute, routes)
  }

  /** Every discovered file is exactly one of a page or a static, as often as it is discovered. */
  lemma RoutingPartition(routes: seq<Route>, x: Route)
    ensures multiset(PageRoutes(routes)) + multiset(StaticRoutes(routes)) == multiset(routes)
    ensures x in PageRoutes(routes) <==> x in routes && IsPageName(x.filename)
    ensures x in StaticRoutes(routes) <==> x in routes && !IsPageName(x.filename)
  {
    FilterPartition(IsPageRoute, routes);
    FilterMembers(IsPageRoute, routes, x);
  }

  /** Handling one more route adds it to exactly one of the two lists. */
  lemma RoutesStep(done: seq<Route>, route: Route)
    ensures PageRoutes(done + [route]) == PageRoutes(done) + (if IsPageName(route.filename) then [route] else [])
    ensures StaticRoutes(done + [route]) == StaticRoutes(done) + (if IsPageName(route.filename) then [] else [route])
  {
    FilterAppend(IsPageRoute, done, [route]);
    assert [route][..0] == [];
  }

  /** How a route becomes a page: `Page(filename, relative)`. */
  function PageLoader(env: Env, read: PurePath -> Option<string>, ctime: PurePath -> DateTime,
                      lex: string -> seq<Block>, yaml: string -> YamlDoc): Route -> Result<PageState, Error> {
    (route: Route) => PageSpec(env, route.filename, route.relative, read, ctime, lex, yaml)
  }

  /** `load` makes every route into the page `Page(filename, relative)` makes of it. */
  ghost predicate Loads(load: Route -> Result<PageState, Error>, env: Env, read: PurePath -> Option<string>,
                        ctime: PurePath -> DateTime, lex: string -> seq<Block>, yaml: string -> YamlDoc)
  {
    forall route: Route {:trigger PageSpec(env, route.filename, route.relative, read, ctime, lex, yaml)} ::
      load(route) == PageSpec(env, route.filename, route.relative, read, ctime, lex, yaml)
  }

  lemma PageLoaderLoads(env: Env, read: PurePath -> Option<string>, ctime: PurePath -> DateTime,
                        lex: string -> seq<Block>, yaml: string -> YamlDoc)
    ensures Loads(PageLoader(env, read, ctime, lex, yaml), env, read, ctime, lex, yaml)
  {
  }

  /** The pages of `routes` in order, or the error of the first one that fails. */
  function LoadPages(load: Route -> Result<PageState, Error>, routes: seq<Route>): (r: Result<seq<PageState>, Error>)
    ensures r.Success? <==> forall i :: 0 <= i < |routes| ==> load(routes[i]).Success?
    ensures r.Success? ==> |r.value| == |routes|
    ensures r.Success? ==> forall i :: 0 <= i < |routes| ==> load(routes[i]) == Success(r.value[i])
  {
    if routes == [] then Success([])
    else
      var init := routes[..|routes| - 1];
      var last := routes[|routes| - 1];
      match LoadPages(load, init)
      case Failure(e) => Failure(e)
      case Success(states) =>
        match load(last)
        case Failure(e) => Failure(e)
        case Success(p) => Success(states + [p])
  }

  /** One more route that loads adds its page. */
  lemma LoadPagesStep(load: Route -> Result<PageState, Error>, routes: seq<Route>, route: Route,
                      states: seq<PageState>, state: PageState)
    requires LoadPages(load, routes) == Success(states) && load(route) == Success(state)
    ensures LoadPages(load, routes + [route]) == Success(states + [state])
  {
    assert (routes + [route])[..|routes|] == routes;
  }

  /** Once a page fails, later routes change nothing: the run stops at the first failure. */
  lemma {:induction false} LoadPagesStops(load: Route -> Result<PageState, Error>, a: seq<Route>, b: seq<Route>)
    requires LoadPages(load, a).Failure?
    ensures LoadPages(load, a + b) == LoadPages(load, a)
    decreases |b|
  {
    if b != [] {
      var init := b[..|b| - 1];
      assert (a + b)[..|a + b| - 1] == a + init;
      LoadPagesStops(load, a, init);
    } else {
      assert a + b == a;
    }
  }

  /** Where each static of `routes` is copied from and to. */
  function StaticLocations(env: Env, routes: seq<Route>): (r: seq<Location>)
    ensures |r| == |routes|
    ensures forall i :: 0 <= i < |routes| ==> r[i] == Locate(env, routes[i].filename, routes[i].relative, None)
  {
    seq(|routes|, i requires 0 <= i < |routes| => Locate(env, routes[i].filename, routes[i].relative, None))
  }

  /** One more static route adds its location. */
  lemma StaticLocationsStep(env: Env, routes: seq<Route>, route: Route)
    ensures StaticLocations(env, routes + [route]) ==
      StaticLocations(env, routes) + [Locate(env, route.filename, route.relative, None)]
  {
    assert (routes + [route])[|routes|] == route;
  }

  /** Every page of a loaded site holds `published`, so `Site.build` never misses it. */
  lemma SitePagesPublished(config: map<string, Value>, env: Env, routes: seq<Route>, read: PurePath -> Option<string>,
                           ctime: PurePath -> DateTime, lex: string -> seq<Block>, yaml: string -> YamlDoc)
    ensures var s := SiteSpec(config, env, routes, PageLoader(env, read, ctime, lex, yaml));
      s.Success? ==> forall i :: 0 <= i < |s.value.pages| ==> "published" in s.value.pages[i].meta
  {
    var s := SiteSpec(config, env, routes, PageLoader(env, read, ctime, lex, yaml));
    if s.Success? {
      var pageRoutes := PageRoutes(routes);
      forall i | 0 <= i < |s.value.pages|
        ensures "published" in s.value.pages[i].meta
      {
        PageSpecPublished(env, pageRoutes[i].filename, pageRoutes[i].relative, read, ctime, lex, yaml);
      }
    }
  }

  /** What a loaded site holds. */
  datatype SiteState = SiteState(title: Value, pages: seq<PageState>, statics: seq<Location>)

  /** The settings a resource is built with; the base URL is read only when a resource is made. */
  function SiteEnv(config: map<string, Value>, site: PurePath, target: PurePath): Env {
    var base := BaseUrl(config);
    Env(site, target, if base.Success? then base.value else PurePath("/", []))
  }

  /**
   * `Site()`: the title, then every discovered file, in walk order, as a
   * page (made by `load`) or a static (located in `env`).
   */
  function SiteSpec(config: map<string, Value>, env: Env, routes: seq<Route>, load: Route -> Result<PageState, Error>)
    : Result<SiteState, Error>
  {
    if "title" !in config then Failure(MissingKey("title"))
    else
      if routes != [] && BaseUrl(config).Failure? then Failure(BaseUrl(config).error)
      else
        match LoadPages(load, PageRoutes(routes))
        case Failure(e) => Failure(e)
        case Success(states) => Success(SiteState(config["title"], states, StaticLocations(env, StaticRoutes(routes))))
  }

  /** What `Page.build` does for each page in order: a write for every published page. */
  function PageActions(states: seq<PageState>): (r: seq<Action>)
    requires forall i :: 0 <= i < |states| ==> "published" in states[i].meta
    ensures forall i :: 0 <= i < |r| ==> r[i].Write?
  {
    if states == [] then []
    else
      var init := states[..|states| - 1];
      var s := states[|states| - 1];
      PageActions(init) + (if Truthy(s.meta["published"]) then [Write(s.loc.outputPath, s.source, s.meta)] else [])
  }

  /** What `Static.build` does for each static in order. */
  function CopyActions(locs: seq<Location>): (r: seq<Action>)
    ensures |r| == |locs|
    ensures forall i :: 0 <= i < |r| ==> r[i] == Copy(locs[i].sourcePath, locs[i].outputPath)
  {
    seq(|locs|, i requires 0 <= i < |locs| => Copy(locs[i].sourcePath, locs[i].outputPath))
  }

  /**
   * The publish gate over a whole site: a write is produced exactly for
   * each page whose `published` is truthy, with its output path, its
   * source and its meta.
   */
  lemma {:induction false} PublishedPagesOnly(states: seq<PageState>, a: Action)
    requires forall i :: 0 <= i < |states| ==> "published" in states[i].meta
    ensures a in PageActions(states) <==>
      exists s :: s in states && Truthy(s.meta["published"]) && a == Write(s.loc.outputPath, s.source, s.meta)
  {
    if states != [] {
      var init := states[..|states| - 1];
      var s := states[|states| - 1];
      PublishedPagesOnly(init, a);
      assert states == init + [s];
      if a in PageActions(states) && a !in PageActions(init) {
        assert s in states;
      }
      if exists t :: t in states && Truthy(t.meta["published"]) && a == Write(t.loc.outputPath, t.source, t.meta) {
        var t :| t in states && Truthy(t.meta["published"]) && a == Write(t.loc.outputPath, t.source, t.meta);
        if t != s {
          assert t in init;
        }
      }
    }
  }

  /** `Page(filename, relative)` for the page file of `route`. */
  method LoadPage(env: Env, route: Route, read: PurePath -> Option<string>, ctime: PurePath -> DateTime,
                  md: MarkdownAdapter.Markdown, yaml: string -> YamlDoc, ghost load: Route -> Result<PageState, Error>)
    returns (r: Result<Page, Error>)
    requires Loads(load, env, read, ctime, md.lex, yaml)
    modifies md.renderer
    ensures r.Success? <==> load(route).Success?
    ensures r.Success? ==> fresh(r.value) && r.value.Valid() && load(route) == Success(r.value.State())
    ensures r.Failure? ==> load(route) == Failure(r.error)
  {
    assert load(route) == PageSpec(env, route.filename, route.relative, read, ctime, md.lex, yaml);
    r := NewPage(env, route.filename, route.relative, read, ctime, md, yaml);
  }

  /** The site of a run. */
  class Site {
    const config: map<string, Value>
    const title: Value
    var pages: seq<Page>
    var statics: seq<Static>
    ghost var pageStates: seq<PageState>

    /** Each page object holds the state recorded for it. */
    ghost predicate Valid()
      reads this, pages
    {
      && |pages| == |pageStates|
      && forall i :: 0 <= i < |pages| ==> pages[i].Valid() && pages[i].State() == pageStates[i]
    }

    function StaticLocs(): (r: seq<Location>)
      reads this
      ensures |r| == |statics|
    {
      var ss := statics;
      seq(|ss|, i requires 0 <= i < |ss| => ss[i].loc)
    }

    constructor (config: map<string, Value>, title: Value)
      ensures this.config == config && this.title == title
      ensures pages == [] && statics == [] && pageStates == []
    {
      this.config := config;
      this.title := title;
      pages := [];
      statics := [];
      pageStates := [];
    }

    /** `self.pages.append(page)` for the page made of `route`, the next file after `done`. */
    method AddPage(page: Page, ghost load: Route -> Result<PageState, Error>, ghost done: seq<Route>, ghost route: Route)
      requires Valid() && page.Valid()
      requires IsPageName(route.filename) && load(route) == Success(page.State())
      requires LoadPages(load, PageRoutes(done)) == Success(pageStates)
      modifies this
      ensures pageStates == old(pageStates) + [page.State()] && statics == old(statics)
      ensures StaticLocs() == old(StaticLocs())
      ensures Valid()
      ensures LoadPages(load, PageRoutes(done + [route])) == Success(pageStates)
    {
      RoutesStep(done, route);
      LoadPagesStep(load, PageRoutes(done), route, pageStates, page.State());
      ghost var oldPages := pages;
      pages := pages + [page];
      pageStates := pageStates + [page.State()];
      forall i | 0 <= i < |pages|
        ensures pages[i].Valid() && pages[i].State() == pageStates[i]
      {
        if i < |oldPages| {
          assert pages[i] == oldPages[i];
        }
      }
    }

    /** `self.statics.append(Static(filename, relative))` for `route`, the next file after `done`. */
    method AddStatic(env: Env, route: Route, ghost done: seq<Route>)
      requires !IsPageName(route.filename)
      requires Valid()
      requires StaticLocs() == StaticLocations(env, StaticRoutes(done))
      modifies this
      ensures pages == old(pages) && pageStates == old(pageStates)
      ensures Valid()
      ensures StaticLocs() == StaticLocations(env, StaticRoutes(done + [route]))
    {
      RoutesStep(done, route);
      var st := new Static(env, route.filename, route.relative);
      ghost var locs := StaticLocs();
      statics := statics + [st];
      assert Valid() by {
        forall i | 0 <= i < |pages|
          ensures pages[i].Valid() && pages[i].State() == pageStates[i]
        {
        }
      }
      assert StaticLocs() == locs + [st.loc];
      StaticLocationsStep(env, StaticRoutes(done), route);
    }

    /**
     * The body of the inner loop of `Site.__init__`: a page or a static for
     * the file of `route`, the next one after `done`.
     */
    method AddFile(env: Env, route: Route, read: PurePath -> Option<string>, ctime: PurePath -> DateTime,
                   md: MarkdownAdapter.Markdown, yaml: string -> YamlDoc,
                   ghost load: Route -> Result<PageState, Error>, ghost done: seq<Route>)
      returns (failure: Option<Error>)
      requires Loads(load, env, read, ctime, md.lex, yaml)
      requires Valid()
      requires LoadPages(load, PageRoutes(done)) == Success(pageStates)
      requires StaticLocs() == StaticLocations(env, StaticRoutes(done))
      modifies this, md.renderer
      ensures failure.Some? ==> IsPageName(route.filename) && load(route) == Failure(failure.value)
      ensures failure.None? ==>
        && Valid()
        && LoadPages(load, PageRoutes(done + [route])) == Success(pageStates)
        && StaticLocs() == StaticLocations(env, StaticRoutes(done + [route]))
    {
      if IsPageName(route.filename) {
        var page := LoadPage(env, route, read, ctime, md, yaml, load);
        if page.Failure? {
          return Some(page.error);
        }
        AddPage(page.value, load, done, route);
        RoutesStep(done, route);
      } else {
        AddStatic(env, route, done);
        RoutesStep(done, route);
        assert PageRoutes(done + [route]) == PageRoutes(done);
      }
      failure := None;
    }

    /**
     * The inner loop of `Site.__init__`: a page or a static for each file of
     * `entry`, in order. On a failure, `handled` are the files before the
     * failing `route`.
     */
    method AddEntry(env: Env, entry: Entry, read: PurePath -> Option<string>, ctime: PurePath -> DateTime,
                    md: MarkdownAdapter.Markdown, yaml: string -> YamlDoc,
                    ghost load: Route -> Result<PageState, Error>, ghost done: seq<Route>)
      returns (failure: Option<Error>, ghost handled: seq<Route>, ghost route: Route)
      requires Loads(load, env, read, ctime, md.lex, yaml)
      requires Valid()
      requires LoadPages(load, PageRoutes(done)) == Success(pageStates)
      requires StaticLocs() == StaticLocations(env, StaticRoutes(done))
      modifies this, md.renderer
      ensures failure.Some? ==>
        && handled + [route] <= EntryRoutes(entry)
        && IsPageName(route.filename)
        && LoadPages(load, PageRoutes(done + handled)).Success?
        && load(route) == Failure(failure.value)
      ensures failure.None? ==>
        && Valid()
        && LoadPages(load, PageRoutes(done + EntryRoutes(entry))) == Success(pageStates)
        && StaticLocs() == StaticLocations(env, StaticRoutes(done + EntryRoutes(entry)))
    {
      var relative := PurePath("", entry.path);
      var j := 0;
      ghost var seen := done;
      handled := [];
      route := Route(relative, "");
      assert EntryRoutes(entry)[..0] == [];
      while j < |entry.files|
        invariant 0 <= j <= |entry.files|
        invariant seen == done + EntryRoutes(entry)[..j]
        invariant Valid()
        invariant LoadPages(load, PageRoutes(seen)) == Success(pageStates)
        invariant StaticLocs() == StaticLocations(env, StaticRoutes(seen))
      {
        var file := Route(relative, entry.files[j]);
        EntryPrefixStep(done, entry, j);
        var failed := AddFile(env, file, read, ctime, md, yaml, load, seen);
        if failed.Some? {
          return failed, EntryRoutes(entry)[..j], file;
        }
        seen := seen + [file];
        j := j + 1;
      }
      assert EntryRoutes(entry)[..j] == EntryRoutes(entry);
      failure := None;
    }

    /** `Site()`: the walk, and a page or a static for each file it yields. */
    static method Load(config: map<string, Value>, site: PurePath, target: PurePath, tree: Tree,
                       read: PurePath -> Option<string>, ctime: PurePath -> DateTime,
                       md: MarkdownAdapter.Markdown, yaml: string -> YamlDoc,
                       ghost load: Route -> Result<PageState, Error>)
      returns (r: Result<Site, Error>)
      requires Loads(load, SiteEnv(config, site, target), read, ctime, md.lex, yaml)
      modifies md.renderer
      ensures var env := SiteEnv(config, site, target);
        var spec := SiteSpec(config, env, Discovered(WalkFrom([], tree, IsIgnore)), load);
        && (r.Success? <==> spec.Success?)
        && (r.Failure? ==> r.error == spec.error)
        && (r.Success? ==>
              && fresh(r.value) && r.value.Valid() && r.value.title == spec.value.title
              && r.value.pageStates == spec.value.pages && r.value.StaticLocs() == spec.value.statics)
    {
      if "title" !in config {
        return Failure(MissingKey("title"));
      }
      var s := new Site(config, config["title"]);
      var entries := Walk(tree, IsIgnore);
      var env := SiteEnv(config, site, target);
      var failure := s.AddEntries(env, entries, read, ctime, md, yaml, load);
      if failure.Some? {
        return Failure(failure.value);
      }
      LoadedSpec(config, env, Discovered(entries), load, s.pageStates);
      r := Success(s);
    }

    /** The two nested loops of `Site.__init__`: a page or a static for every file of the walk. */
    method AddEntries(env: Env, entries: seq<Entry>, read: PurePath -> Option<string>, ctime: PurePath -> DateTime,
                      md: MarkdownAdapter.Markdown, yaml: string -> YamlDoc, ghost load: Route -> Result<PageState, Error>)
      returns (failure: Option<Error>)
      requires Loads(load, env, read, ctime, md.lex, yaml)
      requires "title" in config
      requires Valid() && pageStates == [] && statics == []
      modifies this, md.renderer
      ensures failure.Some? ==> SiteSpec(config, env, Discovered(entries), load) == Failure(failure.value)
      ensures failure.None? ==>
        && Valid()
        && (Discovered(entries) != [] ==> BaseUrl(config).Success?)
        && LoadPages(load, PageRoutes(Discovered(entries))) == Success(pageStates)
        && StaticLocs() == StaticLocations(env, StaticRoutes(Discovered(entries)))
    {
      var base := BaseUrl(config);
      var i := 0;
      ghost var done: seq<Route> := [];
      while i < |entries|
        invariant 0 <= i <= |entries|
        invariant done == Discovered(entries[..i])
        invariant Valid()
        invariant done != [] ==> base.Success?
        invariant LoadPages(load, PageRoutes(done)) == Success(pageStates)
        invariant StaticLocs() == StaticLocations(env, StaticRoutes(done))
      {
        var failed := AddDirectory(env, entries, i, base, read, ctime, md, yaml, load, done);
        if failed.Some? {
          return failed;
        }
        DiscoveredStep(entries, i);
        done := done + EntryRoutes(entries[i]);
        i := i + 1;
      }
      assert entries[..i] == entries;
      failure := None;
    }

    /**
     * One pass of the outer loop of `Site.__init__`: the files of
     * `entries[i]`, after the files `done` of the directories before it.
     * Without a usable base URL, the first file of the walk is an error.
     */
    method AddDirectory(env: Env, entries: seq<Entry>, i: nat, base: Result<PurePath, Error>,
                        read: PurePath -> Option<string>, ctime: PurePath -> DateTime,
                        md: MarkdownAdapter.Markdown, yaml: string -> YamlDoc,
                        ghost load: Route -> Result<PageState, Error>, ghost done: seq<Route>)
      returns (failure: Option<Error>)
      requires Loads(load, env, read, ctime, md.lex, yaml)
      requires "title" in config && base == BaseUrl(config)
      requires i < |entries| && done == Discovered(entries[..i]) && (done != [] ==> base.Success?)
      requires Valid()
      requires LoadPages(load, PageRoutes(done)) == Success(pageStates)
      requires StaticLocs() == StaticLocations(env, StaticRoutes(done))
      modifies this, md.renderer
      ensures failure.Some? ==> SiteSpec(config, env, Discovered(entries), load) == Failure(failure.value)
      ensures failure.None? ==>
        && Valid()
        && (done + EntryRoutes(entries[i]) != [] ==> base.Success?)
        && LoadPages(load, PageRoutes(done + EntryRoutes(entries[i]))) == Success(pageStates)
        && StaticLocs() == StaticLocations(env, StaticRoutes(done + EntryRoutes(entries[i])))
    {
      var entry := entries[i];
      DiscoveredStep(entries, i);
      if base.Failure? && entry.files != [] {
        BaseFailureSpec(config, env, Discovered(entries), load, done + EntryRoutes(entry));
        return Some(base.error);
      }
      var failed, handled, route := AddEntry(env, entry, read, ctime, md, yaml, load, done);
      if failed.Some? {
        EntryFailureSpec(config, env, Discovered(entries), load, done, EntryRoutes(entry), handled, route);
        return failed;
      }
      failure := None;
    }

    /** `Site.build`: pages in order, each only when published, then every static. */
    method Build() returns (actions: seq<Action>)
      requires Valid()
      ensures forall i :: 0 <= i < |pageStates| ==> "published" in pageStates[i].meta
      ensures actions == PageActions(pageStates) + CopyActions(StaticLocs())
      ensures forall i, j :: 0 <= i < j < |actions| && actions[i].Copy? ==> actions[j].Copy?
    {
      actions := [];
      var i := 0;
      while i < |pages|
        invariant 0 <= i <= |pages|
        invariant actions == PageActions(pageStates[..i])
      {
        var a := pages[i].Build();
        PageActionsStep(pageStates, i);
        if a.Some? {
          actions := actions + [a.value];
        }
        i := i + 1;
      }
      assert pageStates[..i] == pageStates;
      var j := 0;
      while j < |statics|
        invariant 0 <= j <= |statics|
        invariant actions == PageActions(pageStates) + CopyActions(StaticLocs()[..j])
      {
        var c := statics[j].Build();
        CopyActionsStep(StaticLocs(), j);
        actions := actions + [c];
        j := j + 1;
      }
      assert StaticLocs()[..j] == StaticLocs();
      WritesBeforeCopies(pageStates, StaticLocs());
    }
  }

  /** One more page adds its write exactly when it is published. */
  lemma PageActionsStep(states: seq<PageState>, i: nat)
    requires i < |states| && forall k :: 0 <= k < |states| ==> "published" in states[k].meta
    ensures var s := states[i];
      PageActions(states[..i + 1]) == PageActions(states[..i]) +
        (if Truthy(s.meta["published"]) then [Write(s.loc.outputPath, s.source, s.meta)] else [])
  {
    assert states[..i + 1][..i] == states[..i];
  }

  /** One more static adds its copy. */
  lemma CopyActionsStep(locs: seq<Location>, j: nat)
    requires j < |locs|
    ensures CopyActions(locs[..j + 1]) == CopyActions(locs[..j]) + [Copy(locs[j].sourcePath, locs[j].outputPath)]
  {
  }

  /** `build()` writes every page before it copies any static. */
  lemma WritesBeforeCopies(states: seq<PageState>, locs: seq<Location>)
    requires forall i :: 0 <= i < |states| ==> "published" in states[i].meta
    ensures var actions := PageActions(states) + CopyActions(locs);
      forall i, j :: 0 <= i < j < |actions| && actions[i].Copy? ==> actions[j].Copy?
  {
    var writes: seq<Action>, copies: seq<Action> := PageActions(states), CopyActions(locs);
    forall i, j | 0 <= i < j < |writes + copies| && (writes + copies)[i].Copy?
      ensures (writes + copies)[j].Copy?
    {
      assert i >= |writes|;
      assert (writes + copies)[j] == copies[j - |writes|];
    }
  }

  /** Discovering one more entry appends its files. */
  lemma DiscoveredStep(entries: seq<Entry>, i: nat)
    requires i < |entries|
    ensures Discovered(entries[..i + 1]) == Discovered(entries[..i]) + EntryRoutes(entries[i])
    ensures Discovered(entries[..i + 1]) <= Discovered(entries)
  {
    assert entries[..i + 1][..i] == entries[..i];
    DiscoveredPrefix(entries, i + 1);
  }

  /** A page of one directory that fails after every earlier page loaded is the error of the whole site. */
  lemma EntryFailureSpec(config: map<string, Value>, env: Env, routes: seq<Route>, load: Route -> Result<PageState, Error>,
                         done: seq<Route>, block: seq<Route>, handled: seq<Route>, route: Route)
    requires "title" in config && BaseUrl(config).Success?
    requires done + block <= routes && handled + [route] <= block
    requires IsPageName(route.filename)
    requires LoadPages(load, PageRoutes(done + handled)).Success?
    requires load(route).Failure?
    ensures SiteSpec(config, env, routes, load) == Failure(load(route).error)
  {
    PrefixAppend(done, handled + [route], block);
    AppendAssoc(done, handled, [route]);
    PrefixTrans(done + handled + [route], done + block, routes);
    PageFailureSpec(config, env, routes, load, done + handled, route);
  }

  lemma PrefixAppend<T>(p: seq<T>, a: seq<T>, b: seq<T>)
    requires a <= b
    ensures p + a <= p + b
  {
    assert (p + b)[..|p + a|] == p + a;
  }

  lemma PrefixTrans<T>(a: seq<T>, b: seq<T>, c: seq<T>)
    requires a <= b && b <= c
    ensures a <= c
  {
    assert c[..|a|] == b[..|a|];
  }

  /** The routes of `e` up to file `j`, after `done`, grow by that file's route. */
  lemma EntryPrefixStep(done: seq<Route>, e: Entry, j: nat)
    requires j < |e.files|
    ensures done + EntryRoutes(e)[..j + 1] == done + EntryRoutes(e)[..j] + [Route(PurePath("", e.path), e.files[j])]
    ensures EntryRoutes(e)[..j] + [Route(PurePath("", e.path), e.files[j])] <= EntryRoutes(e)
  {
    EntryRoutesStep(e, j);
    AppendAssoc(done, EntryRoutes(e)[..j], [Route(PurePath("", e.path), e.files[j])]);
  }

  lemma EntryRoutesStep(e: Entry, j: nat)
    requires j < |e.files|
    ensures EntryRoutes(e)[..j + 1] == EntryRoutes(e)[..j] + [Route(PurePath("", e.path), e.files[j])]
  {
  }

  /** Without a base URL that is a string, the first file of the walk stops the run. */
  lemma BaseFailureSpec(config: map<string, Value>, env: Env, routes: seq<Route>, load: Route -> Result<PageState, Error>,
                        handled: seq<Route>)
    requires "title" in config && BaseUrl(config).Failure?
    requires handled != [] && handled <= routes
    ensures SiteSpec(config, env, routes, load) == Failure(BaseUrl(config).error)
  {
  }

  /** A page that fails after every earlier page loaded is the error of the whole site. */
  lemma PageFailureSpec(config: map<string, Value>, env: Env, routes: seq<Route>, load: Route -> Result<PageState, Error>,
                        done: seq<Route>, route: Route)
    requires "title" in config && BaseUrl(config).Success?
    requires done + [route] <= routes
    requires IsPageName(route.filename)
    requires LoadPages(load, PageRoutes(done)).Success?
    requires load(route).Failure?
    ensures SiteSpec(config, env, routes, load) == Failure(load(route).error)
  {
    var rest := PrefixSplit(done + [route], routes);
    FirstFailure(load, done, route, rest);
    assert LoadPages(load, PageRoutes(routes)) == Failure(load(route).error);
  }

  /** A prefix of `b` followed by the rest of `b` is `b`. */
  lemma PrefixSplit<T>(a: seq<T>, b: seq<T>) returns (rest: seq<T>)
    requires a <= b
    ensures b == a + rest
  {
    rest := b[|a|..];
    assert b == b[..|a|] + b[|a|..];
  }

  /** A walk whose every page loads gives the site of `SiteSpec`. */
  lemma LoadedSpec(config: map<string, Value>, env: Env, routes: seq<Route>, load: Route -> Result<PageState, Error>,
                   states: seq<PageState>)
    requires "title" in config
    requires routes != [] ==> BaseUrl(config).Success?
    requires LoadPages(load, PageRoutes(routes)) == Success(states)
    ensures SiteSpec(config, env, routes, load) ==
      Success(SiteState(config["title"], states, StaticLocations(env, StaticRoutes(routes))))
  {
  }

  /** A page that fails after every earlier page loaded is the error of all the pages together. */
  lemma FirstFailure(load: Route -> Result<PageState, Error>, done: seq<Route>, route: Route, rest: seq<Route>)
    requires IsPageName(route.filename)
    requires LoadPages(load, PageRoutes(done)).Success?
    requires load(route).Failure?
    ensures LoadPages(load, PageRoutes(done + [route] + rest)) == Failure(load(route).error)
  {
    FilterAppend(IsPageRoute, done + [route], rest);
    RoutesStep(done, route);
    var first := PageRoutes(done + [route]);
    assert first[..|first| - 1] == PageRoutes(done);
    LoadPagesStops(load, first, PageRoutes(rest));
  }

  /** `generate()`: read the configuration, load the site, build it. */
  function GenerateSpec(file: Option<YamlDoc>, tree: Tree, read: PurePath -> Option<string>,
                        ctime: PurePath -> DateTime, lex: string -> seq<Block>, yaml: string -> YamlDoc)
    : Result<seq<Action>, Error>
  {
    match ConfigOf(file)
    case Failure(e) => Failure(e)
    case Success(config) =>
      match PathSetting(config, "site_path")
      case Failure(e) => Failure(e)
      case Success(site) =>
        match PathSetting(config, "target_path")
        case Failure(e) => Failure(e)
        case Success(target) =>
          var env := SiteEnv(config, site, target);
          match SiteSpec(config, env, Discovered(WalkFrom([], tree, IsIgnore)), PageLoader(env, read, ctime, lex, yaml))
          case Failure(e) => Failure(e)
          case Success(s) =>
            // `Page.build` reads `self.meta['published']` (generate.py:182) and raises
            // without it; `SitePagesPublished` shows every loaded page has it.
            if forall i :: 0 <= i < |s.pages| ==> "published" in s.pages[i].meta
            then Success(PageActions(s.pages) + CopyActions(s.statics))
            else Failure(MissingKey("published"))
  }

  /**
   * The whole run: `config.yaml` (as parsed, or `None` when unreadable)
   * over the defaults, the site's path settings, the site, and its build.
   */
  method Generate(file: Option<YamlDoc>, tree: Tree, read: PurePath -> Option<string>,
                  ctime: PurePath -> DateTime, lex: string -> seq<Block>, yaml: string -> YamlDoc)
    returns (r: Result<seq<Action>, Error>)
    ensures r == GenerateSpec(file, tree, read, ctime, lex, yaml)
  {
    var default := new Dict(DefaultConfig);
    var loaded := LoadConfig(default, file);
    if loaded.Failure? {
      return Failure(loaded.error);
    }
    var config := default.items;
    var site := PathSetting(config, "site_path");
    if site.Failure? {
      return Failure(site.error);
    }
    var target := PathSetting(config, "target_path");
    if target.Failure? {
      return Failure(target.error);
    }
    var md := new MarkdownAdapter.Markdown(lex);
    ghost var env := SiteEnv(config, site.value, target.value);
    PageLoaderLoads(env, read, ctime, lex, yaml);
    var loadedSite := Site.Load(config, site.value, target.value, tree, read, ctime, md, yaml,
                                PageLoader(env, read, ctime, lex, yaml));
    if loadedSite.Failure? {
      return Failure(loadedSite.error);
    }
    var actions := loadedSite.value.Build();
    r := Success(actions);
  }
}
