/**
 * `Resource.__init__`: where a discovered file is read from, where its
 * output goes, and its public URL. Pure path arithmetic over the settings.
 * Also `Static`, a resource that is copied unchanged.
 */
module Resources {
  import opened Wrappers
  import opened Paths
  import opened Values

  /** The settings the generator derives from the configuration once. */
  datatype Env = Env(sitePath: PurePath, targetPath: PurePath, base: PurePath)

  /** `Path(config[key])`. */
  function PathSetting(config: map<string, Value>, key: string): (r: Result<PurePath, Error>)
    ensures r.Success? <==> key in config && config[key].Str?
    ensures r.Success? ==> r.value == Parse(config[key].s)
  {
    if key !in config then Failure(MissingKey(key))
    else if config[key].Str? then Success(Parse(config[key].s))
    else Failure(NotText(key))
  }

  /** `config['base_url'] if 'base_url' in config else '/'`, as the left operand of `/`. */
  function BaseUrl(config: map<string, Value>): (r: Result<PurePath, Error>)
    ensures "base_url" !in config ==> r == Success(PurePath("/", []))
    ensures "base_url" in config ==> r == PathSetting(config, "base_url")
  {
    if "base_url" !in config then
      assert Segments("/") == ["", ""] by { assert FirstSlash("/") == 0; }
      assert Components(["", ""]) == [] + Components([""]);
      Success(Parse("/"))
    else PathSetting(config, "base_url")
  }

  /** A protocol-relative `base_url` such as `//cdn.example.com` keeps its two slashes. */
  lemma ProtocolRelativeBase(config: map<string, Value>, host: string)
    requires "base_url" in config && config["base_url"] == Str("//" + host)
    requires IsComponent(host)
    ensures BaseUrl(config) == Success(PurePath("//", [host]))
  {
    ParseDoubleSlash(host);
  }

  function EnvOf(config: map<string, Value>): Result<Env, Error> {
    match PathSetting(config, "site_path")
    case Failure(e) => Failure(e)
    case Success(site) =>
      match PathSetting(config, "target_path")
      case Failure(e) => Failure(e)
      case Success(target) =>
        match BaseUrl(config)
        case Failure(e) => Failure(e)
        case Success(base) => Success(Env(site, target, base))
  }

  /** What a resource knows about itself after construction. */
  datatype Location = Location(
    filename: string,
    outputName: string,
    location: PurePath,
    url: PurePath,
    sourcePath: PurePath,
    outputPath: PurePath)

  /** `output_name or filename`. */
  function OutputName(filename: string, given: Option<string>): string {
    if given.Some? && given.value != "" then given.value else filename
  }

  /**
   * `Resource(filename, relative, output_name)`, with the URL built from
   * the resolved output name (see UrlAsWritten for the code as written).
   */
  function Locate(env: Env, filename: string, relative: PurePath, given: Option<string>): Location {
    var outputName := OutputName(filename, given);
    var location := Join(env.sitePath, relative);
    Location(
      filename,
      outputName,
      location,
      Child(Join(env.base, relative), outputName),
      Child(location, filename),
      Child(Join(env.targetPath, relative), outputName))
  }

  /**
   * Source, output and URL mirror one another: the same relative directory
   * under the site root, the target root and the base URL, ending in the
   * file name or the output name.
   */
  lemma LocateLayout(env: Env, filename: string, relative: PurePath, given: Option<string>)
    requires relative.root == ""
    requires IsComponent(filename)
    requires given.Some? ==> IsComponent(given.value)
    ensures var r := Locate(env, filename, relative, given);
      && r.outputName == (if given.Some? then given.value else filename)
      && r.sourcePath == PurePath(env.sitePath.root, env.sitePath.parts + relative.parts + [filename])
      && r.outputPath == PurePath(env.targetPath.root, env.targetPath.parts + relative.parts + [r.outputName])
      && r.url == PurePath(env.base.root, env.base.parts + relative.parts + [r.outputName])
  {
    ParseComponent(filename);
    ParseComponent(OutputName(filename, given));
  }

  /**
   * The URL as line 110 computes it: from the `output_name` argument, not
   * from the resolved `self.output_name`. A static file passes none, and
   * `Path / None` raises.
   */
  function UrlAsWritten(env: Env, relative: PurePath, given: Option<string>): Result<PurePath, Error> {
    if given.None? then Failure(NoOutputName) else Success(Child(Join(env.base, relative), given.value))
  }

  /** Every static file fails to construct with the URL as written. */
  lemma StaticUrlAsWrittenFails(env: Env, relative: PurePath)
    ensures UrlAsWritten(env, relative, None) == Failure(NoOutputName)
  {
  }

  /** Where the source passes an output name, as every page does, the written URL and the corrected one agree. */
  lemma UrlAsWrittenAgrees(env: Env, filename: string, relative: PurePath, name: string)
    requires name != ""
    ensures UrlAsWritten(env, relative, Some(name)) == Success(Locate(env, filename, relative, Some(name)).url)
  {
  }

  /** What building a resource does to the output tree. */
  datatype Action =
    | Write(path: PurePath, template: string, context: map<string, Value>)   // a rendered page
    | Copy(from: PurePath, to: PurePath)                                     // a static file

  /** A file copied unchanged. */
  class Static {
    const loc: Location

    constructor (env: Env, filename: string, relative: PurePath)
      ensures loc == Locate(env, filename, relative, None)
    {
      loc := Locate(env, filename, relative, None);
    }

    /** `Static.build`: a byte copy from the source path to the output path. */
    method Build() returns (action: Action)
      ensures action == Copy(loc.sourcePath, loc.outputPath)
    {
      action := Copy(loc.sourcePath, loc.outputPath);
    }
  }
}
