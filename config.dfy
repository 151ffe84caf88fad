/**
 * `load_config`: the settings read from `config.yaml` are merged over the
 * caller's defaults. The defaults dictionary itself is updated in place and
 * handed back, so the caller's dictionary and the result are one object.
 */
module ConfigLoader {
  import opened Wrappers
  import opened Values

  /** `default_config`: where the site, the output and the documents live. */
  const DefaultConfig: map<string, Value> :=
    map["site_path" := Str("site"), "target_path" := Str("target"), "document_path" := Str("document")]

  /** A Python dictionary, shared by reference. */
  class Dict {
    var items: map<string, Value>

    constructor (items: map<string, Value>)
      ensures this.items == items
    {
      this.items := items;
    }

    /** `dict.update(other)`: every key of `other` takes `other`'s value. */
    method Update(other: map<string, Value>)
      modifies this
      ensures items == Overlay(old(items), other)
    {
      items := items + other;
    }
  }

  /** The settings a run uses, given what reading `config.yaml` gave. */
  function ConfigOf(file: Option<YamlDoc>): Result<map<string, Value>, Error> {
    match file
    case None => Failure(ConfigUnreadable)
    case Some(NotMapping) => Failure(ConfigNotMapping)
    case Some(Mapping(entries)) => Success(Overlay(DefaultConfig, entries))
  }

  /**
   * A readable mapping always yields the three path settings: the file's
   * value where it gives one, the default otherwise; every other key is
   * the file's.
   */
  lemma ConfigDefaults(entries: map<string, Value>)
    ensures var c := ConfigOf(Some(Mapping(entries)));
      && c.Success?
      && c.value.Keys == entries.Keys + {"site_path", "target_path", "document_path"}
      && c.value["site_path"] == (if "site_path" in entries then entries["site_path"] else Str("site"))
      && c.value["target_path"] == (if "target_path" in entries then entries["target_path"] else Str("target"))
      && c.value["document_path"] == (if "document_path" in entries then entries["document_path"] else Str("document"))
      && (forall k :: k in entries ==> c.value[k] == entries[k])
  {
  }

  /**
   * `load_config(default)`. `file` is what reading and parsing `config.yaml`
   * gives: `None` when the file cannot be opened.
   */
  method LoadConfig(default: Dict, file: Option<YamlDoc>) returns (r: Result<Dict, Error>)
    modifies default
    ensures r.Success? <==> ConfigOf(file).Success?
    ensures old(default.items) == DefaultConfig && r.Success? ==> default.items == ConfigOf(file).value
    ensures file.None? ==> r == Failure(ConfigUnreadable) && default.items == old(default.items)
    ensures file == Some(NotMapping) ==> r == Failure(ConfigNotMapping) && default.items == old(default.items)
    ensures file.Some? && file.value.Mapping? ==>
      r == Success(default) && default.items == Overlay(old(default.items), file.value.entries)
  {
    if file.None? {
      return Failure(ConfigUnreadable);
    }
    match file.value
    case NotMapping =>
      return Failure(ConfigNotMapping);
    case Mapping(entries) =>
      default.Update(entries);
      return Success(default);
  }
}
