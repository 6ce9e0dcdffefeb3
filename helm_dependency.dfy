/**
 * The `dependencies` entry of Chart.yaml. The chart is written with empty
 * fields left out, so a dependency that is enabled keeps its `enabled` field
 * null and Chart.yaml shows no `enabled` key for it.
 */
module HelmDependencyModel {
  import opened Wrappers

  /** The fields of a dependency; a null field is `None`. */
  datatype Fields = Fields(
    name: Option<string>,
    alias: Option<string>,
    version: Option<string>,
    repository: Option<string>,
    condition: Option<string>,
    tags: Option<seq<string>>,
    enabled: Option<bool>)

  /** What the no-argument constructor leaves: every field null. */
  const Unset := Fields(None, None, None, None, None, None, None)

  /** The fields the seven-argument constructor sets: only a disabled dependency records `enabled`. */
  function Constructed(name: string, alias: string, version: string, repository: string, condition: string,
                       tags: seq<string>, enabled: bool): (f: Fields)
    ensures f.enabled.Some? <==> !enabled
    ensures f.enabled.Some? ==> f.enabled.value == false
    ensures f.name == Some(name) && f.alias == Some(alias) && f.version == Some(version)
    ensures f.repository == Some(repository) && f.condition == Some(condition) && f.tags == Some(tags)
  {
    Fields(Some(name), Some(alias), Some(version), Some(repository), Some(condition), Some(tags),
           if enabled then None else Some(false))
  }

  /** Under `JsonInclude(NON_EMPTY)`: a field is written when it is non-null and, for text and arrays, non-empty. */
  predicate Written(s: Option<string>)
  {
    s.Some? && s.value != ""
  }

  /** The keys that appear in Chart.yaml for a dependency. */
  function SerializedKeys(f: Fields): (keys: set<string>)
    ensures "enabled" in keys <==> f.enabled.Some?
    ensures "name" in keys <==> Written(f.name)
  {
    (if Written(f.name) then {"name"} else {})
    + (if Written(f.version) then {"version"} else {})
    + (if Written(f.repository) then {"repository"} else {})
    + (if Written(f.condition) then {"condition"} else {})
    + (if f.tags.Some? && f.tags.value != [] then {"tags"} else {})
    + (if f.enabled.Some? then {"enabled"} else {})
    + (if Written(f.alias) then {"alias"} else {})
  }

  /** An enabled dependency shows no `enabled` key; a disabled one shows `enabled: false`. */
  lemma EnabledIsOmitted(name: string, alias: string, version: string, repository: string, condition: string,
                         tags: seq<string>, enabled: bool)
    ensures var f := Constructed(name, alias, version, repository, condition, tags, enabled);
      && ("enabled" in SerializedKeys(f) <==> !enabled)
      && (!enabled ==> f.enabled == Some(false))
  {
  }

  /** The model class, with a setter per field. */
  class HelmDependency {
    var fields: Fields

    /** `new HelmDependency()`. */
    constructor Empty()
      ensures fields == Unset
    {
      fields := Unset;
    }

    /** The seven-argument constructor. */
    constructor (name: string, alias: string, version: string, repository: string, condition: string,
                 tags: seq<string>, enabled: bool)
      ensures fields == Constructed(name, alias, version, repository, condition, tags, enabled)
    {
      fields := Constructed(name, alias, version, repository, condition, tags, enabled);
    }

    method SetName(name: Option<string>)
      modifies this
      ensures fields == old(fields).(name := name)
    {
      fields := fields.(name := name);
    }

    method SetAlias(alias: Option<string>)
      modifies this
      ensures fields == old(fields).(alias := alias)
    {
      fields := fields.(alias := alias);
    }

    method SetVersion(version: Option<string>)
      modifies this
      ensures fields == old(fields).(version := version)
    {
      fields := fields.(version := version);
    }

    method SetRepository(repository: Option<string>)
      modifies this
      ensures fields == old(fields).(repository := repository)
    {
      fields := fields.(repository := repository);
    }

    method SetCondition(condition: Option<string>)
      modifies this
      ensures fields == old(fields).(condition := condition)
    {
      fields := fields.(condition := condition);
    }

    method SetTags(tags: Option<seq<string>>)
      modifies this
      ensures fields == old(fields).(tags := tags)
    {
      fields := fields.(tags := tags);
    }

    method SetEnabled(enabled: Option<bool>)
      modifies this
      ensures fields == old(fields).(enabled := enabled)
    {
      fields := fields.(enabled := enabled);
    }
  }

  /** Setting `enabled` back to null removes the key again and leaves the others as they were. */
  lemma ClearingEnabled(f: Fields)
    ensures "enabled" !in SerializedKeys(f.(enabled := None))
    ensures SerializedKeys(f.(enabled := None)) == SerializedKeys(f) - {"enabled"}
  {
  }
}
