/**
 * Property-name deduction of the `common` module: a rootless `@.` prefix is
 * stripped, a property that starts with a dependency name is left alone, and
 * any other property is placed under the values root alias.
 */
module CommonHelmConfigUtils {
  import opened JavaStrings
  import opened HelmConfig

  const ROOTLESS_PROPERTY: string := "@."

  /** At least two dot segments, the first of which is one of the dependency names. */
  predicate StartWithDependencyPrefix(property: string, dependencies: seq<string>)
  {
    if |dependencies| == 0 then false
    else
      var parts := Split(property, '.');
      if |parts| <= 1 then false else parts[0] in dependencies
  }

  function DeductProperty(valuesRootAlias: string, dependencies: seq<string>, property: string): string
  {
    if StartsWith(property, ROOTLESS_PROPERTY) then
      // `replaceFirst` of the marker, which sits at index 0
      property[|ROOTLESS_PROPERTY|..]
    else if !StartWithDependencyPrefix(property, dependencies) then
      var prefix := valuesRootAlias + ".";
      if !StartsWith(property, prefix) then prefix + property else property
    else property
  }

  function DependencyKeys(dependencies: seq<Dependency>): (keys: seq<string>)
    ensures |keys| == |dependencies|
    ensures forall i :: 0 <= i < |dependencies| ==> keys[i] == DependencyKey(dependencies[i])
  {
    if dependencies == [] then [] else [DependencyKey(dependencies[0])] + DependencyKeys(dependencies[1..])
  }

  /** The overload that takes the chart configuration: dependencies are known by alias, else by name. */
  function DeductPropertyFor(config: ChartConfig, property: string): string
  {
    DeductProperty(config.valuesRootAlias, DependencyKeys(config.dependencies), property)
  }

  /** `@.x` yields `x`, whatever the alias and the dependencies. */
  lemma RootlessIsStripped(valuesRootAlias: string, dependencies: seq<string>, x: string)
    ensures DeductProperty(valuesRootAlias, dependencies, ROOTLESS_PROPERTY + x) == x
  {
    assert StartsWith(ROOTLESS_PROPERTY + x, ROOTLESS_PROPERTY);
    assert (ROOTLESS_PROPERTY + x)[2..] == x;
  }

  /**
   * The four outcomes of deduction, in the order the checks run: rootless,
   * dependency-prefixed, already under the alias, and everything else.
   */
  lemma DeductPropertyCases(valuesRootAlias: string, dependencies: seq<string>, property: string)
    ensures var r := DeductProperty(valuesRootAlias, dependencies, property);
      && (StartsWith(property, "@.") ==> r == property[2..])
      && (!StartsWith(property, "@.") && StartWithDependencyPrefix(property, dependencies) ==> r == property)
      && (!StartsWith(property, "@.") && StartsWith(property, valuesRootAlias + ".") ==> r == property)
      && ((!StartsWith(property, "@.") && !StartWithDependencyPrefix(property, dependencies)
           && !StartsWith(property, valuesRootAlias + ".")) ==> r == valuesRootAlias + "." + property)
  {
  }

  /** A single-segment property, or an empty dependency list, is never dependency-prefixed. */
  lemma NoDependencyPrefix(property: string, dependencies: seq<string>)
    requires dependencies == [] || '.' !in property || |Split(property, '.')| <= 1
    ensures !StartWithDependencyPrefix(property, dependencies)
  {
  }

  /** Trailing dots are dropped by `split`, so `db.` is a single segment even when `db` is a dependency. */
  lemma TrailingDotIsSingleSegment()
    ensures !StartWithDependencyPrefix("db.", ["db"])
    ensures DeductProperty("app", ["db"], "db.") == "app.db."
  {
    assert "db." == "db" + ['.'];
    SplitTrailingSeparator("db", '.');
  }

  /** A property with at least two segments and a dependency as its first segment is kept, as `depA.prop` is. */
  lemma DependencyPrefixedExample()
    ensures DeductProperty("app", ["depA"], "depA.prop") == "depA.prop"
  {
    var p := "depA" + ['.'] + "prop";
    SplitTwoSegments("depA", '.', "prop");
    assert StartWithDependencyPrefix(p, ["depA"]);
    assert !StartsWith(p, ROOTLESS_PROPERTY) by {
      assert p[0] == 'd';
    }
    assert p == "depA.prop";
  }

  /** Deduction is idempotent when the input is not rootless and the alias cannot produce a rootless result. */
  lemma DeductPropertyIdempotent(valuesRootAlias: string, dependencies: seq<string>, property: string)
    requires !StartsWith(property, ROOTLESS_PROPERTY)
    requires !StartsWith(valuesRootAlias + ".", ROOTLESS_PROPERTY)
    ensures var once := DeductProperty(valuesRootAlias, dependencies, property);
      DeductProperty(valuesRootAlias, dependencies, once) == once
  {
    var prefix := valuesRootAlias + ".";
    var once := DeductProperty(valuesRootAlias, dependencies, property);
    if once != property {
      assert once == prefix + property;
      assert once[..|prefix|] == prefix;
      if |prefix| >= 2 {
        assert once[..2] == prefix[..2];
      } else {
        assert once[0] == '.';
      }
      assert !StartsWith(once, ROOTLESS_PROPERTY);
    }
  }
}
