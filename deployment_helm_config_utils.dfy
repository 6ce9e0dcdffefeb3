/**
 * Property-name deduction of the `deployment` module. It has no rootless
 * marker: a property that starts with a dependency key is left alone, and any
 * other property is placed under the values root alias.
 */
module DeploymentHelmConfigUtils {
  import opened JavaStrings
  import opened HelmConfig
  import CommonHelmConfigUtils

  /** At least two dot segments, the first of which is a dependency's alias (its name when the alias is empty). */
  predicate StartWithDependencyPrefix(property: string, dependencies: seq<Dependency>)
  {
    if |dependencies| == 0 then false
    else
      var parts := Split(property, '.');
      if |parts| <= 1 then false
      else exists i :: 0 <= i < |dependencies| && DependencyKey(dependencies[i]) == parts[0]
  }

  function DeductProperty(config: ChartConfig, property: string): string
  {
    if !StartWithDependencyPrefix(property, config.dependencies) then
      var prefix := config.valuesRootAlias + ".";
      if !StartsWith(property, prefix) then prefix + property else property
    else property
  }

  /** The three outcomes: dependency-prefixed and alias-prefixed properties are kept, anything else gets the alias. */
  lemma DeductPropertyCases(config: ChartConfig, property: string)
    ensures var r := DeductProperty(config, property);
      && (StartWithDependencyPrefix(property, config.dependencies) ==> r == property)
      && (StartsWith(property, config.valuesRootAlias + ".") ==> r == property)
      && ((!StartWithDependencyPrefix(property, config.dependencies)
           && !StartsWith(property, config.valuesRootAlias + ".")) ==> r == config.valuesRootAlias + "." + property)
  {
  }

  /** Without rootless handling, `@.x` is placed under the alias like any other property. */
  lemma RootlessMarkerIsNotSpecial(x: string)
    ensures DeductProperty(ChartConfig("", "", "app", [], [], [], "", ""), "@." + x) == "app.@." + x
  {
    assert !StartsWith("@." + x, "app.") by {
      assert ("@." + x)[0] == '@';
    }
  }

  lemma PrefixStartsWith(prefix: string, s: string)
    ensures StartsWith(prefix + s, prefix)
  {
    assert (prefix + s)[..|prefix|] == prefix;
  }

  /** Deduction is idempotent for every input. */
  lemma DeductPropertyIdempotent(config: ChartConfig, property: string)
    ensures DeductProperty(config, DeductProperty(config, property)) == DeductProperty(config, property)
  {
    var once := DeductProperty(config, property);
    if once != property {
      PrefixStartsWith(config.valuesRootAlias + ".", property);
    }
  }

  /** The result always starts with the alias and a dot, or with a dependency key and a dot. */
  lemma DeductPropertyPrefix(config: ChartConfig, property: string)
    ensures var r := DeductProperty(config, property);
      || StartsWith(r, config.valuesRootAlias + ".")
      || exists i :: 0 <= i < |config.dependencies| && StartsWith(r, DependencyKey(config.dependencies[i]) + ".")
  {
    var r := DeductProperty(config, property);
    if StartWithDependencyPrefix(property, config.dependencies) {
      var i :| 0 <= i < |config.dependencies| && DependencyKey(config.dependencies[i]) == Split(property, '.')[0];
      SplitHead(property, '.');
      assert StartsWith(r, DependencyKey(config.dependencies[i]) + ".");
    } else if !StartsWith(property, config.valuesRootAlias + ".") {
      PrefixStartsWith(config.valuesRootAlias + ".", property);
    }
  }

  /** On a property without the rootless marker, the two variants agree. */
  lemma AgreesWithCommonVariant(config: ChartConfig, property: string)
    requires !StartsWith(property, CommonHelmConfigUtils.ROOTLESS_PROPERTY)
    ensures DeductProperty(config, property) == CommonHelmConfigUtils.DeductPropertyFor(config, property)
  {
    var keys := CommonHelmConfigUtils.DependencyKeys(config.dependencies);
    assert StartWithDependencyPrefix(property, config.dependencies)
        == CommonHelmConfigUtils.StartWithDependencyPrefix(property, keys) by {
      if |config.dependencies| > 0 && |Split(property, '.')| > 1 {
        var head := Split(property, '.')[0];
        if head in keys {
          var i :| 0 <= i < |keys| && keys[i] == head;
          assert DependencyKey(config.dependencies[i]) == head;
        }
      }
    }
  }
}
