/**
 * The chart configuration records the generator reads: dependencies,
 * add-if statements, user expressions and the chart settings. Null strings
 * are modelled as empty strings, which every reader treats alike.
 */
module HelmConfig {
  import opened Wrappers
  import JavaStrings

  /** A chart dependency. */
  datatype Dependency = Dependency(
    name: string,
    alias: string,
    version: string,
    repository: string,
    condition: string,
    tags: seq<string>,
    enabled: bool)

  /** The name a dependency is known by in `values.yaml`: its alias, or its name when the alias is empty. */
  function DependencyKey(d: Dependency): string
  {
    JavaStrings.DefaultIfEmpty(d.alias, d.name)
  }

  /** Wraps matching resources in `{{- if .Values.<property> }}`. */
  datatype AddIfStatement = AddIfStatement(
    property: string,
    onResourceKind: string,
    onResourceName: string,
    withDefaultValue: bool,
    description: string)

  /** A user expression written at a path; either part may be missing. */
  datatype HelmExpression = HelmExpression(path: Option<string>, expression: Option<string>)

  datatype ChartConfig = ChartConfig(
    name: string,
    version: string,
    valuesRootAlias: string,
    dependencies: seq<Dependency>,
    addIfStatements: seq<AddIfStatement>,
    expressions: seq<HelmExpression>,
    tarFileClassifier: string,
    extension: string)
}
