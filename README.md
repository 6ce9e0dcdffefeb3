# quarkus-helm: value-reference resolution, in Dafny

This project models the core of the quarkus-helm extension, the code that turns a
Quarkus application's generated Kubernetes manifests into a Helm chart, and proves
properties of that model. Its centre is the value-reference resolution engine:

- it replaces literals in the manifests with `{{ .Values.<property> }}` expressions;
- it collects the original literals into a values store with a prod bucket and lazily created profile buckets;
- the first value recorded for a (profile, property) pair wins.

Around the engine sit small deterministic helpers, each modelled here:

- the property-name deduction against the values root alias and the chart dependencies;
- the expression builder and its sentinel escaping, and the listener's restoration of the serialized text;
- the dotted-key and nested-map conversions;
- the values-schema tree builder;
- the path-rewrite strategy for HTTP probe ports;
- the `${...}` placeholder extractor;
- the template helpers: the extraction of `{{- define }}` blocks, the `{{- if .Values.X }}` wrapping and the tarball name;
- the Maven plugin's chart validation and value typing;
- the Helm repository uploader's checks and request choice;
- the `enabled` rule of a chart dependency.

Modules follow the source files:

| module | models |
|---|---|
| `Wrappers` | `Option` and `Result` |
| `JavaStrings` | the `java.lang.String` and commons-lang operations the code relies on, written out explicitly |
| `Values` | YAML values and `ConfigReference` |
| `HelmConfig` | the chart configuration records |
| `CommonHelmConfigUtils`, `DeploymentHelmConfigUtils` | the two `HelmConfigUtils` classes |
| `YamlExpressionParserUtils` | the expression helpers, over a document taken as a map from path to value |
| `ValuesHolder` | the values store, as a class with the two fields of the source |
| `ListenerValues`, `ListenerTemplates` | the value and template parts of `QuarkusHelmWriterSessionListener` |
| `MapUtils`, `ValuesSchemaUtils`, `SystemPropertiesUtils` | the classes of the same names |
| `ConfigReferenceStrategy`, `ConfigReferenceStrategyManager` | the path-rewrite rules |
| `GenerateHelmChartPojo` | the Maven plugin's validation and value conversion |
| `HelmChartUploader` | the uploader |
| `HelmDependencyModel` | the `HelmDependency` model class |

The source is imperative in most places, and so is the model. The loops of the source are `method`s with `while` or `for` loops, except for the few listed under "Left out". A pure function states what the loop computes, and the method's `ensures` ties its result or new state to that function. The properties are then proved as lemmas about the function. Java's `null` is `None`, or the empty string where the code treats null and empty alike. Java's `HashMap` iteration order is unspecified, so where a result depends on it, the order is an explicit parameter. `toPlainMap` instead uses a fixed but unspecified choice.

The `ValuesHolder.java` in the source stores plain objects. The listener, however, calls a richer interface: `put(p, ref, true)`, `putIfAbsent(p, ref, v, profile)`, and entries of the form `HelmValueHolder{value, configReference}`. The model keeps the bucket semantics of the file as written (`get`, `put`, `putIfAbsent`) and stores (value, reference) pairs.

## Model

| member | source | states |
|---|---|---|
| ValuesHolder.TouchRegistersOnce | deployment/src/main/java/io/quarkiverse/helm/deployment/utils/ValuesHolder.java:38-49 | `get` with an empty profile is prod; a new profile gets an empty bucket once, which is then reused; prod is never touched and a second `get` changes nothing |
| ValuesHolder.PutOverwrites | deployment/src/main/java/io/quarkiverse/helm/deployment/utils/ValuesHolder.java:26-28 | `put` overwrites the key in the target profile's bucket, and every other profile's bucket is unchanged; the registered profiles grow by the target alone, and never by prod |
| ValuesHolder.PutIfAbsentKeepsFirst | deployment/src/main/java/io/quarkiverse/helm/deployment/utils/ValuesHolder.java:30-32 | `putIfAbsent` keeps an existing key, adds a missing one and leaves every other bucket unchanged |
| ValuesHolder.PutIfAbsentExtends | deployment/src/main/java/io/quarkiverse/helm/deployment/utils/ValuesHolder.java:30-49 | `putIfAbsent` and `get` never change or remove any existing entry of any bucket |
| ValuesHolder.PutIfAbsentPresent | deployment/src/main/java/io/quarkiverse/helm/deployment/utils/ValuesHolder.java:30-32 | once the key is in a registered bucket, `putIfAbsent` leaves the whole store unchanged |
| ValuesHolder.TouchRegisters | deployment/src/main/java/io/quarkiverse/helm/deployment/utils/ValuesHolder.java:38-49 | after `get` the profile is registered, and `get` on a registered profile changes nothing |
| ValuesHolder.ValuesHolder.constructor | deployment/src/main/java/io/quarkiverse/helm/deployment/utils/ValuesHolder.java:11-12 | both fields start empty |
| ValuesHolder.ValuesHolder.GetProdValues | deployment/src/main/java/io/quarkiverse/helm/deployment/utils/ValuesHolder.java:14-16 | returns the prod bucket and changes nothing |
| ValuesHolder.ValuesHolder.GetValuesByProfile | deployment/src/main/java/io/quarkiverse/helm/deployment/utils/ValuesHolder.java:18-20 | returns the profile buckets and changes nothing |
| ValuesHolder.ValuesHolder.Get | deployment/src/main/java/io/quarkiverse/helm/deployment/utils/ValuesHolder.java:38-49 | the new state is the old one with the profile registered; the result is the profile's bucket, and prod for an empty profile |
| ValuesHolder.ValuesHolder.Put | deployment/src/main/java/io/quarkiverse/helm/deployment/utils/ValuesHolder.java:26-28 | the new state is the `put` of the specification, so `PutOverwrites` applies |
| ValuesHolder.ValuesHolder.PutIfAbsent | deployment/src/main/java/io/quarkiverse/helm/deployment/utils/ValuesHolder.java:30-32 | the new state is the `putIfAbsent` of the specification, so first writer wins |
| ValuesHolder.ValuesHolder.PutReference | deployment/src/main/java/io/quarkiverse/helm/deployment/utils/ValuesHolder.java:22-24 | stores the reference's value in the reference's profile bucket |
| ValuesHolder.ValuesHolder.PutProd | deployment/src/main/java/io/quarkiverse/helm/deployment/utils/ValuesHolder.java:34-36 | always writes prod and leaves the profile buckets unchanged |
| YamlExpressionParserUtils.Read | deployment/src/main/java/io/quarkiverse/helm/deployment/utils/YamlExpressionParserUtils.java:31-34 | the value at the path, or null when nothing is there |
| YamlExpressionParserUtils.Set | deployment/src/main/java/io/quarkiverse/helm/deployment/utils/YamlExpressionParserUtils.java:27-29 | the path receives the adapted expression, not the raw one; every other path keeps its value |
| YamlExpressionParserUtils.ReadAndSet | deployment/src/main/java/io/quarkiverse/helm/deployment/utils/YamlExpressionParserUtils.java:36-39 | writes as `set` does and returns what `read` saw before the write |
| YamlExpressionParserUtils.ToExpressionCases | deployment/src/main/java/io/quarkiverse/helm/deployment/utils/YamlExpressionParserUtils.java:41-57 | a non-empty explicit expression is returned verbatim; otherwise the result is `{{ .Values.<property> }}`, with ` \| quote` added exactly when the provided value is non-null and not a string while the found one is a string |
| YamlExpressionParserUtils.NullProvidedIsNeverQuoted | deployment/src/main/java/io/quarkiverse/helm/deployment/utils/YamlExpressionParserUtils.java:49-56 | a null provided value never leads to ` \| quote` |
| YamlExpressionParserUtils.EscapingIsPerCharacter | deployment/src/main/java/io/quarkiverse/helm/deployment/utils/YamlExpressionParserUtils.java:59-64 | the two replacements of `adaptExpression` escape each line separator and each double quote on its own |
| YamlExpressionParserUtils.EscapedHasNoQuoteOrNewline | deployment/src/main/java/io/quarkiverse/helm/deployment/utils/YamlExpressionParserUtils.java:59-64 | the escaped text holds no double quote and no line separator |
| YamlExpressionParserUtils.AdaptExpressionIsClean | deployment/src/main/java/io/quarkiverse/helm/deployment/utils/YamlExpressionParserUtils.java:59-64 | the adapted expression starts with `:START:`, ends with `:END:`, and holds no double quote and no line separator |
| CommonHelmConfigUtils.DependencyKeys | common/src/main/java/io/quarkiverse/helm/common/utils/HelmConfigUtils.java:21-26 | one key per dependency, in order: its alias, or its name when the alias is empty |
| CommonHelmConfigUtils.RootlessIsStripped | common/src/main/java/io/quarkiverse/helm/common/utils/HelmConfigUtils.java:29-31 | `@.x` yields `x`, whatever the alias and the dependencies |
| CommonHelmConfigUtils.DeductPropertyCases | common/src/main/java/io/quarkiverse/helm/common/utils/HelmConfigUtils.java:28-41 | the four outcomes, in order: rootless stripped; dependency-prefixed kept; alias-prefixed kept; alias prepended |
| CommonHelmConfigUtils.NoDependencyPrefix | common/src/main/java/io/quarkiverse/helm/common/utils/HelmConfigUtils.java:43-51 | a single-segment property, or an empty dependency list, is never dependency-prefixed |
| CommonHelmConfigUtils.TrailingDotIsSingleSegment | common/src/main/java/io/quarkiverse/helm/common/utils/HelmConfigUtils.java:48-51 | `db.` is one segment, because `split` drops trailing empty strings, so it gets the alias even when `db` is a dependency |
| CommonHelmConfigUtils.DependencyPrefixedExample | common/src/main/java/io/quarkiverse/helm/common/utils/HelmConfigUtils.java:43-55 | `depA.prop` with dependency `depA` is returned unchanged |
| CommonHelmConfigUtils.DeductPropertyIdempotent | common/src/main/java/io/quarkiverse/helm/common/utils/HelmConfigUtils.java:28-41 | deduction is idempotent for a property that does not start with `@.`, under an alias that cannot make the result rootless |
| JavaStrings.SplitTwoSegments | common/src/main/java/io/quarkiverse/helm/common/utils/HelmConfigUtils.java:48-51 | a separator-free head, the separator and a non-empty separator-free tail split into exactly those two segments |
| JavaStrings.SplitTrailingSeparator | common/src/main/java/io/quarkiverse/helm/common/utils/HelmConfigUtils.java:48-51 | a non-empty separator-free text followed by one separator splits into that text alone: `split` drops the trailing empty segment |
| JavaStrings.SplitHead | common/src/main/java/io/quarkiverse/helm/common/utils/HelmConfigUtils.java:48-53 | with two or more segments, the text starts with the first segment and a separator |
| DeploymentHelmConfigUtils.DeductPropertyCases | deployment/src/main/java/io/quarkiverse/helm/deployment/utils/HelmConfigUtils.java:14-39 | dependency-prefixed (by alias, else name) and alias-prefixed properties are kept; anything else gets the alias prefix |
| DeploymentHelmConfigUtils.RootlessMarkerIsNotSpecial | deployment/src/main/java/io/quarkiverse/helm/deployment/utils/HelmConfigUtils.java:14-22 | `@.x` becomes `app.@.x`: this variant has no rootless handling |
| DeploymentHelmConfigUtils.DeductPropertyIdempotent | deployment/src/main/java/io/quarkiverse/helm/deployment/utils/HelmConfigUtils.java:14-22 | deduction is idempotent for every input |
| DeploymentHelmConfigUtils.DeductPropertyPrefix | deployment/src/main/java/io/quarkiverse/helm/deployment/utils/HelmConfigUtils.java:14-22 | the result starts with `alias.` or with a dependency key and a dot |
| DeploymentHelmConfigUtils.AgreesWithCommonVariant | deployment/src/main/java/io/quarkiverse/helm/deployment/utils/HelmConfigUtils.java:14-39 | on a property without `@.` the two variants agree |
| MapUtils.InsertPath | deployment/src/main/java/io/quarkiverse/helm/deployment/utils/MapUtils.java:35-49 | walking the segments adds only the first segment at the top, keeps the other keys, puts a single-segment value directly, and makes the first node a nested map otherwise |
| MapUtils.PutEntry | deployment/src/main/java/io/quarkiverse/helm/deployment/utils/MapUtils.java:32-49 | fails exactly for a key with no segment; a key without a dot is stored as it is at the top level |
| MapUtils.JoinPieces | deployment/src/main/java/io/quarkiverse/helm/deployment/utils/MapUtils.java:32 | joining the pieces of a split with `.` gives the key back |
| MapUtils.PiecesOfJoin | deployment/src/main/java/io/quarkiverse/helm/deployment/utils/MapUtils.java:63 | splitting a join of dot-free segments gives the segments back |
| MapUtils.JoinInjective | deployment/src/main/java/io/quarkiverse/helm/deployment/utils/MapUtils.java:63 | different paths of dot-free segments join to different keys |
| MapUtils.CleanKeySegments | deployment/src/main/java/io/quarkiverse/helm/deployment/utils/MapUtils.java:32 | a key with non-empty segments splits into dot-free, non-empty segments that join back to it |
| MapUtils.InsertIntoEmpty | deployment/src/main/java/io/quarkiverse/helm/deployment/utils/MapUtils.java:35-49 | `a.b.c = v` in an empty map is `a -> b -> {c: v}` |
| MapUtils.InsertReplacesNonMap | deployment/src/main/java/io/quarkiverse/helm/deployment/utils/MapUtils.java:39-44 | an intermediate node holding a non-map value is replaced by a fresh map |
| MapUtils.InsertFinds | deployment/src/main/java/io/quarkiverse/helm/deployment/utils/MapUtils.java:35-49 | the inserted value sits at the end of its path |
| MapUtils.InsertKeeps | deployment/src/main/java/io/quarkiverse/helm/deployment/utils/MapUtils.java:35-49 | a value on a path that branches off the inserted one stays where it is |
| MapUtils.InsertAddsOnlyItself | deployment/src/main/java/io/quarkiverse/helm/deployment/utils/MapUtils.java:35-49 | after an insertion, any plain value found is the inserted one or was there before |
| MapUtils.SiblingsShareParent | deployment/src/main/java/io/quarkiverse/helm/deployment/utils/MapUtils.java:35-49 | keys sharing a first segment share one nested map, and both values are found under it |
| MapUtils.InsertStep | deployment/src/main/java/io/quarkiverse/helm/deployment/utils/MapUtils.java:30-50 | one entry of the loop keeps the tree holding exactly the entries processed so far |
| MapUtils.ToMultiValueMap | deployment/src/main/java/io/quarkiverse/helm/deployment/utils/MapUtils.java:20-53 | fails exactly when some key has no segment; for clean input the tree holds exactly the source's entries, and `toPlainMap` of it is the source |
| MapUtils.FlattenSound | deployment/src/main/java/io/quarkiverse/helm/deployment/utils/MapUtils.java:55-68 | every plain key is the dot-joined path of one leaf, which holds its value, and that value is never a map |
| MapUtils.FlattenComplete | deployment/src/main/java/io/quarkiverse/helm/deployment/utils/MapUtils.java:55-68 | every non-map leaf of a dot-free tree appears under its joined path with its value |
| MapUtils.FlattenHasNoMaps | deployment/src/main/java/io/quarkiverse/helm/deployment/utils/MapUtils.java:55-68 | no value of `toPlainMap` is a map |
| MapUtils.RoundTrip | deployment/src/main/java/io/quarkiverse/helm/deployment/utils/MapUtils.java:16-68 | `toPlainMap(toMultiValueMap(m)) == m` when keys have non-empty segments, no key is a dotted prefix of another and no value is a map |
| ValuesSchemaUtils.TypeOf | deployment/src/main/java/io/quarkiverse/helm/deployment/utils/ValuesSchemaUtils.java:65-77 | the tag is one of `null`, `integer`, `number`, `array`, `boolean` and `string`, and it is `string` exactly for strings and maps |
| ValuesSchemaUtils.Apply | deployment/src/main/java/io/quarkiverse/helm/deployment/utils/ValuesSchemaUtils.java:52-77 | updating a leaf never touches its children or its required list |
| ValuesSchemaUtils.Place | deployment/src/main/java/io/quarkiverse/helm/deployment/utils/ValuesSchemaUtils.java:34-79 | placing a leaf adds only the first segment at the top and keeps every other top-level node |
| ValuesSchemaUtils.Step | deployment/src/main/java/io/quarkiverse/helm/deployment/utils/ValuesSchemaUtils.java:31-80 | one entry fails exactly when its deduced key splits into no segment, and keeps the title otherwise |
| ValuesSchemaUtils.ValueSteps | deployment/src/main/java/io/quarkiverse/helm/deployment/utils/ValuesSchemaUtils.java:31-33 | the first loop handles each prod value under its own key, in iteration order |
| ValuesSchemaUtils.ConfigSteps | deployment/src/main/java/io/quarkiverse/helm/deployment/utils/ValuesSchemaUtils.java:83-87 | the second loop names each configured property by its `name`, or by its key when that is unset |
| ValuesSchemaUtils.PlaceMakesObjects | deployment/src/main/java/io/quarkiverse/helm/deployment/utils/ValuesSchemaUtils.java:36-47 | every proper prefix of the path ends at a node: the old node with its own fields, or a new `object` node |
| ValuesSchemaUtils.PlaceSetsLeaf | deployment/src/main/java/io/quarkiverse/helm/deployment/utils/ValuesSchemaUtils.java:49-79 | the leaf at the path is the old leaf, or a blank one, with the update applied |
| ValuesSchemaUtils.PlaceRequiresInParent | deployment/src/main/java/io/quarkiverse/helm/deployment/utils/ValuesSchemaUtils.java:58-64 | a required leaf below the top level is appended to its parent's required list, and only then |
| ValuesSchemaUtils.ValueLeaf | deployment/src/main/java/io/quarkiverse/helm/deployment/utils/ValuesSchemaUtils.java:52-77 | a value's leaf takes description, pattern, enum values, maximum and minimum from the reference, and its type from the value |
| ValuesSchemaUtils.ConfigLeaf | deployment/src/main/java/io/quarkiverse/helm/deployment/utils/ValuesSchemaUtils.java:104-120 | a configured property overwrites only the fields it sets, and the type only when it is non-empty |
| ValuesSchemaUtils.StepPlacesLeaf | deployment/src/main/java/io/quarkiverse/helm/deployment/utils/ValuesSchemaUtils.java:58-64 | a top-level required leaf goes to the root's required list; otherwise the root's list is unchanged |
| ValuesSchemaUtils.StepDeductsOnce | deployment/src/main/java/io/quarkiverse/helm/deployment/utils/ValuesSchemaUtils.java:33 | deducting a key before the step changes nothing: the step deducts it once, and deduction is idempotent |
| ValuesSchemaUtils.BuildAppend | deployment/src/main/java/io/quarkiverse/helm/deployment/utils/ValuesSchemaUtils.java:30-123 | the second loop runs on the result of the first |
| ValuesSchemaUtils.BuildFails | deployment/src/main/java/io/quarkiverse/helm/deployment/utils/ValuesSchemaUtils.java:30-123 | the build succeeds exactly when every key has a segment, and then keeps the title |
| ValuesSchemaUtils.TreeNeverEmpty | deployment/src/main/java/io/quarkiverse/helm/deployment/utils/ValuesSchemaUtils.java:33 | with a non-empty, dot-free root alias every key has a segment |
| ValuesSchemaUtils.CreateSchema | deployment/src/main/java/io/quarkiverse/helm/deployment/utils/ValuesSchemaUtils.java:25-123 | the two loops compute the schema of the specification, in the maps' iteration orders |
| ConfigReferenceStrategy.VisitPath | deployment/src/main/java/io/quarkiverse/helm/deployment/rules/HttpGetPortConfigReferenceStrategy.java:28-36 | the interface's default gives nothing; the probe strategy gives a path exactly when it ends in `httpGet.port` |
| ConfigReferenceStrategy.RewriteSelectsPort | deployment/src/main/java/io/quarkiverse/helm/deployment/rules/HttpGetPortConfigReferenceStrategy.java:25-32 | a rewritten path ends with `httpGet.(port == V).port` for the reference's value V, and never again with `httpGet.port` |
| ConfigReferenceStrategy.RewriteIsFinal | deployment/src/main/java/io/quarkiverse/helm/deployment/rules/HttpGetPortConfigReferenceStrategy.java:26-32 | visiting a rewritten path gives nothing |
| ConfigReferenceStrategy.RewritesEveryOccurrence | deployment/src/main/java/io/quarkiverse/helm/deployment/rules/HttpGetPortConfigReferenceStrategy.java:31-32 | every occurrence of `httpGet.port` is replaced, not only the suffix |
| ConfigReferenceStrategy.LivenessProbeExample | deployment/src/main/java/io/quarkiverse/helm/deployment/rules/HttpGetPortConfigReferenceStrategy.java:7-22 | a probe's `httpGet.port` path is rewritten; its `httpGet.path` is not |
| ConfigReferenceStrategyManager.Visited | deployment/src/main/java/io/quarkiverse/helm/deployment/rules/ConfigReferenceStrategyManager.java:17-28 | `visit` keeps the number of paths |
| ConfigReferenceStrategyManager.RewriteInOrder | deployment/src/main/java/io/quarkiverse/helm/deployment/rules/ConfigReferenceStrategyManager.java:18-25 | strategies run in list order, so a later strategy sees the earlier rewrite |
| ConfigReferenceStrategyManager.RegisteredRewrite | deployment/src/main/java/io/quarkiverse/helm/deployment/rules/ConfigReferenceStrategyManager.java:10-11 | with only the probe strategy registered, a path changes exactly when that strategy rewrites it |
| ConfigReferenceStrategyManager.VisitTwice | deployment/src/main/java/io/quarkiverse/helm/deployment/rules/ConfigReferenceStrategyManager.java:10-27 | a second `visit` changes nothing |
| ConfigReferenceStrategyManager.VisitWith | deployment/src/main/java/io/quarkiverse/helm/deployment/rules/ConfigReferenceStrategyManager.java:19-24 | the inner loop replaces path i exactly when the strategy returns a value; every other path is unchanged |
| ConfigReferenceStrategyManager.Visit | deployment/src/main/java/io/quarkiverse/helm/deployment/rules/ConfigReferenceStrategyManager.java:17-28 | the array, rewritten in place, holds the specification's result for the original paths |
| SystemPropertiesUtils.HasSystemPropertiesIff | common/src/main/java/io/quarkiverse/helm/common/utils/SystemPropertiesUtils.java:22-24 | true exactly when `${` occurs somewhere in the input |
| SystemPropertiesUtils.OccurrencesOfChar | common/src/main/java/io/quarkiverse/helm/common/utils/SystemPropertiesUtils.java:75-87 | for a one-character target, the repeated `indexOf` counts every occurrence |
| SystemPropertiesUtils.CountOfCloser | common/src/main/java/io/quarkiverse/helm/common/utils/SystemPropertiesUtils.java:75-87 | `countMatches(s, "}")` counts every closing brace |
| SystemPropertiesUtils.CountWithoutFirstChar | common/src/main/java/io/quarkiverse/helm/common/utils/SystemPropertiesUtils.java:75-87 | a text without the target's first character has no match |
| SystemPropertiesUtils.CountMatches | common/src/main/java/io/quarkiverse/helm/common/utils/SystemPropertiesUtils.java:75-87 | the `indexOf` loop computes the specification's count, which is 0 when either argument is empty |
| SystemPropertiesUtils.Balance | common/src/main/java/io/quarkiverse/helm/common/utils/SystemPropertiesUtils.java:58-67 | the balancing never moves `end` backwards nor past the input's end |
| SystemPropertiesUtils.BalanceResult | common/src/main/java/io/quarkiverse/helm/common/utils/SystemPropertiesUtils.java:58-67 | the loop stops before the input's end exactly when the tentative holds as many openers as closers; the tentative is the text from `start` up to `end`, cut one short when it ran off the end |
| SystemPropertiesUtils.BalanceAtOnce | common/src/main/java/io/quarkiverse/helm/common/utils/SystemPropertiesUtils.java:58-67 | a tentative without opener or closer characters is balanced at once |
| SystemPropertiesUtils.Next | common/src/main/java/io/quarkiverse/helm/common/utils/SystemPropertiesUtils.java:46-56 | each entry found moves `pos` strictly forward, so the scan terminates |
| SystemPropertiesUtils.NextAfterOpener | common/src/main/java/io/quarkiverse/helm/common/utils/SystemPropertiesUtils.java:47-69 | a found entry begins right after an opener at or after `pos` |
| SystemPropertiesUtils.ScanStartsAfterOpener | common/src/main/java/io/quarkiverse/helm/common/utils/SystemPropertiesUtils.java:46-70 | every entry of the scan begins right after an opener |
| SystemPropertiesUtils.SubstringsStartAfterOpener | common/src/main/java/io/quarkiverse/helm/common/utils/SystemPropertiesUtils.java:37-73 | every result is a piece of the input that begins right after `${` |
| SystemPropertiesUtils.UnclosedStops | common/src/main/java/io/quarkiverse/helm/common/utils/SystemPropertiesUtils.java:53-56 | an opener with no closer after it ends the scan without an entry |
| SystemPropertiesUtils.TwoPlaceholders | common/src/main/java/io/quarkiverse/helm/common/utils/SystemPropertiesUtils.java:42-72 | `x ${a} y ${b}` yields `[a, b]` |
| SystemPropertiesUtils.NestedCounts | common/src/main/java/io/quarkiverse/helm/common/utils/SystemPropertiesUtils.java:60 | `a${b` has one opener and no closer; `a${b}` has one of each |
| SystemPropertiesUtils.NestedPlaceholder | common/src/main/java/io/quarkiverse/helm/common/utils/SystemPropertiesUtils.java:58-66 | `${a${b}}` yields `[a${b}]`: `end` advances until the counts balance |
| SystemPropertiesUtils.UnclosedOuterPlaceholder | common/src/main/java/io/quarkiverse/helm/common/utils/SystemPropertiesUtils.java:60-69 | `${a${b}` yields `[a${b]`: when balancing runs off the end, the cut tentative is still added |
| SystemPropertiesUtils.BalanceTentative | common/src/main/java/io/quarkiverse/helm/common/utils/SystemPropertiesUtils.java:60-67 | the `while` loop computes the specification's balancing |
| SystemPropertiesUtils.FindNext | common/src/main/java/io/quarkiverse/helm/common/utils/SystemPropertiesUtils.java:47-67 | the loop body computes the specification's next entry |
| SystemPropertiesUtils.GetSubstringsBetween | common/src/main/java/io/quarkiverse/helm/common/utils/SystemPropertiesUtils.java:37-73 | the `for` loop computes the specification's list, which is empty for an empty input, opener or closer |
| ListenerValues.SeenPutIfAbsent | deployment/src/main/java/io/quarkiverse/helm/deployment/QuarkusHelmWriterSessionListener.java:622 | a key with a non-null value is kept; a missing or null one gets the value; no other key changes |
| ListenerValues.NoPathsRecordsOnly | deployment/src/main/java/io/quarkiverse/helm/deployment/QuarkusHelmWriterSessionListener.java:626-631 | a reference without paths is `putIfAbsent` into its profile bucket, goes into `seen` only for prod, and touches no document |
| ListenerValues.SeenPathIsSkipped | deployment/src/main/java/io/quarkiverse/helm/deployment/QuarkusHelmWriterSessionListener.java:604-609 | a path already read is skipped once the property has a seen value |
| ListenerValues.NullPathIsSkipped | deployment/src/main/java/io/quarkiverse/helm/deployment/QuarkusHelmWriterSessionListener.java:616-624 | with no provided, seen or found value, the path writes nothing and records nothing |
| ListenerValues.DocumentReadOnlyWhenUnseen | deployment/src/main/java/io/quarkiverse/helm/deployment/QuarkusHelmWriterSessionListener.java:611-614 | with a seen value, `seen`, `paths` and the store do not depend on the document, and `paths` is unchanged |
| ListenerValues.UnseenPathJoins | deployment/src/main/java/io/quarkiverse/helm/deployment/QuarkusHelmWriterSessionListener.java:611-614 | without a seen value the path joins `paths` |
| ListenerValues.PathWrite | deployment/src/main/java/io/quarkiverse/helm/deployment/QuarkusHelmWriterSessionListener.java:616-623 | a non-null value sets the path to `toExpression(property, provided, found)`, is `putIfAbsent` into its profile, and goes into `seen` only for prod |
| ListenerValues.PathStepExtends | deployment/src/main/java/io/quarkiverse/helm/deployment/QuarkusHelmWriterSessionListener.java:604-624 | one path never changes or removes a recorded entry |
| ListenerValues.PathsFoldExtends | deployment/src/main/java/io/quarkiverse/helm/deployment/QuarkusHelmWriterSessionListener.java:603-625 | the path loop never changes or removes a recorded entry |
| ListenerValues.ProcessExtends | deployment/src/main/java/io/quarkiverse/helm/deployment/QuarkusHelmWriterSessionListener.java:598-632 | processing a reference never changes or removes a recorded entry |
| ListenerValues.ProcessKeepsPresent | deployment/src/main/java/io/quarkiverse/helm/deployment/QuarkusHelmWriterSessionListener.java:598-632 | when the property is already in its registered bucket, the store is unchanged |
| ListenerValues.EnvironmentPropertyName | deployment/src/main/java/io/quarkiverse/helm/deployment/QuarkusHelmWriterSessionListener.java:588-596 | the property itself without `envs.`; otherwise a suffix of it that is shorter by at least `envs.` |
| ListenerValues.EnvironmentPropertySplit | deployment/src/main/java/io/quarkiverse/helm/deployment/QuarkusHelmWriterSessionListener.java:588-596 | the property is what precedes its first `envs.`, then `envs.`, then the name |
| ListenerValues.ClaimKey | deployment/src/main/java/io/quarkiverse/helm/deployment/QuarkusHelmWriterSessionListener.java:563-571 | the claim is a key of the bucket, listed in the iteration order, that ends with the name; there is none exactly when no listed key is such a key |
| ListenerValues.ClaimFindsBucketKey | deployment/src/main/java/io/quarkiverse/helm/deployment/QuarkusHelmWriterSessionListener.java:562-571 | when the order lists exactly the bucket's keys, once each, a claim exists exactly when some key of the bucket ends with the name |
| ListenerValues.ClaimKeyIsFirst | deployment/src/main/java/io/quarkiverse/helm/deployment/QuarkusHelmWriterSessionListener.java:564-570 | the claim is the first such key in iteration order |
| ListenerValues.EnvironmentClaimAddsNoEntry | deployment/src/main/java/io/quarkiverse/helm/deployment/QuarkusHelmWriterSessionListener.java:556-575 | when the profile bucket, walked in its own iteration order, holds a key ending with X, an `envs.X` reference adopts the first such key: the documents are resolved under that key with its stored value, and the store only registers the profile and gains no entry |
| ListenerValues.EnvironmentWithoutClaim | deployment/src/main/java/io/quarkiverse/helm/deployment/QuarkusHelmWriterSessionListener.java:556-575 | without such a key, the reference is processed under its deduced property with its own value |
| ListenerValues.NonEnvPassExtends | deployment/src/main/java/io/quarkiverse/helm/deployment/QuarkusHelmWriterSessionListener.java:546-553 | the first pass never changes or removes a recorded entry |
| ListenerValues.EnvStepExtends | deployment/src/main/java/io/quarkiverse/helm/deployment/QuarkusHelmWriterSessionListener.java:556-575 | one `envs.` reference never changes or removes a recorded entry |
| ListenerValues.EnvPassExtends | deployment/src/main/java/io/quarkiverse/helm/deployment/QuarkusHelmWriterSessionListener.java:556-576 | the second pass never changes or removes a recorded entry |
| ListenerValues.NonEnvPassAppend | deployment/src/main/java/io/quarkiverse/helm/deployment/QuarkusHelmWriterSessionListener.java:540-553 | the first pass runs the user references, then the decorator references on that result |
| ListenerValues.UserReferencesWin | deployment/src/main/java/io/quarkiverse/helm/deployment/QuarkusHelmWriterSessionListener.java:540-576 | every entry the user references record survives, unchanged, the decorator references and the whole `envs.` pass |
| ListenerValues.NonEnvironmentWins | deployment/src/main/java/io/quarkiverse/helm/deployment/QuarkusHelmWriterSessionListener.java:545-576 | every entry of the first pass survives the `envs.` pass |
| ListenerValues.ResolveFilesExtends | deployment/src/main/java/io/quarkiverse/helm/deployment/QuarkusHelmWriterSessionListener.java:522-582 | across all files no recorded entry is replaced, and there is at most one document per file |
| ListenerValues.NonYamlFileIsSkipped | deployment/src/main/java/io/quarkiverse/helm/deployment/QuarkusHelmWriterSessionListener.java:528-531 | a file whose name is not a YAML name changes nothing |
| ListenerValues.ResolutionScope.constructor | deployment/src/main/java/io/quarkiverse/helm/deployment/QuarkusHelmWriterSessionListener.java:534-538 | a document starts with an empty `seen` and an empty `paths` |
| ListenerValues.ResolutionScope.ProcessPath | deployment/src/main/java/io/quarkiverse/helm/deployment/QuarkusHelmWriterSessionListener.java:604-624 | one iteration of the path loop moves the document, `seen`, `paths` and the store to the specification's next state |
| ListenerValues.ResolutionScope.ProcessValueReference | deployment/src/main/java/io/quarkiverse/helm/deployment/QuarkusHelmWriterSessionListener.java:598-632 | the new state is the specification's `processValueReference` |
| ListenerValues.ResolutionScope.ResolveNonEnvironment | deployment/src/main/java/io/quarkiverse/helm/deployment/QuarkusHelmWriterSessionListener.java:545-553 | the new state is the specification's first pass |
| ListenerValues.ResolutionScope.ResolveEnvironment | deployment/src/main/java/io/quarkiverse/helm/deployment/QuarkusHelmWriterSessionListener.java:555-576 | given an order that enumerates each bucket, the new state is the specification's second pass |
| ListenerValues.FindClaim | deployment/src/main/java/io/quarkiverse/helm/deployment/QuarkusHelmWriterSessionListener.java:563-571 | the scan with `break` computes the specification's claim |
| ListenerValues.PopulateValuesFromConfigReferences | deployment/src/main/java/io/quarkiverse/helm/deployment/QuarkusHelmWriterSessionListener.java:522-582 | given an order that enumerates each bucket, the documents and the store are the specification's, with user references before decorator references |
| ListenerValues.Backfilled | deployment/src/main/java/io/quarkiverse/helm/deployment/QuarkusHelmWriterSessionListener.java:264-268 | a profile bucket keeps its own keys and values and gains every prod key it lacks, with prod's value |
| ListenerValues.BackfillBucket | deployment/src/main/java/io/quarkiverse/helm/deployment/QuarkusHelmWriterSessionListener.java:264-268 | the inner loop computes the back-filled bucket |
| ListenerValues.BackfillProfiles | deployment/src/main/java/io/quarkiverse/helm/deployment/QuarkusHelmWriterSessionListener.java:260-268 | every profile bucket is back-filled from prod; prod and the set of profiles are unchanged |
| ListenerValues.DependencyFlagsAreTrue | deployment/src/main/java/io/quarkiverse/helm/deployment/QuarkusHelmWriterSessionListener.java:484-492 | every flag is `true`, under the deduced condition of a dependency that has one |
| ListenerValues.DependencyWithConditionHasFlag | deployment/src/main/java/io/quarkiverse/helm/deployment/QuarkusHelmWriterSessionListener.java:484-492 | every dependency with a condition has its flag |
| ListenerValues.AddIfLastWins | deployment/src/main/java/io/quarkiverse/helm/deployment/QuarkusHelmWriterSessionListener.java:495-502 | the last add-if statement for a property decides its default |
| ListenerValues.AddIfKeepsKeys | deployment/src/main/java/io/quarkiverse/helm/deployment/QuarkusHelmWriterSessionListener.java:495-502 | add-if statements only add or overwrite keys |
| ListenerValues.FileValuesWin | deployment/src/main/java/io/quarkiverse/helm/deployment/QuarkusHelmWriterSessionListener.java:505-517 | the values file wins over every generated default, and every other key holds its default |
| ListenerValues.FileValuesStep | deployment/src/main/java/io/quarkiverse/helm/deployment/QuarkusHelmWriterSessionListener.java:505-517 | one more file entry is stored under its own key, as a prod value with a reference to itself |
| ListenerValues.PopulateValuesFromConfig | deployment/src/main/java/io/quarkiverse/helm/deployment/QuarkusHelmWriterSessionListener.java:480-520 | a fresh store with no profile bucket, whose prod bucket is the specification's |
| ListenerValues.PutDependencyFlags | deployment/src/main/java/io/quarkiverse/helm/deployment/QuarkusHelmWriterSessionListener.java:484-492 | the first loop fills prod with the dependency flags |
| ListenerValues.PutAddIfDefaults | deployment/src/main/java/io/quarkiverse/helm/deployment/QuarkusHelmWriterSessionListener.java:495-502 | the second loop puts the add-if defaults over prod |
| ListenerValues.PutFileValues | deployment/src/main/java/io/quarkiverse/helm/deployment/QuarkusHelmWriterSessionListener.java:505-517 | the third loop puts the file's entries over prod |
| ListenerTemplates.QuotedForm | deployment/src/main/java/io/quarkiverse/helm/deployment/QuarkusHelmWriterSessionListener.java:417-423 | a serialized adapted expression is a quote, the start token, the escaped text, the end token and a quote |
| ListenerTemplates.UnwrapQuotedExpression | deployment/src/main/java/io/quarkiverse/helm/deployment/QuarkusHelmWriterSessionListener.java:418-421 | the four quote replacements strip the surrounding quotes and tokens and nothing else |
| ListenerTemplates.RestoreQuotes | deployment/src/main/java/io/quarkiverse/helm/deployment/QuarkusHelmWriterSessionListener.java:422 | restoring `:DOUBLE_QUOTES` gives the text with only line separators still escaped |
| ListenerTemplates.RestoreLineSeparators | deployment/src/main/java/io/quarkiverse/helm/deployment/QuarkusHelmWriterSessionListener.java:423 | restoring `:LINE_SEPARATOR` gives the raw text back |
| ListenerTemplates.RestoreUndoesAdaptExpression | deployment/src/main/java/io/quarkiverse/helm/deployment/QuarkusHelmWriterSessionListener.java:417-423 | restoration undoes `adaptExpression` for an expression with no `:` and no line separator followed by `DOUBLE_QUOTES` |
| ListenerTemplates.RestoreStripsTokens | deployment/src/main/java/io/quarkiverse/helm/deployment/QuarkusHelmWriterSessionListener.java:418-421 | for every expression, the quotes and tokens are stripped |
| ListenerTemplates.QuoteWordAfterNewlineIsLost | deployment/src/main/java/io/quarkiverse/helm/deployment/QuarkusHelmWriterSessionListener.java:417-423 | a line separator followed by `DOUBLE_QUOTES` does not survive the round trip |
| ListenerTemplates.SentinelWordIsLost | deployment/src/main/java/io/quarkiverse/helm/deployment/QuarkusHelmWriterSessionListener.java:417-423 | `:DOUBLE_QUOTES` does not survive the round trip |
| ListenerTemplates.KeptLineIffInsideBlock | deployment/src/main/java/io/quarkiverse/helm/deployment/QuarkusHelmWriterSessionListener.java:466-471 | a line is kept exactly when some line at or before it opens a `{{- define` block and no line from there up to it closes one |
| ListenerTemplates.NoDefineKeepsNothing | deployment/src/main/java/io/quarkiverse/helm/deployment/QuarkusHelmWriterSessionListener.java:466-471 | a file with no opening line contributes nothing |
| ListenerTemplates.ExtractFunctions | deployment/src/main/java/io/quarkiverse/helm/deployment/QuarkusHelmWriterSessionListener.java:462-473 | the line loop keeps exactly the specification's lines, each followed by the line separator |
| ListenerTemplates.GetNameFromResource | deployment/src/main/java/io/quarkiverse/helm/deployment/QuarkusHelmWriterSessionListener.java:434-444 | a name exactly when the metadata is a map with a non-null name, and then the name's `toString()` text, a map's text being the input `mapText` |
| ListenerTemplates.WrapWithIfStatements | deployment/src/main/java/io/quarkiverse/helm/deployment/QuarkusHelmWriterSessionListener.java:401-415 | the add-if loop computes the specification's wrapping |
| ListenerTemplates.WrappedLength | deployment/src/main/java/io/quarkiverse/helm/deployment/QuarkusHelmWriterSessionListener.java:401-415 | no match leaves the text unchanged; each match makes the text at least three characters longer |
| ListenerTemplates.LaterStatementIsOutermost | deployment/src/main/java/io/quarkiverse/helm/deployment/QuarkusHelmWriterSessionListener.java:401-415 | a matching later statement wraps the text made by the earlier ones: its `{{- if .Values.<p> }}`, that text, then `{{- end }}` |
| ListenerTemplates.UnmatchedStatementIsIgnored | deployment/src/main/java/io/quarkiverse/helm/deployment/QuarkusHelmWriterSessionListener.java:402-404 | a statement whose kind or name differs changes nothing |
| ListenerTemplates.NamedStatementNeedsName | deployment/src/main/java/io/quarkiverse/helm/deployment/QuarkusHelmWriterSessionListener.java:403-404 | a statement with a name filter never matches a resource without a name |
| ListenerTemplates.TemplateFileName | deployment/src/main/java/io/quarkiverse/helm/deployment/QuarkusHelmWriterSessionListener.java:390-392 | the template file of a kind ends with `.yaml` |
| ListenerTemplates.ApplyUserExpressions | deployment/src/main/java/io/quarkiverse/helm/deployment/QuarkusHelmWriterSessionListener.java:381-388 | the expression loop computes the specification's document |
| ListenerTemplates.ApplyExpressionsKeepsUnnamed | deployment/src/main/java/io/quarkiverse/helm/deployment/QuarkusHelmWriterSessionListener.java:383-387 | a path that no complete expression names keeps its value |
| ListenerTemplates.ApplyExpressionsLastWins | deployment/src/main/java/io/quarkiverse/helm/deployment/QuarkusHelmWriterSessionListener.java:383-387 | a named path holds the adapted form of the last expression that names it |
| ListenerTemplates.AdaptTemplate | deployment/src/main/java/io/quarkiverse/helm/deployment/QuarkusHelmWriterSessionListener.java:395-423 | the text is the user functions, then the add-if wrapping, then the six restorations, in that order |
| ListenerTemplates.GetVersion | deployment/src/main/java/io/quarkiverse/helm/deployment/QuarkusHelmWriterSessionListener.java:359-365 | the configured version when it is non-empty, the project's otherwise |
| ListenerTemplates.TarballNameParts | deployment/src/main/java/io/quarkiverse/helm/deployment/QuarkusHelmWriterSessionListener.java:332-336 | the name is `<name>-<version>`, `-<classifier>` only when one is set, then `.<extension>` |
| ListenerTemplates.ArchiveEntryName | deployment/src/main/java/io/quarkiverse/helm/deployment/QuarkusHelmWriterSessionListener.java:353-354 | every entry sits under a folder named after the chart and keeps its own name |
| GenerateHelmChartPojo.NameFormatIsWellFormedName | common/src/main/java/io/quarkiverse/helm/common/utils/Constants.java:7 | the regex-shaped grammar (a label, then more labels after dots) is the character-level rule: only `[a-z0-9.-]`, alphanumeric at both ends, and a dot only between two alphanumerics |
| GenerateHelmChartPojo.JoinedNamesMatch | common/src/main/java/io/quarkiverse/helm/common/utils/Constants.java:7 | two valid names joined by a dot are a valid name |
| GenerateHelmChartPojo.NameFormatAcceptsDash | common/src/main/java/io/quarkiverse/helm/common/utils/Constants.java:7 | `my-chart` matches |
| GenerateHelmChartPojo.NameFormatAcceptsDot | common/src/main/java/io/quarkiverse/helm/common/utils/Constants.java:7 | `a.b` matches |
| GenerateHelmChartPojo.NameFormatRejects | common/src/main/java/io/quarkiverse/helm/common/utils/Constants.java:7 | `My`, `-a`, `a..b` and `a.` do not match |
| GenerateHelmChartPojo.InvalidCharactersAreDashes | common/src/main/java/io/quarkiverse/helm/common/utils/Constants.java:8 | a name holds an invalid character exactly when it holds `-` |
| GenerateHelmChartPojo.AddIfError | maven-plugin/src/main/java/io/quarkiverse/helm/maven/GenerateHelmChartPojo.java:211-226 | no error exactly when every statement has a filter and, under naming validation, no `-`; a naming error only under naming validation |
| GenerateHelmChartPojo.DependencyError | maven-plugin/src/main/java/io/quarkiverse/helm/maven/GenerateHelmChartPojo.java:229-240 | no error exactly when no non-empty condition holds `-` |
| GenerateHelmChartPojo.ValueError | maven-plugin/src/main/java/io/quarkiverse/helm/maven/GenerateHelmChartPojo.java:242-252 | no error exactly when no value property holds `-` |
| GenerateHelmChartPojo.Validate | maven-plugin/src/main/java/io/quarkiverse/helm/maven/GenerateHelmChartPojo.java:201-204 | with no chart configured, validation passes |
| GenerateHelmChartPojo.ValidateChart | maven-plugin/src/main/java/io/quarkiverse/helm/maven/GenerateHelmChartPojo.java:201-254 | the name check and the three loops, each stopping at its first failing element, return the specification's result, so `ValidateAccepts` applies |
| GenerateHelmChartPojo.ValidateAccepts | maven-plugin/src/main/java/io/quarkiverse/helm/maven/GenerateHelmChartPojo.java:201-254 | validation passes exactly when the name is empty or valid, every add-if statement has a filter, and under naming validation no checked name holds `-` |
| GenerateHelmChartPojo.WrongNameFailsFirst | maven-plugin/src/main/java/io/quarkiverse/helm/maven/GenerateHelmChartPojo.java:206-209 | a non-empty name outside the grammar is the error, whatever else is configured |
| GenerateHelmChartPojo.AddIfWithoutFilterFails | maven-plugin/src/main/java/io/quarkiverse/helm/maven/GenerateHelmChartPojo.java:212-217 | an add-if statement with neither kind nor name fails, even with naming validation off |
| GenerateHelmChartPojo.DashInAddIfFails | maven-plugin/src/main/java/io/quarkiverse/helm/maven/GenerateHelmChartPojo.java:219-224 | under naming validation, a `-` in an add-if property fails |
| GenerateHelmChartPojo.DashInConditionFails | maven-plugin/src/main/java/io/quarkiverse/helm/maven/GenerateHelmChartPojo.java:232-238 | under naming validation, a `-` in a dependency's condition fails |
| GenerateHelmChartPojo.DashInValueFails | maven-plugin/src/main/java/io/quarkiverse/helm/maven/GenerateHelmChartPojo.java:243-250 | under naming validation, a `-` in a value's property fails |
| GenerateHelmChartPojo.NoNamingErrorsWhenDisabled | maven-plugin/src/main/java/io/quarkiverse/helm/maven/GenerateHelmChartPojo.java:219-253 | with naming validation off, only the name grammar and the add-if filter can fail |
| GenerateHelmChartPojo.ToValue | maven-plugin/src/main/java/io/quarkiverse/helm/maven/GenerateHelmChartPojo.java:377-389 | int first, then bool, then a non-empty map, then a non-empty list |
| GenerateHelmChartPojo.EmptyCollectionsAreUnset | maven-plugin/src/main/java/io/quarkiverse/helm/maven/GenerateHelmChartPojo.java:382-385 | an empty map or list is the same as none |
| GenerateHelmChartPojo.StringValueComesLast | maven-plugin/src/main/java/io/quarkiverse/helm/maven/GenerateHelmChartPojo.java:388 | with no typed value, the string is the value, or null when it is missing |
| GenerateHelmChartPojo.MapEntriesKept | maven-plugin/src/main/java/io/quarkiverse/helm/maven/GenerateHelmChartPojo.java:382-383 | a non-empty map keeps its entries |
| GenerateHelmChartPojo.DefaultString | maven-plugin/src/main/java/io/quarkiverse/helm/maven/GenerateHelmChartPojo.java:261 | only null falls back; an empty string is kept |
| GenerateHelmChartPojo.ValidatedEffectiveName | maven-plugin/src/main/java/io/quarkiverse/helm/maven/GenerateHelmChartPojo.java:256-262 | the effective name is the artifact id when no chart or no chart name is set, the chart name otherwise, and after validation that name is empty or valid |
| GenerateHelmChartPojo.EffectiveVersionFallback | maven-plugin/src/main/java/io/quarkiverse/helm/maven/GenerateHelmChartPojo.java:281 | the chart's version when one is set; otherwise the project's version |
| GenerateHelmChartPojo.DefaultArray | maven-plugin/src/main/java/io/quarkiverse/helm/maven/GenerateHelmChartPojo.java:445-451 | no list gives no element; a list gives its elements in order |
| GenerateHelmChartPojo.ConfigReferences | maven-plugin/src/main/java/io/quarkiverse/helm/maven/GenerateHelmChartPojo.java:177-199 | nothing when the flag is off; otherwise four references, for `replicas`, `image`, `host` and `host`, in that order |
| GenerateHelmChartPojo.HostReferencesOverlap | maven-plugin/src/main/java/io/quarkiverse/helm/maven/GenerateHelmChartPojo.java:190-196 | the second `host` reference starts with the first one's path and adds the route's host path; all four references have no value and the prod profile |
| GenerateHelmChartPojo.ToConfigReference | maven-plugin/src/main/java/io/quarkiverse/helm/maven/GenerateHelmChartPojo.java:363-368 | the reference keeps the property, takes the typed value, takes the paths with none as empty, and takes the profile with null as empty |
| GenerateHelmChartPojo.ValueReferences | maven-plugin/src/main/java/io/quarkiverse/helm/maven/GenerateHelmChartPojo.java:357-375 | nothing without a chart or values; otherwise one reference per value, in order |
| HelmChartUploader.Credential | deployment/src/main/java/io/quarkiverse/helm/deployment/HelmRepository.java:37-43 | an empty username or password counts as unset |
| HelmChartUploader.Validate | deployment/src/main/java/io/quarkiverse/helm/deployment/HelmChartUploader.java:58-75 | passes exactly when the URL is non-empty, the type is set, and the username and password are both set or both unset; a missing URL is reported first |
| HelmChartUploader.EmptyCredentialsAreUnset | deployment/src/main/java/io/quarkiverse/helm/deployment/HelmChartUploader.java:69-74 | an empty username without a password passes; one credential without the other fails |
| HelmChartUploader.RepositoryUrl | deployment/src/main/java/io/quarkiverse/helm/deployment/HelmChartUploader.java:103-105 | the URL starts with the base URL and ends with the file name |
| HelmChartUploader.SlashAddedOnce | deployment/src/main/java/io/quarkiverse/helm/deployment/HelmChartUploader.java:103-105 | a `/` is added only when the base URL lacks one |
| HelmChartUploader.ShortExtensionRenames | deployment/src/main/java/io/quarkiverse/helm/deployment/HelmChartUploader.java:87-89 | a URL ending in `.tar.gz` ends in `.tgz` instead; the part before is kept |
| HelmChartUploader.NexusRequest | deployment/src/main/java/io/quarkiverse/helm/deployment/HelmChartUploader.java:85-92 | Nexus: PUT to the base URL and the file name, with `.tar.gz` shortened to `.tgz` |
| HelmChartUploader.OtherRequests | deployment/src/main/java/io/quarkiverse/helm/deployment/HelmChartUploader.java:93-100 | Artifactory: PUT to the same URL without renaming; ChartMuseum: POST to the base URL itself |
| HelmChartUploader.Outcome | deployment/src/main/java/io/quarkiverse/helm/deployment/HelmChartUploader.java:39-48 | a response code of 300 or above is an error |
| HelmChartUploader.Push | deployment/src/main/java/io/quarkiverse/helm/deployment/HelmChartUploader.java:31-35 | a configuration error stops the push before any request exists |
| HelmChartUploader.PushSucceeds | deployment/src/main/java/io/quarkiverse/helm/deployment/HelmChartUploader.java:31-56 | a push succeeds exactly when validation passes and the code is below 300, and then sends the request of the repository's type |
| HelmDependencyModel.Constructed | model/src/main/java/io/quarkiverse/helm/model/HelmDependency.java:42-53 | the six fields are copied; `enabled` is set, to false, exactly when the argument is false |
| HelmDependencyModel.SerializedKeys | model/src/main/java/io/quarkiverse/helm/model/HelmDependency.java:13 | `enabled` is written exactly when it is non-null; the name exactly when it is non-empty |
| HelmDependencyModel.EnabledIsOmitted | model/src/main/java/io/quarkiverse/helm/model/HelmDependency.java:50-52 | an enabled dependency shows no `enabled` key; a disabled one has `enabled: false` |
| HelmDependencyModel.ClearingEnabled | model/src/main/java/io/quarkiverse/helm/model/HelmDependency.java:107-109 | setting `enabled` back to null removes only that key |
| HelmDependencyModel.HelmDependency.Empty | model/src/main/java/io/quarkiverse/helm/model/HelmDependency.java:38-40 | every field starts null |
| HelmDependencyModel.HelmDependency.constructor | model/src/main/java/io/quarkiverse/helm/model/HelmDependency.java:42-53 | the fields are those of `Constructed` |
| HelmDependencyModel.HelmDependency.SetName | model/src/main/java/io/quarkiverse/helm/model/HelmDependency.java:59-61 | changes only the name |
| HelmDependencyModel.HelmDependency.SetAlias | model/src/main/java/io/quarkiverse/helm/model/HelmDependency.java:67-69 | changes only the alias |
| HelmDependencyModel.HelmDependency.SetVersion | model/src/main/java/io/quarkiverse/helm/model/HelmDependency.java:75-77 | changes only the version |
| HelmDependencyModel.HelmDependency.SetRepository | model/src/main/java/io/quarkiverse/helm/model/HelmDependency.java:83-85 | changes only the repository |
| HelmDependencyModel.HelmDependency.SetCondition | model/src/main/java/io/quarkiverse/helm/model/HelmDependency.java:91-93 | changes only the condition |
| HelmDependencyModel.HelmDependency.SetTags | model/src/main/java/io/quarkiverse/helm/model/HelmDependency.java:99-101 | changes only the tags |
| HelmDependencyModel.HelmDependency.SetEnabled | model/src/main/java/io/quarkiverse/helm/model/HelmDependency.java:107-109 | changes only `enabled` |

## Left out

- File-system I/O is not modelled: reading and writing files, copying helper templates, and the tar archive itself. A generated file is modelled as a name and one abstract document.
- The YAML path library's parser and predicate evaluation are not modelled. A document is a map from path text to value, so `read` is a lookup and `write` an update. A path that matches several nodes is not modelled.
- The regex clean-up at `QuarkusHelmWriterSessionListener.java:425` is left out. It removes escapes that Jackson inserts and depends on a regex engine. The six literal replacements before it are modelled.
- Serialization is not modelled. The YAML text of a resource is an input of `AdaptTemplate`, and the values file of `populateValuesFromConfig` is taken as the flat map that `toPlainMap` produces.
- The text of a map value in `String.format` depends on its hash order, so `Values.Formatted` takes it as the input `mapText`.
- `System.lineSeparator()` is fixed to `\n`. `toLowerCase` in the YAML file-name test is ASCII-only.
- HashMap iteration order is an explicit parameter wherever a result depends on it: the `envs.` claim scan, and `createSchema`'s two loops. The methods require that the order list each key of the map once (`ValuesHolder.Enumerates`). `MapUtils.ToPlainMap` picks keys by a fixed but unspecified choice.
- MapUtils.ToPlainMap: the recursive walk with its loop over the entries (`MapUtils.java:55-68`) is a ghost recursive function rather than a method. Its order over the keys is a ghost choice, so no method computes it.
- MapUtils.InsertPath and ValuesSchemaUtils.Place: the inner `for (index …)` loops that walk a key's segments (`MapUtils.java:37-46`, `ValuesSchemaUtils.java:36-47` and `90-101`) are recursive functions over the segments, called from the methods of the outer loops.
- MapUtils.ToMultiValueMap: the sorted and the unsorted variants are one method, because the model's maps carry no order. The sorted variant's use of an ordered map at every level is therefore not captured.
- ValuesSchemaUtils.CreateSchema: the nested, mutable `ValuesSchemaProperty` nodes are modelled as values, one node per path. Aliasing between nodes is therefore not captured. The final conversion of the schema to a map is left out, because `ValuesSchemaProperty`'s serialization is not part of this model.
- The dependency-condition flag at `QuarkusHelmWriterSessionListener.java:486` calls the dekorate library's `deductProperty`, which is not part of this model. The common variant stands in for it. Every other call in the listener uses the deployment variant.
- `SystemPropertiesUtils.getPropertyFromSystem` reads JVM properties and the environment. It is left out.
- The uploader's connection, authenticator, file streaming and error-body reading are left out, so the HTTP response code is an input of `Push`. `HelmRepositoryType` is not part of this model. Nexus and Artifactory are told apart, and every other type is treated as ChartMuseum, as `deductConnectionByRepositoryType` does.
- HelmDependencyModel.Constructed: a null `enabled` argument is not modelled. Unboxing it throws in Java, and the model takes a `bool`.
- GenerateHelmChartPojo.ToConfigReference: states only the property, paths, value and profile. The description, expression, required flag, pattern and bounds that the builder also takes are not modelled.
- The rest of the Maven plugin (`toDekorateHelmChartConfig`, the values-schema and dependency conversions, directory resolution) is configuration plumbing and is left out.
- GenerateHelmChartPojo.ValidatedEffectiveName: follows the code's `defaultString`, where only a null chart name falls back on the artifact id. An empty name stays empty rather than falling back. This matches the field comment at `maven-plugin/src/main/java/io/quarkiverse/helm/maven/Chart.java:10`, under which only an unset name uses the project name. The version follows the same rule.
- SystemPropertiesUtils.UnclosedStops: the scan stops without an entry only when no closer follows the opener. When a closer follows but balancing runs off the end of the input, the cut tentative is still added, as `UnclosedOuterPlaceholder` shows.
- Process execution (`helm dependency build`), the command-line tools, the Quarkus build steps and the configuration carriers are tooling glue and are left out. Their records appear only as input shapes.
- Floating-point numbers carry no arithmetic. The schema's `number` tag is kept for a non-Integer number, which is held as its text.
