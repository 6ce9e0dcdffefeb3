/**
 * How the listener fills the values store: first from the chart
 * configuration (dependency flags, add-if defaults, the user's values file),
 * then by resolving every value reference against every generated YAML
 * manifest, and finally by back-filling each profile from prod.
 *
 * Resolution of one document is driven by a `seen` map (property to the value
 * first recorded for it in prod) and a `paths` set (paths already read). The
 * references run in a fixed order: user references before decorator
 * references, and every reference that is not an `envs.` property before any
 * that is. The values store only ever `putIfAbsent`s during resolution, so
 * the first writer of a (profile, property) pair wins.
 */
module ListenerValues {
  import opened Wrappers
  import opened JavaStrings
  import opened Values
  import opened HelmConfig
  import opened YamlExpressionParserUtils
  import VH = ValuesHolder
  import Common = CommonHelmConfigUtils
  import Deployment = DeploymentHelmConfigUtils

  const ENVIRONMENT_PROPERTY_GROUP: string := "envs."

  /** Property to the value first seen for it; a null mapping is the same as none. */
  type Seen = map<string, Value>

  /** `seen.get(property)`. */
  function SeenGet(seen: Seen, property: string): Value
  {
    if property in seen then seen[property] else VNull
  }

  /** `HashMap.putIfAbsent`: a key mapped to null counts as absent. */
  function SeenPutIfAbsent(seen: Seen, property: string, value: Value): (r: Seen)
    ensures SeenGet(seen, property) != VNull ==> r == seen
    ensures SeenGet(seen, property) == VNull ==> SeenGet(r, property) == value
    ensures forall p :: p != property ==> SeenGet(r, p) == SeenGet(seen, p)
  {
    if SeenGet(seen, property) != VNull then seen else seen[property := value]
  }

  /** Everything one document's resolution reads and changes. */
  datatype Scope = Scope(doc: Document, seen: Seen, paths: set<string>, values: VH.Buckets)

  // ---------------------------------------------------------------------
  // processValueReference
  // ---------------------------------------------------------------------

  /** One iteration of the loop over a reference's paths. */
  function PathStep(s: Scope, property: string, value: Value, reference: ConfigReference, path: string): Scope
  {
    var seenValue := SeenGet(s.seen, property);
    if path in s.paths && seenValue != VNull then s
    else
      var found := if seenValue == VNull then Read(s.doc, path) else seenValue;
      var paths := if seenValue == VNull then s.paths + {path} else s.paths;
      var actual := if value != VNull then value else found;
      if actual == VNull then s.(paths := paths)
      else
        Scope(Set(s.doc, path, ToExpression(property, value, found, reference)),
              if reference.profile == "" then SeenPutIfAbsent(s.seen, property, actual) else s.seen,
              paths,
              s.values.PutIfAbsent(property, VH.HelmValueHolder(actual, reference), reference.profile))
  }

  /** The paths, in order. */
  function PathsFold(s: Scope, property: string, value: Value, reference: ConfigReference, ps: seq<string>): Scope
    decreases |ps|
  {
    if ps == [] then s
    else PathStep(PathsFold(s, property, value, reference, ps[..|ps| - 1]), property, value, reference, ps[|ps| - 1])
  }

  /** `processValueReference(property, value, reference, ...)`. */
  function ReferenceProcessed(s: Scope, property: string, value: Value, reference: ConfigReference): Scope
  {
    if |reference.paths| > 0 then PathsFold(s, property, value, reference, reference.paths)
    else
      s.(values := s.values.PutIfAbsent(property, VH.HelmValueHolder(value, reference), reference.profile),
         seen := if reference.profile == "" then SeenPutIfAbsent(s.seen, property, value) else s.seen)
  }

  /** A reference without paths is recorded in its profile and touches no document. */
  lemma NoPathsRecordsOnly(s: Scope, property: string, value: Value, reference: ConfigReference)
    requires |reference.paths| == 0
    ensures var r := ReferenceProcessed(s, property, value, reference);
      && r.doc == s.doc && r.paths == s.paths
      && r.values == s.values.PutIfAbsent(property, VH.HelmValueHolder(value, reference), reference.profile)
      && (reference.profile == "" ==> r.seen == SeenPutIfAbsent(s.seen, property, value))
      && (reference.profile != "" ==> r.seen == s.seen)
  {
  }

  /** A path already read is skipped once the property has a seen value. */
  lemma SeenPathIsSkipped(s: Scope, property: string, value: Value, reference: ConfigReference, path: string)
    requires path in s.paths && SeenGet(s.seen, property) != VNull
    ensures PathStep(s, property, value, reference, path) == s
  {
  }

  /** With nothing provided, nothing seen and nothing at the path, the path changes no document and records nothing. */
  lemma NullPathIsSkipped(s: Scope, property: string, reference: ConfigReference, path: string)
    requires SeenGet(s.seen, property) == VNull && Read(s.doc, path) == VNull
    ensures var r := PathStep(s, property, VNull, reference, path);
      r.doc == s.doc && r.seen == s.seen && r.values == s.values && r.paths == s.paths + {path}
  {
  }

  /** The document is read only when the property has no seen value, and the path then joins `paths`. */
  lemma DocumentReadOnlyWhenUnseen(s: Scope, other: Document, property: string, value: Value, reference: ConfigReference, path: string)
    requires SeenGet(s.seen, property) != VNull
    ensures var r := PathStep(s, property, value, reference, path);
      var t := PathStep(s.(doc := other), property, value, reference, path);
      r.seen == t.seen && r.paths == t.paths && r.values == t.values && r.paths == s.paths
  {
  }

  lemma UnseenPathJoins(s: Scope, property: string, value: Value, reference: ConfigReference, path: string)
    requires SeenGet(s.seen, property) == VNull
    ensures PathStep(s, property, value, reference, path).paths == s.paths + {path}
  {
  }

  /**
   * A path that is not skipped and has a non-null value receives
   * `toExpression(property, provided, found)`: the holder keeps the first value
   * per (profile, property), and `seen` changes only for prod.
   */
  lemma PathWrite(s: Scope, property: string, value: Value, reference: ConfigReference, path: string)
    requires !(path in s.paths && SeenGet(s.seen, property) != VNull)
    ensures var found := if SeenGet(s.seen, property) == VNull then Read(s.doc, path) else SeenGet(s.seen, property);
      var actual := if value != VNull then value else found;
      var r := PathStep(s, property, value, reference, path);
      actual != VNull ==>
        && r.doc == Set(s.doc, path, ToExpression(property, value, found, reference))
        && r.values == s.values.PutIfAbsent(property, VH.HelmValueHolder(actual, reference), reference.profile)
        && (reference.profile == "" ==> r.seen == SeenPutIfAbsent(s.seen, property, actual))
        && (reference.profile != "" ==> r.seen == s.seen)
  {
  }

  // ---------------------------------------------------------------------
  // First writer wins
  // ---------------------------------------------------------------------

  lemma PathStepExtends(s: Scope, property: string, value: Value, reference: ConfigReference, path: string)
    ensures VH.Extends(PathStep(s, property, value, reference, path).values, s.values)
  {
    var found := if SeenGet(s.seen, property) == VNull then Read(s.doc, path) else SeenGet(s.seen, property);
    var actual := if value != VNull then value else found;
    VH.PutIfAbsentExtends(s.values, property, VH.HelmValueHolder(actual, reference), reference.profile);
  }

  lemma {:induction false} PathsFoldExtends(s: Scope, property: string, value: Value, reference: ConfigReference, ps: seq<string>)
    ensures VH.Extends(PathsFold(s, property, value, reference, ps).values, s.values)
    decreases |ps|
  {
    if ps != [] {
      var before := PathsFold(s, property, value, reference, ps[..|ps| - 1]);
      PathsFoldExtends(s, property, value, reference, ps[..|ps| - 1]);
      PathStepExtends(before, property, value, reference, ps[|ps| - 1]);
      VH.ExtendsTransitive(s.values, before.values, PathsFold(s, property, value, reference, ps).values);
    }
  }

  /** Processing a reference never changes or removes an entry that is already recorded. */
  lemma ProcessExtends(s: Scope, property: string, value: Value, reference: ConfigReference)
    ensures VH.Extends(ReferenceProcessed(s, property, value, reference).values, s.values)
  {
    if |reference.paths| > 0 {
      PathsFoldExtends(s, property, value, reference, reference.paths);
    } else {
      VH.PutIfAbsentExtends(s.values, property, VH.HelmValueHolder(value, reference), reference.profile);
    }
  }

  /** When the property already has an entry in its registered profile bucket, no path adds or changes an entry. */
  lemma {:induction false} PathsFoldKeepsPresent(s: Scope, property: string, value: Value, reference: ConfigReference, ps: seq<string>)
    requires VH.Registered(s.values, reference.profile) && property in s.values.BucketOf(reference.profile)
    ensures PathsFold(s, property, value, reference, ps).values == s.values
    decreases |ps|
  {
    if ps != [] {
      var before := PathsFold(s, property, value, reference, ps[..|ps| - 1]);
      PathsFoldKeepsPresent(s, property, value, reference, ps[..|ps| - 1]);
      var path := ps[|ps| - 1];
      var found := if SeenGet(before.seen, property) == VNull then Read(before.doc, path) else SeenGet(before.seen, property);
      var actual := if value != VNull then value else found;
      VH.PutIfAbsentPresent(before.values, property, VH.HelmValueHolder(actual, reference), reference.profile);
    }
  }

  lemma ProcessKeepsPresent(s: Scope, property: string, value: Value, reference: ConfigReference)
    requires VH.Registered(s.values, reference.profile) && property in s.values.BucketOf(reference.profile)
    ensures ReferenceProcessed(s, property, value, reference).values == s.values
  {
    if |reference.paths| > 0 {
      PathsFoldKeepsPresent(s, property, value, reference, reference.paths);
    } else {
      VH.PutIfAbsentPresent(s.values, property, VH.HelmValueHolder(value, reference), reference.profile);
    }
  }

  // ---------------------------------------------------------------------
  // Environment properties
  // ---------------------------------------------------------------------

  /** `valueIsEnvironmentProperty`. */
  predicate IsEnvironmentProperty(reference: ConfigReference)
  {
    Contains(reference.property, ENVIRONMENT_PROPERTY_GROUP)
  }

  /** `getEnvironmentPropertyName`: what follows the first `envs.`, or the whole property without one. */
  function EnvironmentPropertyName(property: string): (name: string)
    ensures !Contains(property, ENVIRONMENT_PROPERTY_GROUP) ==> name == property
    ensures Contains(property, ENVIRONMENT_PROPERTY_GROUP) ==> EndsWith(property, name) && |name| + |ENVIRONMENT_PROPERTY_GROUP| <= |property|
  {
    var i := IndexOf(property, ENVIRONMENT_PROPERTY_GROUP, 0);
    if i >= 0 then property[i + |ENVIRONMENT_PROPERTY_GROUP|..] else property
  }

  /** The property is what precedes its first `envs.`, then `envs.`, then the environment name. */
  lemma EnvironmentPropertySplit(property: string)
    requires Contains(property, ENVIRONMENT_PROPERTY_GROUP)
    ensures var i := IndexOf(property, ENVIRONMENT_PROPERTY_GROUP, 0);
      && property == property[..i] + ENVIRONMENT_PROPERTY_GROUP + EnvironmentPropertyName(property)
      && forall j :: 0 <= j < i ==> !OccursAt(property, ENVIRONMENT_PROPERTY_GROUP, j)
  {
    var i := IndexOf(property, ENVIRONMENT_PROPERTY_GROUP, 0);
    var n := |ENVIRONMENT_PROPERTY_GROUP|;
    IndexOfFinds(property, ENVIRONMENT_PROPERTY_GROUP, 0);
    assert property[i..i + n] == ENVIRONMENT_PROPERTY_GROUP;
    assert EnvironmentPropertyName(property) == property[i + n..];
    assert property[i..] == property[i..i + n] + property[i + n..];
    assert property == property[..i] + property[i..];
  }

  /** A key of the bucket that the environment reference may adopt. */
  predicate Claimable(bucket: VH.Bucket, key: string, suffix: string)
  {
    key in bucket && EndsWith(key, suffix)
  }

  /** The first key, in the bucket's iteration order `keys`, that ends with the environment name. */
  function ClaimKey(bucket: VH.Bucket, keys: seq<string>, suffix: string): (claim: Option<string>)
    ensures claim.Some? ==> Claimable(bucket, claim.value, suffix) && claim.value in keys
    ensures claim.None? <==> forall j :: 0 <= j < |keys| ==> !Claimable(bucket, keys[j], suffix)
    decreases |keys|
  {
    if keys == [] then None
    else if Claimable(bucket, keys[0], suffix) then Some(keys[0])
    else
      var rest := ClaimKey(bucket, keys[1..], suffix);
      assert forall j :: 1 <= j < |keys| ==> keys[j] == keys[1..][j - 1];
      rest
  }

  /** The claim is the first claimable key of the iteration order. */
  lemma {:induction false} ClaimKeyIsFirst(bucket: VH.Bucket, keys: seq<string>, suffix: string, i: int)
    requires 0 <= i < |keys| && Claimable(bucket, keys[i], suffix)
    requires forall j :: 0 <= j < i ==> !Claimable(bucket, keys[j], suffix)
    ensures ClaimKey(bucket, keys, suffix) == Some(keys[i])
    decreases i
  {
    if i > 0 {
      assert !Claimable(bucket, keys[0], suffix);
      ClaimKeyIsFirst(bucket, keys[1..], suffix, i - 1);
    }
  }

  /** The claim sits at a position of the order with no claimable key before it. */
  lemma {:induction false} ClaimKeyPosition(bucket: VH.Bucket, keys: seq<string>, suffix: string) returns (i: int)
    requires ClaimKey(bucket, keys, suffix).Some?
    ensures 0 <= i < |keys| && keys[i] == ClaimKey(bucket, keys, suffix).value
    ensures forall j :: 0 <= j < i ==> !Claimable(bucket, keys[j], suffix)
    decreases |keys|
  {
    if Claimable(bucket, keys[0], suffix) {
      i := 0;
    } else {
      var tail := ClaimKeyPosition(bucket, keys[1..], suffix);
      i := tail + 1;
      assert forall j :: 1 <= j < i ==> keys[j] == keys[1..][j - 1];
    }
  }

  /**
   * Over the bucket's own iteration order, a claim exists exactly when some
   * key of the bucket ends with the environment name.
   */
  lemma ClaimFindsBucketKey(bucket: VH.Bucket, keys: seq<string>, suffix: string)
    requires VH.Enumerates(keys, bucket)
    ensures ClaimKey(bucket, keys, suffix).Some? <==> exists k :: k in bucket && EndsWith(k, suffix)
  {
    if exists k :: k in bucket && EndsWith(k, suffix) {
      var k :| k in bucket && EndsWith(k, suffix);
      var j :| 0 <= j < |keys| && keys[j] == k;
      assert Claimable(bucket, keys[j], suffix);
    }
  }

  /** One reference of the first pass; `envs.` references are left for the second. */
  function NonEnvStep(s: Scope, config: ChartConfig, reference: ConfigReference): Scope
  {
    if IsEnvironmentProperty(reference) then s
    else ReferenceProcessed(s, Deployment.DeductProperty(config, reference.property), reference.value, reference)
  }

  /**
   * One reference of the second pass: `get(profile)` registers the profile;
   * the first key of that bucket ending with the environment name is adopted
   * with its value, and otherwise the deduced property with the reference's
   * own value is used.
   */
  function EnvStep(s: Scope, config: ChartConfig, reference: ConfigReference, order: VH.Bucket -> seq<string>): Scope
  {
    if !IsEnvironmentProperty(reference) then s
    else
      var bucket := s.values.BucketOf(reference.profile);
      var touched := s.(values := s.values.Touch(reference.profile));
      match ClaimKey(bucket, order(bucket), EnvironmentPropertyName(reference.property))
      case Some(key) => ReferenceProcessed(touched, key, bucket[key].value, reference)
      case None => ReferenceProcessed(touched, Deployment.DeductProperty(config, reference.property), reference.value, reference)
  }

  function NonEnvPass(s: Scope, config: ChartConfig, references: seq<ConfigReference>): Scope
    decreases |references|
  {
    if references == [] then s
    else NonEnvStep(NonEnvPass(s, config, references[..|references| - 1]), config, references[|references| - 1])
  }

  lemma NonEnvPassStep(s: Scope, config: ChartConfig, references: seq<ConfigReference>, i: nat)
    requires i < |references|
    ensures NonEnvPass(s, config, references[..i + 1]) == NonEnvStep(NonEnvPass(s, config, references[..i]), config, references[i])
  {
    assert references[..i + 1][..i] == references[..i];
  }

  function EnvPass(s: Scope, config: ChartConfig, references: seq<ConfigReference>, order: VH.Bucket -> seq<string>): Scope
    decreases |references|
  {
    if references == [] then s
    else EnvStep(EnvPass(s, config, references[..|references| - 1], order), config, references[|references| - 1], order)
  }

  /** A document's resolution: fresh `seen` and `paths`, the first pass, then the second. */
  function ResolveScope(doc: Document, config: ChartConfig, values: VH.Buckets, references: seq<ConfigReference>, order: VH.Bucket -> seq<string>): Scope
  {
    EnvPass(NonEnvPass(Scope(doc, map[], {}, values), config, references), config, references, order)
  }

  /**
   * An `envs.X` reference whose profile bucket holds a key ending with `X`
   * adopts the first such key of the bucket's iteration order: the store
   * gains no new entry (only the profile's registration), and the document
   * is resolved against the adopted key and its value.
   */
  lemma EnvironmentClaimAddsNoEntry(s: Scope, config: ChartConfig, reference: ConfigReference, order: VH.Bucket -> seq<string>)
    requires IsEnvironmentProperty(reference)
    requires VH.Enumerates(order(s.values.BucketOf(reference.profile)), s.values.BucketOf(reference.profile))
    requires exists k :: k in s.values.BucketOf(reference.profile) && EndsWith(k, EnvironmentPropertyName(reference.property))
    ensures var bucket := s.values.BucketOf(reference.profile);
      var name := EnvironmentPropertyName(reference.property);
      var claim := ClaimKey(bucket, order(bucket), name);
      && claim.Some?
      && var key := claim.value;
      && key in bucket && EndsWith(key, name)
      && (exists i :: 0 <= i < |order(bucket)| && order(bucket)[i] == key
             && forall j :: 0 <= j < i ==> !EndsWith(order(bucket)[j], name))
      && var r := EnvStep(s, config, reference, order);
      && r.values == s.values.Touch(reference.profile)
      && r.doc == ReferenceProcessed(s.(values := s.values.Touch(reference.profile)), key, bucket[key].value, reference).doc
  {
    var bucket := s.values.BucketOf(reference.profile);
    var name := EnvironmentPropertyName(reference.property);
    ClaimFindsBucketKey(bucket, order(bucket), name);
    var key := ClaimKey(bucket, order(bucket), name).value;
    var i := ClaimKeyPosition(bucket, order(bucket), name);
    assert forall j :: 0 <= j < i ==> order(bucket)[j] in bucket;
    var touched := s.(values := s.values.Touch(reference.profile));
    VH.TouchRegisters(s.values, reference.profile);
    VH.TouchRegistersOnce(s.values, reference.profile);
    ProcessKeepsPresent(touched, key, bucket[key].value, reference);
  }

  /** Without a claimable key, the reference is processed under its deduced property with its own value. */
  lemma EnvironmentWithoutClaim(s: Scope, config: ChartConfig, reference: ConfigReference, order: VH.Bucket -> seq<string>)
    requires IsEnvironmentProperty(reference)
    requires forall k :: k in s.values.BucketOf(reference.profile) ==> !EndsWith(k, EnvironmentPropertyName(reference.property))
    ensures EnvStep(s, config, reference, order)
         == ReferenceProcessed(s.(values := s.values.Touch(reference.profile)),
                                  Deployment.DeductProperty(config, reference.property), reference.value, reference)
  {
    var bucket := s.values.BucketOf(reference.profile);
    var claim := ClaimKey(bucket, order(bucket), EnvironmentPropertyName(reference.property));
    assert claim.None?;
  }

  lemma {:induction false} NonEnvPassExtends(s: Scope, config: ChartConfig, references: seq<ConfigReference>)
    ensures VH.Extends(NonEnvPass(s, config, references).values, s.values)
    decreases |references|
  {
    if references != [] {
      var before := NonEnvPass(s, config, references[..|references| - 1]);
      var reference := references[|references| - 1];
      NonEnvPassExtends(s, config, references[..|references| - 1]);
      if !IsEnvironmentProperty(reference) {
        ProcessExtends(before, Deployment.DeductProperty(config, reference.property), reference.value, reference);
      }
      VH.ExtendsTransitive(s.values, before.values, NonEnvPass(s, config, references).values);
    }
  }

  lemma EnvStepExtends(s: Scope, config: ChartConfig, reference: ConfigReference, order: VH.Bucket -> seq<string>)
    ensures VH.Extends(EnvStep(s, config, reference, order).values, s.values)
  {
    if IsEnvironmentProperty(reference) {
      var bucket := s.values.BucketOf(reference.profile);
      var touched := s.(values := s.values.Touch(reference.profile));
      VH.PutIfAbsentExtends(s.values, "", VH.HelmValueHolder(VNull, reference), reference.profile);
      match ClaimKey(bucket, order(bucket), EnvironmentPropertyName(reference.property))
      case Some(key) =>
        ProcessExtends(touched, key, bucket[key].value, reference);
      case None =>
        ProcessExtends(touched, Deployment.DeductProperty(config, reference.property), reference.value, reference);
      VH.ExtendsTransitive(s.values, touched.values, EnvStep(s, config, reference, order).values);
    }
  }

  lemma {:induction false} EnvPassExtends(s: Scope, config: ChartConfig, references: seq<ConfigReference>, order: VH.Bucket -> seq<string>)
    ensures VH.Extends(EnvPass(s, config, references, order).values, s.values)
    decreases |references|
  {
    if references != [] {
      var before := EnvPass(s, config, references[..|references| - 1], order);
      EnvPassExtends(s, config, references[..|references| - 1], order);
      EnvStepExtends(before, config, references[|references| - 1], order);
      VH.ExtendsTransitive(s.values, before.values, EnvPass(s, config, references, order).values);
    }
  }

  lemma {:induction false} NonEnvPassAppend(s: Scope, config: ChartConfig, a: seq<ConfigReference>, b: seq<ConfigReference>)
    ensures NonEnvPass(s, config, a + b) == NonEnvPass(NonEnvPass(s, config, a), config, b)
    decreases |b|
  {
    if b == [] {
      assert a + b == a;
    } else {
      assert (a + b)[..|a + b| - 1] == a + b[..|b| - 1];
      assert (a + b)[|a + b| - 1] == b[|b| - 1];
      NonEnvPassAppend(s, config, a, b[..|b| - 1]);
    }
  }

  /**
   * Ordering: every entry that the user references record in the first pass
   * is still there, unchanged, after the decorator references and after the
   * whole second pass.
   */
  lemma UserReferencesWin(doc: Document, config: ChartConfig, values: VH.Buckets, user: seq<ConfigReference>, decorators: seq<ConfigReference>, order: VH.Bucket -> seq<string>)
    ensures var start := Scope(doc, map[], {}, values);
      VH.Extends(ResolveScope(doc, config, values, user + decorators, order).values, NonEnvPass(start, config, user).values)
  {
    var start := Scope(doc, map[], {}, values);
    var first := NonEnvPass(start, config, user);
    var both := NonEnvPass(start, config, user + decorators);
    NonEnvPassAppend(start, config, user, decorators);
    NonEnvPassExtends(first, config, decorators);
    EnvPassExtends(both, config, user + decorators, order);
    VH.ExtendsTransitive(first.values, both.values, ResolveScope(doc, config, values, user + decorators, order).values);
  }

  /** Ordering: every entry of the first pass survives the `envs.` pass. */
  lemma NonEnvironmentWins(doc: Document, config: ChartConfig, values: VH.Buckets, references: seq<ConfigReference>, order: VH.Bucket -> seq<string>)
    ensures VH.Extends(ResolveScope(doc, config, values, references, order).values,
                       NonEnvPass(Scope(doc, map[], {}, values), config, references).values)
  {
    EnvPassExtends(NonEnvPass(Scope(doc, map[], {}, values), config, references), config, references, order);
  }

  // ---------------------------------------------------------------------
  // populateValuesFromConfigReferences
  // ---------------------------------------------------------------------

  /** A generated file: its name and its (single, abstract) document. */
  datatype GeneratedFile = GeneratedFile(name: string, content: Document)

  predicate IsLineTerminator(c: char)
  {
    c == '\n' || c == '\r' || c == '\U{85}' || c == '\U{2028}' || c == '\U{2029}'
  }

  /** `name.toLowerCase().matches(".*?\\.ya?ml$")`: no line terminator, and a `.yml` or `.yaml` ending. */
  predicate IsYamlFileName(name: string)
  {
    var lower := ToLowerAscii(name);
    (forall i :: 0 <= i < |name| ==> !IsLineTerminator(name[i]))
    && (EndsWith(lower, ".yaml") || EndsWith(lower, ".yml"))
  }

  /** The files in order; each YAML file is resolved with every reference, users' first. */
  function ResolveFiles(config: ChartConfig, files: seq<GeneratedFile>, values: VH.Buckets, references: seq<ConfigReference>, order: VH.Bucket -> seq<string>): (seq<Document>, VH.Buckets)
    decreases |files|
  {
    if files == [] then ([], values)
    else
      var (docs, before) := ResolveFiles(config, files[..|files| - 1], values, references, order);
      var file := files[|files| - 1];
      if !IsYamlFileName(file.name) then (docs, before)
      else
        var s := ResolveScope(file.content, config, before, references, order);
        (docs + [s.doc], s.values)
  }

  /** Across all files no recorded entry is ever replaced: the first file to record a (profile, property) pair fixes it. */
  lemma {:induction false} ResolveFilesExtends(config: ChartConfig, files: seq<GeneratedFile>, values: VH.Buckets, references: seq<ConfigReference>, order: VH.Bucket -> seq<string>)
    ensures VH.Extends(ResolveFiles(config, files, values, references, order).1, values)
    ensures |ResolveFiles(config, files, values, references, order).0| <= |files|
    decreases |files|
  {
    if files != [] {
      var (docs, before) := ResolveFiles(config, files[..|files| - 1], values, references, order);
      ResolveFilesExtends(config, files[..|files| - 1], values, references, order);
      var file := files[|files| - 1];
      if IsYamlFileName(file.name) {
        var start := Scope(file.content, map[], {}, before);
        NonEnvPassExtends(start, config, references);
        EnvPassExtends(NonEnvPass(start, config, references), config, references, order);
        VH.ExtendsTransitive(before, NonEnvPass(start, config, references).values, ResolveScope(file.content, config, before, references, order).values);
        VH.ExtendsTransitive(values, before, ResolveFiles(config, files, values, references, order).1);
      }
    }
  }

  /** A file whose name is not a YAML name is skipped. */
  lemma NonYamlFileIsSkipped(config: ChartConfig, files: seq<GeneratedFile>, file: GeneratedFile, values: VH.Buckets, references: seq<ConfigReference>, order: VH.Bucket -> seq<string>)
    requires !IsYamlFileName(file.name)
    ensures ResolveFiles(config, files + [file], values, references, order) == ResolveFiles(config, files, values, references, order)
  {
    assert (files + [file])[..|files|] == files;
  }

  /** The per-document state of `populateValuesFromConfigReferences`: the parsed document, `seen` and `paths`. */
  class ResolutionScope {
    var doc: Document
    var seen: Seen
    var paths: set<string>

    constructor (content: Document)
      ensures doc == content && seen == map[] && paths == {}
    {
      doc := content;
      seen := map[];
      paths := {};
    }

    function State(values: VH.ValuesHolder): Scope
      reads this, values
    {
      Scope(doc, seen, paths, values.Model())
    }

    /** One iteration of the loop over a reference's paths. */
    method ProcessPath(property: string, value: Value, reference: ConfigReference, path: string, values: VH.ValuesHolder)
      modifies this, values
      ensures State(values) == PathStep(old(State(values)), property, value, reference, path)
    {
      var found := SeenGet(seen, property);
      if !(path in paths && found != VNull) {
        if found == VNull {
          found := Read(doc, path);
          paths := paths + {path};
        }
        var actualValue := if value != VNull then value else found;
        if actualValue != VNull {
          doc := Set(doc, path, ToExpression(property, value, found, reference));
          values.PutIfAbsent(property, VH.HelmValueHolder(actualValue, reference), reference.profile);
          if reference.profile == "" {
            seen := SeenPutIfAbsent(seen, property, actualValue);
          }
        }
      }
    }

    /** `processValueReference`. */
    method ProcessValueReference(property: string, value: Value, reference: ConfigReference, values: VH.ValuesHolder)
      modifies this, values
      ensures State(values) == ReferenceProcessed(old(State(values)), property, value, reference)
    {
      var profile := reference.profile;
      if |reference.paths| > 0 {
        var i := 0;
        while i < |reference.paths|
          invariant 0 <= i <= |reference.paths|
          invariant State(values) == PathsFold(old(State(values)), property, value, reference, reference.paths[..i])
        {
          ProcessPath(property, value, reference, reference.paths[i], values);
          assert reference.paths[..i + 1][..i] == reference.paths[..i];
          i := i + 1;
        }
        assert reference.paths[..i] == reference.paths;
      } else {
        values.PutIfAbsent(property, VH.HelmValueHolder(value, reference), profile);
        if profile == "" {
          seen := SeenPutIfAbsent(seen, property, value);
        }
      }
    }

    /** The first loop of `populateValuesFromConfigReferences`: every reference that is not an `envs.` property. */
    method ResolveNonEnvironment(config: ChartConfig, references: seq<ConfigReference>, values: VH.ValuesHolder)
      modifies this, values
      ensures State(values) == NonEnvPass(old(State(values)), config, references)
    {
      var i := 0;
      while i < |references|
        invariant 0 <= i <= |references|
        invariant State(values) == NonEnvPass(old(State(values)), config, references[..i])
      {
        var reference := references[i];
        NonEnvPassStep(old(State(values)), config, references, i);
        if !IsEnvironmentProperty(reference) {
          var property := Deployment.DeductProperty(config, reference.property);
          ProcessValueReference(property, reference.value, reference, values);
        }
        i := i + 1;
      }
      assert references[..i] == references;
    }

    /** The second loop: each `envs.` reference, after trying to adopt an existing key of its profile. */
    method ResolveEnvironment(config: ChartConfig, references: seq<ConfigReference>, values: VH.ValuesHolder, order: VH.Bucket -> seq<string>)
      requires forall b :: VH.Enumerates(order(b), b)
      modifies this, values
      ensures State(values) == EnvPass(old(State(values)), config, references, order)
    {
      var i := 0;
      while i < |references|
        invariant 0 <= i <= |references|
        invariant State(values) == EnvPass(old(State(values)), config, references[..i], order)
      {
        var reference := references[i];
        if IsEnvironmentProperty(reference) {
          var property := Deployment.DeductProperty(config, reference.property);
          var value := reference.value;
          var environmentProperty := EnvironmentPropertyName(reference.property);
          var current := values.Get(reference.profile);
          var claim := FindClaim(current, order(current), environmentProperty);
          if claim.Some? {
            property := claim.value;
            value := current[claim.value].value;
          }
          ProcessValueReference(property, value, reference, values);
        }
        assert references[..i + 1][..i] == references[..i];
        i := i + 1;
      }
      assert references[..i] == references;
    }
  }

  /** The scan of the current bucket for a key ending with the environment name, stopping at the first. */
  method FindClaim(current: VH.Bucket, keys: seq<string>, suffix: string) returns (claim: Option<string>)
    ensures claim == ClaimKey(current, keys, suffix)
  {
    claim := None;
    var i := 0;
    while i < |keys|
      invariant 0 <= i <= |keys|
      invariant forall j :: 0 <= j < i ==> !Claimable(current, keys[j], suffix)
    {
      if keys[i] in current && EndsWith(keys[i], suffix) {
        ClaimKeyIsFirst(current, keys, suffix, i);
        return Some(keys[i]);
      }
      i := i + 1;
    }
  }

  /** `populateValuesFromConfigReferences`: the resolved documents, in file order, and the filled store. */
  method PopulateValuesFromConfigReferences(config: ChartConfig, files: seq<GeneratedFile>, values: VH.ValuesHolder,
                                            fromUser: seq<ConfigReference>, fromDecorators: seq<ConfigReference>,
                                            order: VH.Bucket -> seq<string>)
    returns (resources: seq<Document>)
    requires forall b :: VH.Enumerates(order(b), b)
    modifies values
    ensures (resources, values.Model()) == ResolveFiles(config, files, old(values.Model()), fromUser + fromDecorators, order)
  {
    resources := [];
    var i := 0;
    while i < |files|
      invariant 0 <= i <= |files|
      invariant (resources, values.Model()) == ResolveFiles(config, files[..i], old(values.Model()), fromUser + fromDecorators, order)
    {
      var file := files[i];
      assert files[..i + 1][..i] == files[..i];
      if IsYamlFileName(file.name) {
        var scope := new ResolutionScope(file.content);
        var references := fromUser + fromDecorators;
        scope.ResolveNonEnvironment(config, references, values);
        scope.ResolveEnvironment(config, references, values, order);
        resources := resources + [scope.doc];
      }
      i := i + 1;
    }
    assert files[..i] == files;
  }

  // ---------------------------------------------------------------------
  // Profile back-fill (createValuesYaml)
  // ---------------------------------------------------------------------

  /** A profile bucket completed from prod: its own keys are kept, and every prod key it lacks is added. */
  function Backfilled(prod: VH.Bucket, bucket: VH.Bucket): (r: VH.Bucket)
    ensures r.Keys == bucket.Keys + prod.Keys
    ensures forall k :: k in bucket ==> r[k] == bucket[k]
    ensures forall k :: k in prod && k !in bucket ==> r[k] == prod[k]
  {
    map k | k in bucket.Keys + prod.Keys :: if k in bucket then bucket[k] else prod[k]
  }

  /** The inner loop: every prod entry whose key the profile bucket lacks is put into it. */
  method BackfillBucket(prod: VH.Bucket, bucket: VH.Bucket) returns (values: VH.Bucket)
    ensures values == Backfilled(prod, bucket)
  {
    values := bucket;
    var todo := prod.Keys;
    while todo != {}
      invariant todo <= prod.Keys
      invariant values.Keys == bucket.Keys + (prod.Keys - todo)
      invariant forall k :: k in bucket ==> values[k] == bucket[k]
      invariant forall k :: k in values && k !in bucket ==> values[k] == prod[k]
      decreases todo
    {
      var key :| key in todo;
      if key !in values {
        values := values[key := prod[key]];
      }
      todo := todo - {key};
    }
  }

  /** The outer loop: each profile bucket of the holder is back-filled from prod; prod and the set of profiles stay as they are. */
  method BackfillProfiles(holder: VH.ValuesHolder)
    modifies holder
    ensures holder.prodValues == old(holder.prodValues)
    ensures holder.valuesByProfile.Keys == old(holder.valuesByProfile.Keys)
    ensures forall p :: p in holder.valuesByProfile ==>
      holder.valuesByProfile[p] == Backfilled(holder.prodValues, old(holder.valuesByProfile)[p])
  {
    var byProfile := holder.valuesByProfile;
    var todo := byProfile.Keys;
    while todo != {}
      invariant todo <= byProfile.Keys
      invariant holder.prodValues == old(holder.prodValues)
      invariant holder.valuesByProfile.Keys == byProfile.Keys
      invariant forall p :: p in byProfile && p !in todo ==>
        holder.valuesByProfile[p] == Backfilled(holder.prodValues, byProfile[p])
      invariant forall p :: p in todo ==> holder.valuesByProfile[p] == byProfile[p]
      decreases todo
    {
      var profile :| profile in todo;
      var filled := BackfillBucket(holder.prodValues, byProfile[profile]);
      holder.valuesByProfile := holder.valuesByProfile[profile := filled];
      todo := todo - {profile};
    }
  }

  // ---------------------------------------------------------------------
  // populateValuesFromConfig
  // ---------------------------------------------------------------------

  /** The reference recorded for a dependency's condition flag. */
  function DependencyFlagReference(property: string, dependency: Dependency): ConfigReference
  {
    SimpleReference(property, [], VNull).(description := "Flag to enable/disable the dependency '" + dependency.name + "'")
  }

  /** The reference recorded for an add-if statement's property. */
  function AddIfReference(property: string, statement: AddIfStatement): ConfigReference
  {
    SimpleReference(property, [], VBool(statement.withDefaultValue)).(description := statement.description)
  }

  /** The first loop: a `true` flag in prod for every dependency with a condition. */
  function DependencyFlags(config: ChartConfig, dependencies: seq<Dependency>): VH.Bucket
    decreases |dependencies|
  {
    if dependencies == [] then map[]
    else
      var prod := DependencyFlags(config, dependencies[..|dependencies| - 1]);
      var d := dependencies[|dependencies| - 1];
      if d.condition == "" then prod
      else
        var property := Common.DeductPropertyFor(config, d.condition);
        prod[property := VH.HelmValueHolder(VBool(true), DependencyFlagReference(property, d))]
  }

  /** The second loop: each add-if property with its default value, overwriting. */
  function AddIfDefaults(config: ChartConfig, prod: VH.Bucket, statements: seq<AddIfStatement>): VH.Bucket
    decreases |statements|
  {
    if statements == [] then prod
    else
      var before := AddIfDefaults(config, prod, statements[..|statements| - 1]);
      var statement := statements[|statements| - 1];
      var property := Deployment.DeductProperty(config, statement.property);
      var reference := AddIfReference(property, statement);
      before[property := VH.HelmValueHolder(reference.value, reference)]
  }

  /** The third loop: every entry of the values file, overwriting. */
  function FileValues(prod: VH.Bucket, fileValues: map<string, Value>): VH.Bucket
  {
    prod + map k | k in fileValues :: VH.HelmValueHolder(fileValues[k], SimpleReference(k, [], fileValues[k]))
  }

  /** The prod bucket `populateValuesFromConfig` builds. */
  function ConfigValues(config: ChartConfig, fileValues: map<string, Value>): VH.Bucket
  {
    FileValues(AddIfDefaults(config, DependencyFlags(config, config.dependencies), config.addIfStatements), fileValues)
  }

  /** A dependency flag is `true`, under the deduced condition of some dependency that has one. */
  lemma {:induction false} DependencyFlagsAreTrue(config: ChartConfig, dependencies: seq<Dependency>, k: string)
    requires k in DependencyFlags(config, dependencies)
    ensures DependencyFlags(config, dependencies)[k].value == VBool(true)
    ensures exists i :: (0 <= i < |dependencies| && dependencies[i].condition != ""
      && Common.DeductPropertyFor(config, dependencies[i].condition) == k)
    decreases |dependencies|
  {
    var n := |dependencies|;
    var d := dependencies[n - 1];
    if d.condition != "" && Common.DeductPropertyFor(config, d.condition) == k {
    } else {
      DependencyFlagsAreTrue(config, dependencies[..n - 1], k);
      var i :| 0 <= i < n - 1 && dependencies[..n - 1][i].condition != ""
        && Common.DeductPropertyFor(config, dependencies[..n - 1][i].condition) == k;
      assert dependencies[i] == dependencies[..n - 1][i];
    }
  }

  /** Every dependency with a condition has its flag. */
  lemma {:induction false} DependencyWithConditionHasFlag(config: ChartConfig, dependencies: seq<Dependency>, i: int)
    requires 0 <= i < |dependencies| && dependencies[i].condition != ""
    ensures Common.DeductPropertyFor(config, dependencies[i].condition) in DependencyFlags(config, dependencies)
    decreases |dependencies|
  {
    var n := |dependencies|;
    if i < n - 1 {
      assert dependencies[..n - 1][i] == dependencies[i];
      DependencyWithConditionHasFlag(config, dependencies[..n - 1], i);
    }
  }

  /** The last add-if statement for a property decides its default. */
  lemma AddIfLastWins(config: ChartConfig, prod: VH.Bucket, earlier: seq<AddIfStatement>, last: AddIfStatement)
    ensures var r := AddIfDefaults(config, prod, earlier + [last]);
      var property := Deployment.DeductProperty(config, last.property);
      && r[property].value == VBool(last.withDefaultValue)
      && r[property].reference.description == last.description
      && r.Keys == AddIfDefaults(config, prod, earlier).Keys + {property}
  {
    assert (earlier + [last])[..|earlier|] == earlier;
  }

  /** Add-if statements only add or overwrite keys. */
  lemma {:induction false} AddIfKeepsKeys(config: ChartConfig, prod: VH.Bucket, statements: seq<AddIfStatement>)
    ensures prod.Keys <= AddIfDefaults(config, prod, statements).Keys
    decreases |statements|
  {
    if statements != [] {
      AddIfKeepsKeys(config, prod, statements[..|statements| - 1]);
    }
  }

  /** The values file wins over every generated default; everything else is the defaults. */
  lemma FileValuesWin(config: ChartConfig, fileValues: map<string, Value>)
    ensures var r := ConfigValues(config, fileValues);
      var defaults := AddIfDefaults(config, DependencyFlags(config, config.dependencies), config.addIfStatements);
      && r.Keys == defaults.Keys + fileValues.Keys
      && (forall k :: k in fileValues ==> r[k].value == fileValues[k] && r[k].reference.profile == "")
      && (forall k :: k in defaults && k !in fileValues ==> r[k] == defaults[k])
  {
  }

  lemma FileValuesStep(prod: VH.Bucket, done: map<string, Value>, key: string, v: Value)
    ensures FileValues(prod, done[key := v])
         == FileValues(prod, done)[key := VH.HelmValueHolder(v, SimpleReference(key, [], v))]
  {
  }

  /** `populateValuesFromConfig` (its in-memory part): every entry goes to prod. */
  method PopulateValuesFromConfig(config: ChartConfig, fileValues: map<string, Value>) returns (values: VH.ValuesHolder)
    ensures fresh(values)
    ensures values.valuesByProfile == map[]
    ensures values.prodValues == ConfigValues(config, fileValues)
  {
    values := new VH.ValuesHolder();
    PutDependencyFlags(config, values);
    PutAddIfDefaults(config, values);
    PutFileValues(fileValues, values);
  }

  /** One more dependency of the flag loop puts a flag into prod when it has a condition. */
  lemma DependencyFlagsStep(config: ChartConfig, dependencies: seq<Dependency>, i: nat)
    requires i < |dependencies|
    ensures var prod := DependencyFlags(config, dependencies[..i]);
      var d := dependencies[i];
      var property := Common.DeductPropertyFor(config, d.condition);
      DependencyFlags(config, dependencies[..i + 1])
        == if d.condition == "" then prod
           else prod[property := VH.HelmValueHolder(VBool(true), DependencyFlagReference(property, d))]
  {
    assert dependencies[..i + 1][..i] == dependencies[..i];
  }

  /** Its first loop: dependency conditions. */
  method PutDependencyFlags(config: ChartConfig, values: VH.ValuesHolder)
    requires values.prodValues == map[] && values.valuesByProfile == map[]
    modifies values
    ensures values.valuesByProfile == map[]
    ensures values.prodValues == DependencyFlags(config, config.dependencies)
  {
    var i := 0;
    while i < |config.dependencies|
      invariant 0 <= i <= |config.dependencies|
      invariant values.valuesByProfile == map[]
      invariant values.prodValues == DependencyFlags(config, config.dependencies[..i])
    {
      var dependency := config.dependencies[i];
      DependencyFlagsStep(config, config.dependencies, i);
      if dependency.condition != "" {
        var propertyName := Common.DeductPropertyFor(config, dependency.condition);
        var reference := DependencyFlagReference(propertyName, dependency);
        values.Put(propertyName, VH.HelmValueHolder(VBool(true), reference), reference.profile);
      }
      i := i + 1;
    }
    assert config.dependencies[..i] == config.dependencies;
  }

  /** One more statement of the add-if loop puts its default into prod. */
  lemma AddIfDefaultsStep(config: ChartConfig, prod: VH.Bucket, statements: seq<AddIfStatement>, j: nat)
    requires j < |statements|
    ensures var property := Deployment.DeductProperty(config, statements[j].property);
      var reference := AddIfReference(property, statements[j]);
      AddIfDefaults(config, prod, statements[..j + 1])
        == AddIfDefaults(config, prod, statements[..j])[property := VH.HelmValueHolder(reference.value, reference)]
  {
    assert statements[..j + 1][..j] == statements[..j];
  }

  /** Its second loop: add-if statements. */
  method PutAddIfDefaults(config: ChartConfig, values: VH.ValuesHolder)
    requires values.valuesByProfile == map[]
    modifies values
    ensures values.valuesByProfile == map[]
    ensures values.prodValues == AddIfDefaults(config, old(values.prodValues), config.addIfStatements)
  {
    var j := 0;
    while j < |config.addIfStatements|
      invariant 0 <= j <= |config.addIfStatements|
      invariant values.valuesByProfile == map[]
      invariant values.prodValues == AddIfDefaults(config, old(values.prodValues), config.addIfStatements[..j])
    {
      var statement := config.addIfStatements[j];
      var propertyName := Deployment.DeductProperty(config, statement.property);
      AddIfDefaultsStep(config, old(values.prodValues), config.addIfStatements, j);
      values.PutReference(propertyName, AddIfReference(propertyName, statement));
      j := j + 1;
    }
    assert config.addIfStatements[..j] == config.addIfStatements;
  }

  /** Its third loop: the entries of the values file. */
  method PutFileValues(fileValues: map<string, Value>, values: VH.ValuesHolder)
    requires values.valuesByProfile == map[]
    modifies values
    ensures values.valuesByProfile == map[]
    ensures values.prodValues == FileValues(old(values.prodValues), fileValues)
  {
    var todo := fileValues.Keys;
    ghost var done: map<string, Value> := map[];
    while todo != {}
      invariant todo <= fileValues.Keys
      invariant done.Keys == fileValues.Keys - todo
      invariant forall k :: k in done ==> done[k] == fileValues[k]
      invariant values.valuesByProfile == map[]
      invariant values.prodValues == FileValues(old(values.prodValues), done)
      decreases todo
    {
      var key :| key in todo;
      FileValuesStep(old(values.prodValues), done, key, fileValues[key]);
      values.PutReference(key, SimpleReference(key, [], fileValues[key]));
      done := done[key := fileValues[key]];
      todo := todo - {key};
    }
    assert done == fileValues;
  }
}
