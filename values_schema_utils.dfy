/**
 * The `values.schema.json` builder. Every prod value becomes a leaf of a tree
 * of schema properties, found by splitting its deduced property name on dots;
 * each dotted prefix is an `object` node. The leaf takes its type from the
 * value and its description, pattern, enumeration and bounds from the value's
 * reference. The configured schema properties are then laid over the tree,
 * changing only the fields they set.
 *
 * The source updates nodes in place through a moving `location` map. Here
 * the tree is a value and the path is rebuilt on the way back up, which is
 * the same thing because every node sits under exactly one path.
 */
module ValuesSchemaUtils {
  import opened Wrappers
  import opened JavaStrings
  import opened Values
  import opened HelmConfig
  import VH = ValuesHolder
  import Deployment = DeploymentHelmConfigUtils

  /** A node of the schema. Null strings are empty; an unset bound is `None`. */
  datatype SchemaProperty = SchemaProperty(
    typeName: string,
    description: string,
    pattern: string,
    enumValues: seq<string>,
    maximum: Option<int>,
    minimum: Option<int>,
    required: seq<string>,
    properties: map<string, SchemaProperty>)

  /** A node as `new ValuesSchemaProperty()` makes it: nothing set, no children, nothing required. */
  const Blank := SchemaProperty("", "", "", [], None, None, [], map[])

  /** An intermediate node made for a dotted prefix. */
  const ObjectNode := Blank.(typeName := "object")

  datatype Schema = Schema(title: string, properties: map<string, SchemaProperty>, required: seq<string>)

  /** A configured schema property (`quarkus.helm.values-schema.properties.<key>.*`). */
  datatype SchemaPropertyConfig = SchemaPropertyConfig(
    name: Option<string>,
    description: Option<string>,
    typeName: string,
    minimum: Option<int>,
    maximum: Option<int>,
    pattern: Option<string>,
    required: bool)

  /** The configured schema: its title and the properties keyed by their configuration key. */
  datatype ValuesSchemaConfig = ValuesSchemaConfig(title: string, properties: map<string, SchemaPropertyConfig>)

  /** What a leaf is updated from: a prod value with its reference, or a configured property. */
  datatype LeafUpdate = FromValue(holder: VH.HelmValueHolder) | FromConfig(config: SchemaPropertyConfig)

  /** The message of the exception indexing `tree[tree.length - 1]` of an empty split raises. */
  const EmptyTreeMessage := "Index -1 out of bounds for length 0"

  const TypeNames: set<string> := {"null", "integer", "number", "array", "boolean", "string"}

  /** The type tag of a value: Integer, other numbers, collections and booleans have their own; maps are strings. */
  function TypeOf(v: Value): (t: string)
    ensures t in TypeNames
    ensures t == "string" <==> v.VStr? || v.VMap?
  {
    match v
    case VNull => "null"
    case VInt(_) => "integer"
    case VNum(_) => "number"
    case VList(_) => "array"
    case VBool(_) => "boolean"
    case _ => "string"
  }

  predicate IsRequired(u: LeafUpdate)
  {
    match u
    case FromValue(h) => h.reference.required
    case FromConfig(c) => c.required
  }

  /** The leaf's new fields; its children and required list are never touched here. */
  function Apply(u: LeafUpdate, p: SchemaProperty): (q: SchemaProperty)
    ensures q.properties == p.properties && q.required == p.required
  {
    match u
    case FromValue(h) =>
      p.(description := h.reference.description,
         pattern := h.reference.pattern,
         enumValues := h.reference.enumValues,
         maximum := h.reference.maximum,
         minimum := h.reference.minimum,
         typeName := TypeOf(h.value))
    case FromConfig(c) =>
      p.(description := OrElse(c.description, p.description),
         pattern := OrElse(c.pattern, p.pattern),
         maximum := if c.maximum.Some? then c.maximum else p.maximum,
         minimum := if c.minimum.Some? then c.minimum else p.minimum,
         typeName := if c.typeName != "" then c.typeName else p.typeName)
  }

  /**
   * One pass of the inner loop and the leaf update below `props`: each
   * segment but the last is a node, created as an object when absent; the
   * last names the leaf, and a required leaf is appended to its parent's list.
   */
  function Place(props: map<string, SchemaProperty>, tree: seq<string>, u: LeafUpdate): (r: map<string, SchemaProperty>)
    requires |tree| >= 1
    ensures r.Keys == props.Keys + {tree[0]}
    ensures forall k :: k in props && k != tree[0] ==> r[k] == props[k]
    decreases |tree|
  {
    if |tree| == 1 then
      props[tree[0] := Apply(u, if tree[0] in props then props[tree[0]] else Blank)]
    else
      var next := if tree[0] in props then props[tree[0]] else ObjectNode;
      var required := if |tree| == 2 && IsRequired(u) then next.required + [tree[1]] else next.required;
      props[tree[0] := next.(properties := Place(next.properties, tree[1..], u), required := required)]
  }

  /** The segments a property name is placed at. */
  function Tree(config: ChartConfig, name: string): seq<string>
  {
    Split(Deployment.DeductProperty(config, name), '.')
  }

  /** One iteration of either loop of `createSchema`; a top-level required leaf goes to the root's list. */
  function Step(s: Schema, config: ChartConfig, name: string, u: LeafUpdate): (r: Result<Schema, string>)
    ensures r.Err? <==> Tree(config, name) == []
    ensures r.Ok? ==> r.value.title == s.title
  {
    var tree := Tree(config, name);
    if |tree| == 0 then Err(EmptyTreeMessage)
    else
      Ok(Schema(s.title,
                Place(s.properties, tree, u),
                if |tree| == 1 && IsRequired(u) then s.required + [tree[0]] else s.required))
  }

  /** The steps in loop order; the first exception ends the run. */
  function Build(s: Schema, config: ChartConfig, steps: seq<(string, LeafUpdate)>): Result<Schema, string>
    decreases |steps|
  {
    if |steps| == 0 then Ok(s)
    else
      match Build(s, config, steps[..|steps| - 1])
      case Err(e) => Err(e)
      case Ok(t) => Step(t, config, steps[|steps| - 1].0, steps[|steps| - 1].1)
  }

  /** The first loop's steps: a value's key is its name. */
  function ValueSteps(prodValues: VH.Bucket, order: seq<string>): (steps: seq<(string, LeafUpdate)>)
    requires forall k :: k in order ==> k in prodValues
    ensures |steps| == |order|
    ensures forall i :: 0 <= i < |order| ==> steps[i] == (order[i], FromValue(prodValues[order[i]]))
  {
    seq(|order|, i requires 0 <= i < |order| => (order[i], FromValue(prodValues[order[i]])))
  }

  /** The second loop's steps: a configured property is named by its `name`, or by its key when unset. */
  function ConfigSteps(properties: map<string, SchemaPropertyConfig>, order: seq<string>): (steps: seq<(string, LeafUpdate)>)
    requires forall k :: k in order ==> k in properties
    ensures |steps| == |order|
    ensures forall i :: 0 <= i < |order| ==> steps[i] == (OrElse(properties[order[i]].name, order[i]), FromConfig(properties[order[i]]))
  {
    seq(|order|, i requires 0 <= i < |order| => (OrElse(properties[order[i]].name, order[i]), FromConfig(properties[order[i]])))
  }

  /** `createSchema`, with the two maps' iteration orders as parameters. */
  function CreatedSchema(config: ChartConfig, schemaConfig: ValuesSchemaConfig, prodValues: VH.Bucket,
                         valueOrder: seq<string>, propertyOrder: seq<string>): Result<Schema, string>
    requires VH.Enumerates(valueOrder, prodValues) && VH.Enumerates(propertyOrder, schemaConfig.properties)
  {
    Build(Schema(schemaConfig.title, map[], []), config,
          ValueSteps(prodValues, valueOrder) + ConfigSteps(schemaConfig.properties, propertyOrder))
  }

  /** The node at a path of segments, if every segment is there. */
  function Lookup(props: map<string, SchemaProperty>, path: seq<string>): Option<SchemaProperty>
    decreases |path|
  {
    if |path| == 0 || path[0] !in props then None
    else if |path| == 1 then Some(props[path[0]])
    else Lookup(props[path[0]].properties, path[1..])
  }

  /** The fields a reused node keeps: everything but its children and its required list. */
  predicate SameHeader(n: SchemaProperty, o: SchemaProperty)
  {
    n.(properties := o.properties, required := o.required) == o
  }

  /** Every proper prefix of the tree ends at a node: the old one with its own fields, or a new object. */
  lemma {:induction false} PlaceMakesObjects(props: map<string, SchemaProperty>, tree: seq<string>, u: LeafUpdate, i: nat)
    requires 1 <= i < |tree|
    ensures var n := Lookup(Place(props, tree, u), tree[..i]);
      && n.Some?
      && (Lookup(props, tree[..i]).Some? ==> SameHeader(n.value, Lookup(props, tree[..i]).value))
      && (Lookup(props, tree[..i]).None? ==> SameHeader(n.value, ObjectNode))
    decreases |tree|
  {
    var next := if tree[0] in props then props[tree[0]] else ObjectNode;
    var r := Place(props, tree, u);
    if i > 1 {
      PlaceMakesObjects(next.properties, tree[1..], u, i - 1);
      assert tree[..i][1..] == tree[1..][..i - 1];
      if tree[0] !in props {
        assert Lookup(next.properties, tree[1..][..i - 1]) == None;
      }
    }
  }

  /** The leaf at the tree's path is the old leaf (or a blank one) with the update applied. */
  lemma {:induction false} PlaceSetsLeaf(props: map<string, SchemaProperty>, tree: seq<string>, u: LeafUpdate)
    requires |tree| >= 1
    ensures Lookup(Place(props, tree, u), tree) == Some(Apply(u, OrElse(Lookup(props, tree), Blank)))
    decreases |tree|
  {
    if |tree| > 1 {
      var next := if tree[0] in props then props[tree[0]] else ObjectNode;
      PlaceSetsLeaf(next.properties, tree[1..], u);
      if tree[0] !in props {
        assert Lookup(next.properties, tree[1..]) == None;
      }
    }
  }

  /** A required leaf below the top level is appended to its parent's required list, and only then. */
  lemma {:induction false} PlaceRequiresInParent(props: map<string, SchemaProperty>, tree: seq<string>, u: LeafUpdate)
    requires |tree| >= 2
    ensures var parent := tree[..|tree| - 1];
      var before := OrElse(Lookup(props, parent), Blank).required;
      Lookup(Place(props, tree, u), parent).Some?
      && Lookup(Place(props, tree, u), parent).value.required
         == if IsRequired(u) then before + [tree[|tree| - 1]] else before
    decreases |tree|
  {
    var next := if tree[0] in props then props[tree[0]] else ObjectNode;
    assert tree[..|tree| - 1][1..] == tree[1..][..|tree[1..]| - 1];
    if |tree| > 2 {
      PlaceRequiresInParent(next.properties, tree[1..], u);
      if tree[0] !in props {
        assert Lookup(next.properties, tree[1..][..|tree[1..]| - 1]) == None;
      }
    }
  }

  /** A leaf made from a value takes its type from the value and the other fields from the reference. */
  lemma ValueLeaf(props: map<string, SchemaProperty>, tree: seq<string>, h: VH.HelmValueHolder)
    requires |tree| >= 1
    ensures var old_ := OrElse(Lookup(props, tree), Blank);
      var leaf := Lookup(Place(props, tree, FromValue(h)), tree);
      && leaf.Some?
      && leaf.value.typeName == TypeOf(h.value)
      && leaf.value.description == h.reference.description
      && leaf.value.pattern == h.reference.pattern
      && leaf.value.enumValues == h.reference.enumValues
      && leaf.value.maximum == h.reference.maximum
      && leaf.value.minimum == h.reference.minimum
      && leaf.value.properties == old_.properties
      && leaf.value.required == old_.required
  {
    PlaceSetsLeaf(props, tree, FromValue(h));
  }

  /** A configured property overwrites only the fields it sets, and the type only when it is non-empty. */
  lemma ConfigLeaf(props: map<string, SchemaProperty>, tree: seq<string>, c: SchemaPropertyConfig)
    requires |tree| >= 1
    ensures var old_ := OrElse(Lookup(props, tree), Blank);
      var leaf := Lookup(Place(props, tree, FromConfig(c)), tree);
      && leaf.Some?
      && leaf.value.description == (if c.description.Some? then c.description.value else old_.description)
      && leaf.value.pattern == (if c.pattern.Some? then c.pattern.value else old_.pattern)
      && leaf.value.maximum == (if c.maximum.Some? then c.maximum else old_.maximum)
      && leaf.value.minimum == (if c.minimum.Some? then c.minimum else old_.minimum)
      && leaf.value.typeName == (if c.typeName != "" then c.typeName else old_.typeName)
      && leaf.value.enumValues == old_.enumValues
      && leaf.value.properties == old_.properties
      && leaf.value.required == old_.required
  {
    PlaceSetsLeaf(props, tree, FromConfig(c));
  }

  /**
   * One step puts the updated leaf at the name's segments, and a required
   * top-level leaf is appended to the root's list; a deeper one leaves it alone.
   */
  lemma StepPlacesLeaf(s: Schema, config: ChartConfig, name: string, u: LeafUpdate)
    requires Tree(config, name) != []
    ensures var tree := Tree(config, name);
      var r := Step(s, config, name, u).value;
      && Lookup(r.properties, tree) == Some(Apply(u, OrElse(Lookup(s.properties, tree), Blank)))
      && r.required == if |tree| == 1 && IsRequired(u) then s.required + [tree[0]] else s.required
  {
    PlaceSetsLeaf(s.properties, Tree(config, name), u);
  }

  /** A name that already carries its prefix lands where the bare name lands: deduction happens once. */
  lemma StepDeductsOnce(s: Schema, config: ChartConfig, name: string, u: LeafUpdate)
    ensures Step(s, config, Deployment.DeductProperty(config, name), u) == Step(s, config, name, u)
  {
    Deployment.DeductPropertyIdempotent(config, name);
  }

  /** Running two lists of steps is running the first, then the second on its result. */
  lemma {:induction false} BuildAppend(s: Schema, config: ChartConfig, a: seq<(string, LeafUpdate)>, b: seq<(string, LeafUpdate)>)
    ensures Build(s, config, a + b) ==
      match Build(s, config, a)
      case Err(e) => Err(e)
      case Ok(t) => Build(t, config, b)
    decreases |b|
  {
    if |b| == 0 {
      assert a + b == a;
    } else {
      BuildAppend(s, config, a, b[..|b| - 1]);
      assert (a + b)[..|a + b| - 1] == a + b[..|b| - 1];
      assert (a + b)[|a + b| - 1] == b[|b| - 1];
    }
  }

  /** Every step's name splits into at least one segment. */
  predicate AllPlaceable(config: ChartConfig, steps: seq<(string, LeafUpdate)>)
  {
    forall i :: 0 <= i < |steps| ==> Tree(config, steps[i].0) != []
  }

  /** One more step is placeable on top of the earlier ones exactly when its own name has a segment. */
  lemma AllPlaceableSnoc(config: ChartConfig, init: seq<(string, LeafUpdate)>, last: (string, LeafUpdate))
    ensures AllPlaceable(config, init + [last]) <==> AllPlaceable(config, init) && Tree(config, last.0) != []
  {
    var steps := init + [last];
    assert steps[|init|] == last;
    assert forall i :: 0 <= i < |init| ==> steps[i] == init[i];
  }

  /** The build succeeds exactly when every step's name has a segment, and then keeps the title. */
  lemma {:induction false} BuildFails(s: Schema, config: ChartConfig, steps: seq<(string, LeafUpdate)>)
    ensures Build(s, config, steps).Ok? <==> AllPlaceable(config, steps)
    ensures Build(s, config, steps).Ok? ==> Build(s, config, steps).value.title == s.title
    decreases |steps|
  {
    if |steps| > 0 {
      var init := steps[..|steps| - 1];
      var last := steps[|steps| - 1];
      assert steps == init + [last];
      BuildFails(s, config, init);
      AllPlaceableSnoc(config, init, last);
      match Build(s, config, init)
      case Err(e) =>
        assert Build(s, config, steps) == Err(e);
      case Ok(t) =>
        assert Build(s, config, steps) == Step(t, config, last.0, last.1);
    }
  }

  lemma {:induction false} NonEmptyHeadSurvives(ps: seq<string>)
    requires |ps| >= 1 && ps[0] != ""
    ensures |DropTrailingEmpty(ps)| >= 1
    decreases |ps|
  {
    if ps[|ps| - 1] == "" {
      NonEmptyHeadSurvives(ps[..|ps| - 1]);
    }
  }

  /** With a non-empty, dot-free values root alias every name has at least one segment, so the build never fails. */
  lemma TreeNeverEmpty(config: ChartConfig, name: string)
    requires config.valuesRootAlias != "" && '.' !in config.valuesRootAlias
    ensures Tree(config, name) != []
  {
    var alias := config.valuesRootAlias;
    var d := Deployment.DeductProperty(config, name);
    if Deployment.StartWithDependencyPrefix(name, config.dependencies) {
      assert d == name;
    } else {
      assert StartsWith(d, alias + ".") by {
        if !StartsWith(name, alias + ".") {
          Deployment.PrefixStartsWith(alias + ".", name);
        }
      }
      var rest := d[|alias| + 1..];
      assert d == alias + ['.'] + rest;
      PiecesAtFirstSeparator(alias, '.', rest);
      NonEmptyHeadSurvives(Pieces(d, '.'));
      assert d[|alias|] == '.';
    }
  }

  /** `createSchema`'s two loops, each proved to run the steps of its map in iteration order. */
  method CreateSchema(config: ChartConfig, schemaConfig: ValuesSchemaConfig, prodValues: VH.Bucket,
                      valueOrder: seq<string>, propertyOrder: seq<string>)
    returns (r: Result<Schema, string>)
    requires VH.Enumerates(valueOrder, prodValues) && VH.Enumerates(propertyOrder, schemaConfig.properties)
    ensures r == CreatedSchema(config, schemaConfig, prodValues, valueOrder, propertyOrder)
  {
    var valueSteps := ValueSteps(prodValues, valueOrder);
    var configSteps := ConfigSteps(schemaConfig.properties, propertyOrder);
    var schema := Schema(schemaConfig.title, map[], []);
    r := Ok(schema);
    for i := 0 to |valueOrder|
      invariant r == Build(schema, config, valueSteps[..i])
    {
      if r.Ok? {
        var key := valueOrder[i];
        r := Step(r.value, config, key, FromValue(prodValues[key]));
      }
      assert valueSteps[..i + 1][..i] == valueSteps[..i];
    }
    assert valueSteps[..|valueOrder|] == valueSteps;
    var middle := r;
    for i := 0 to |propertyOrder|
      invariant r == (match middle case Err(e) => Err(e) case Ok(t) => Build(t, config, configSteps[..i]))
    {
      if r.Ok? {
        var key := propertyOrder[i];
        var property := schemaConfig.properties[key];
        r := Step(r.value, config, OrElse(property.name, key), FromConfig(property));
      }
      assert configSteps[..i + 1][..i] == configSteps[..i];
    }
    assert configSteps[..|propertyOrder|] == configSteps;
    BuildAppend(schema, config, valueSteps, configSteps);
  }
}
