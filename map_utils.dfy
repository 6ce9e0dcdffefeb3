/**
 * Conversion between flat maps with dotted keys (`a.b.c = v`) and nested
 * maps (`a -> b -> {c: v}`). Nested maps are `VMap` values. The source map is
 * a hash map whose iteration order is unspecified: the conversion loop picks
 * its next key arbitrarily, and the flattening function fixes one arbitrary
 * order, so nothing proved here depends on the order.
 */
module MapUtils {
  import opened Wrappers
  import opened JavaStrings
  import opened Values

  type NestedMap = map<string, Value>

  /** The dot-separated segments of a key, as `split(Pattern.quote("."))` yields them. */
  function Segments(key: string): seq<string>
  {
    Split(key, '.')
  }

  /** The inner loop: walk down the segments, reusing nested maps and replacing anything else by a fresh one. */
  function InsertPath(m: NestedMap, nodes: seq<string>, v: Value): (r: NestedMap)
    requires |nodes| >= 1
    ensures r.Keys == m.Keys + {nodes[0]}
    ensures forall k :: k in m && k != nodes[0] ==> r[k] == m[k]
    ensures |nodes| == 1 ==> r[nodes[0]] == v
    ensures |nodes| > 1 ==> r[nodes[0]].VMap?
    decreases |nodes|
  {
    if |nodes| == 1 then m[nodes[0] := v]
    else
      var child := if nodes[0] in m && m[nodes[0]].VMap? then m[nodes[0]].entries else map[];
      m[nodes[0] := VMap(InsertPath(child, nodes[1..], v))]
  }

  /** One entry of `toMultiValueMap`; a key made only of dots has no segment, and indexing the last one fails. */
  function PutEntry(m: NestedMap, key: string, v: Value): (r: Result<NestedMap, string>)
    ensures r.Err? <==> Segments(key) == []
    ensures |Segments(key)| == 1 ==> r == Ok(m[key := v])
  {
    var nodes := Segments(key);
    if |nodes| == 0 then Err("ArrayIndexOutOfBoundsException")
    else if |nodes| == 1 then Ok(m[key := v])
    else Ok(InsertPath(m, nodes, v))
  }

  /** The value `v` sits in `t` at the end of the path `nodes`, every node before it a nested map. */
  ghost predicate Leaf(t: NestedMap, nodes: seq<string>, v: Value)
    decreases |nodes|
  {
    |nodes| >= 1 && nodes[0] in t &&
    if |nodes| == 1 then t[nodes[0]] == v
    else t[nodes[0]].VMap? && Leaf(t[nodes[0]].entries, nodes[1..], v)
  }

  /** `a` is a prefix of `b`, possibly equal to it. */
  predicate SeqPrefix(a: seq<string>, b: seq<string>)
  {
    |a| <= |b| && b[..|a|] == a
  }

  /** `key` is `a.b.c` with non-empty segments: it neither starts nor ends with a dot, nor holds two in a row. */
  predicate CleanKey(key: string)
  {
    forall i :: 0 <= i < |Pieces(key, '.')| ==> Pieces(key, '.')[i] != ""
  }

  /** The round-trip condition: clean keys, no map values, and no key a dotted prefix of another. */
  predicate Clean(source: NestedMap)
  {
    && (forall k :: k in source ==> CleanKey(k) && !source[k].VMap?)
    && (forall k1, k2 :: k1 in source && k2 in source && k1 != k2 ==> !SeqPrefix(Segments(k1), Segments(k2)))
  }

  /** Every key at every level holds no dot. */
  ghost predicate DotFree(v: Value)
    decreases v
  {
    v.VMap? ==> forall k :: k in v.entries ==> '.' !in k && DotFree(v.entries[k])
  }

  // ---------------------------------------------------------------------
  // Segments and joining
  // ---------------------------------------------------------------------

  lemma {:induction false} PiecesAreSeparatorFree(s: string, sep: char)
    ensures forall i :: 0 <= i < |Pieces(s, sep)| ==> sep !in Pieces(s, sep)[i]
    decreases |s|
  {
    if s != [] {
      PiecesAreSeparatorFree(s[1..], sep);
    }
  }

  /** Joining the pieces with the separator gives the string back. */
  lemma {:induction false} JoinPieces(s: string)
    ensures Join(Pieces(s, '.'), ".") == s
    decreases |s|
  {
    if s != [] {
      var rest := Pieces(s[1..], '.');
      JoinPieces(s[1..]);
      if s[0] == '.' {
        assert Pieces(s, '.') == [""] + rest;
        assert ([""] + rest)[1..] == rest;
        assert s == "." + s[1..];
      } else {
        var ps := [[s[0]] + rest[0]] + rest[1..];
        assert Pieces(s, '.') == ps;
        if |rest| == 1 {
          assert Join(ps, ".") == [s[0]] + rest[0];
          assert s == [s[0]] + s[1..];
        } else {
          assert ps[1..] == rest[1..];
          assert Join(ps, ".") == [s[0]] + rest[0] + "." + Join(rest[1..], ".");
          assert Join(rest, ".") == rest[0] + "." + Join(rest[1..], ".");
          assert s == [s[0]] + s[1..];
        }
      }
    }
  }

  /** Splitting a join of dot-free segments gives the segments back. */
  lemma {:induction false} PiecesOfJoin(p: seq<string>)
    requires |p| >= 1 && forall i :: 0 <= i < |p| ==> '.' !in p[i]
    ensures Pieces(Join(p, "."), '.') == p
    decreases |p|
  {
    if |p| == 1 {
      PiecesWithoutSeparator(p[0], '.');
    } else {
      PiecesOfJoin(p[1..]);
      PiecesAtFirstSeparator(p[0], '.', Join(p[1..], "."));
      assert Join(p, ".") == p[0] + ['.'] + Join(p[1..], ".");
      assert [p[0]] + p[1..] == p;
    }
  }

  /** Different paths of dot-free segments join to different keys. */
  lemma JoinInjective(a: seq<string>, b: seq<string>)
    requires |a| >= 1 && forall i :: 0 <= i < |a| ==> '.' !in a[i]
    requires |b| >= 1 && forall i :: 0 <= i < |b| ==> '.' !in b[i]
    requires Join(a, ".") == Join(b, ".")
    ensures a == b
  {
    PiecesOfJoin(a);
    PiecesOfJoin(b);
  }

  /** For a clean key, `split` keeps every piece, and joining them gives the key. */
  lemma CleanKeySegments(key: string)
    requires CleanKey(key)
    ensures Segments(key) == Pieces(key, '.')
    ensures |Segments(key)| >= 1 && Join(Segments(key), ".") == key
    ensures forall i :: 0 <= i < |Segments(key)| ==> '.' !in Segments(key)[i] && Segments(key)[i] != ""
    ensures |Segments(key)| == 1 ==> Segments(key) == [key]
  {
    JoinPieces(key);
    PiecesAreSeparatorFree(key, '.');
    if '.' !in key {
      PiecesWithoutSeparator(key, '.');
    }
  }

  // ---------------------------------------------------------------------
  // Insertion
  // ---------------------------------------------------------------------

  /** Example: `a.b.c = v` in an empty map is `a -> b -> {c: v}`. */
  lemma InsertIntoEmpty(a: string, b: string, c: string, v: Value)
    ensures InsertPath(map[], [a, b, c], v) == map[a := VMap(map[b := VMap(map[c := v])])]
  {
    assert [a, b, c][1..] == [b, c];
    assert [b, c][1..] == [c];
    assert InsertPath(map[], [c], v) == map[c := v];
    assert InsertPath(map[], [b, c], v) == map[b := VMap(map[c := v])];
  }

  /** An intermediate node holding anything but a nested map is replaced by a fresh map. */
  lemma InsertReplacesNonMap(m: NestedMap, nodes: seq<string>, v: Value)
    requires |nodes| > 1 && nodes[0] in m && !m[nodes[0]].VMap?
    ensures InsertPath(m, nodes, v)[nodes[0]] == VMap(InsertPath(map[], nodes[1..], v))
  {
  }

  /** The inserted value is found at the end of its path. */
  lemma {:induction false} InsertFinds(m: NestedMap, nodes: seq<string>, v: Value)
    requires |nodes| >= 1
    ensures Leaf(InsertPath(m, nodes, v), nodes, v)
    decreases |nodes|
  {
    if |nodes| > 1 {
      var child := if nodes[0] in m && m[nodes[0]].VMap? then m[nodes[0]].entries else map[];
      InsertFinds(child, nodes[1..], v);
    }
  }

  /** Below a shared first element, prefixes are prefixes of the tails. */
  lemma SeqPrefixTails(a: seq<string>, b: seq<string>)
    requires |a| >= 1 && |b| >= 1 && a[0] == b[0]
    ensures SeqPrefix(a, b) <==> SeqPrefix(a[1..], b[1..])
  {
    assert a == [a[0]] + a[1..];
    if |a| <= |b| {
      assert b[..|a|] == [b[0]] + b[1..][..|a| - 1];
    }
  }

  /** A value on a path that branches off the inserted one stays where it is. */
  lemma {:induction false} InsertKeeps(m: NestedMap, nodes: seq<string>, v: Value, other: seq<string>, w: Value)
    requires |nodes| >= 1 && Leaf(m, other, w)
    requires !SeqPrefix(nodes, other) && !SeqPrefix(other, nodes)
    ensures Leaf(InsertPath(m, nodes, v), other, w)
    decreases |nodes|
  {
    if nodes[0] == other[0] {
      assert other[..1] == [other[0]] && nodes[..1] == [nodes[0]];
      assert |nodes| > 1 && |other| > 1;
      SeqPrefixTails(nodes, other);
      SeqPrefixTails(other, nodes);
      InsertKeeps(m[nodes[0]].entries, nodes[1..], v, other[1..], w);
    }
  }

  /** A plain value found after an insertion is the inserted one, or was there before. */
  lemma {:induction false} InsertAddsOnlyItself(m: NestedMap, nodes: seq<string>, v: Value, other: seq<string>, w: Value)
    requires |nodes| >= 1 && !v.VMap? && !w.VMap?
    requires Leaf(InsertPath(m, nodes, v), other, w)
    ensures (other == nodes && w == v) || Leaf(m, other, w)
    decreases |nodes|
  {
    if other[0] == nodes[0] && |nodes| > 1 && |other| > 1 {
      var child := if nodes[0] in m && m[nodes[0]].VMap? then m[nodes[0]].entries else map[];
      InsertAddsOnlyItself(child, nodes[1..], v, other[1..], w);
      if other[1..] == nodes[1..] {
        assert other == [other[0]] + other[1..] && nodes == [nodes[0]] + nodes[1..];
      }
    }
  }

  lemma {:induction false} InsertKeepsDotFree(m: NestedMap, nodes: seq<string>, v: Value)
    requires |nodes| >= 1 && DotFree(VMap(m)) && DotFree(v)
    requires forall i :: 0 <= i < |nodes| ==> '.' !in nodes[i]
    ensures DotFree(VMap(InsertPath(m, nodes, v)))
    decreases |nodes|
  {
    if |nodes| > 1 {
      var child := if nodes[0] in m && m[nodes[0]].VMap? then m[nodes[0]].entries else map[];
      assert DotFree(VMap(child)) by {
        if nodes[0] in m && m[nodes[0]].VMap? {
          assert DotFree(m[nodes[0]]);
        }
      }
      InsertKeepsDotFree(child, nodes[1..], v);
    }
  }

  /** Keys sharing a first segment share one nested map: both values are found under it. */
  lemma SiblingsShareParent(m: NestedMap, a: string, b: string, c: string, v: Value, w: Value)
    requires b != c
    ensures var t := InsertPath(InsertPath(m, [a, b], v), [a, c], w);
      Leaf(t, [a, b], v) && Leaf(t, [a, c], w) && t[a].VMap?
  {
    InsertFinds(m, [a, b], v);
    InsertKeeps(InsertPath(m, [a, b], v), [a, c], w, [a, b], v);
    InsertFinds(InsertPath(m, [a, b], v), [a, c], w);
  }

  // ---------------------------------------------------------------------
  // toMultiValueMap
  // ---------------------------------------------------------------------

  /** The done entries of a clean source are exactly the plain leaves of the tree. */
  ghost predicate HoldsExactly(t: NestedMap, source: NestedMap, done: set<string>)
    requires done <= source.Keys
  {
    && (forall k :: k in done ==> Leaf(t, Segments(k), source[k]))
    && (forall nodes, w :: Leaf(t, nodes, w) && !w.VMap? ==>
          exists k :: k in done && nodes == Segments(k) && w == source[k])
  }

  lemma CleanSegmentsDiverge(source: NestedMap, k1: string, k2: string)
    requires Clean(source) && k1 in source && k2 in source && k1 != k2
    ensures !SeqPrefix(Segments(k1), Segments(k2)) && !SeqPrefix(Segments(k2), Segments(k1))
  {
  }

  /** One step of the conversion loop keeps the correspondence between entries and leaves. */
  lemma InsertStep(t: NestedMap, source: NestedMap, done: set<string>, key: string)
    requires Clean(source) && done <= source.Keys && key in source && key !in done
    requires HoldsExactly(t, source, done) && DotFree(VMap(t))
    ensures HoldsExactly(InsertPath(t, Segments(key), source[key]), source, done + {key})
    ensures DotFree(VMap(InsertPath(t, Segments(key), source[key])))
  {
    CleanKeySegments(key);
    var nodes := Segments(key);
    var v := source[key];
    var t2 := InsertPath(t, nodes, v);
    InsertFinds(t, nodes, v);
    forall k | k in done
      ensures Leaf(t2, Segments(k), source[k])
    {
      CleanSegmentsDiverge(source, key, k);
      InsertKeeps(t, nodes, v, Segments(k), source[k]);
    }
    forall other, w | Leaf(t2, other, w) && !w.VMap?
      ensures exists k :: k in done + {key} && other == Segments(k) && w == source[k]
    {
      InsertAddsOnlyItself(t, nodes, v, other, w);
    }
    InsertKeepsDotFree(t, nodes, v);
  }

  /**
   * `toMultiValueMap` (the sorted and the unsorted variant alike): every
   * entry is inserted along its segments, in the source map's own order. A
   * key made only of dots fails. For a clean source, the entries are exactly
   * the plain leaves of the result, and flattening the result gives the
   * source back.
   */
  method ToMultiValueMap(source: NestedMap) returns (r: Result<NestedMap, string>)
    ensures r.Err? <==> exists k :: k in source && Segments(k) == []
    ensures r.Ok? && Clean(source) ==> HoldsExactly(r.value, source, source.Keys)
    ensures r.Ok? && Clean(source) ==> ToPlainMap(r.value) == source
  {
    var multiValueMap: NestedMap := map[];
    var todo := source.Keys;
    while todo != {}
      invariant todo <= source.Keys
      invariant forall k :: k in source && k !in todo ==> Segments(k) != []
      invariant Clean(source) ==> HoldsExactly(multiValueMap, source, source.Keys - todo) && DotFree(VMap(multiValueMap))
      decreases todo
    {
      var key :| key in todo;
      var nodes := Segments(key);
      if |nodes| == 0 {
        return Err("ArrayIndexOutOfBoundsException");
      }
      if Clean(source) {
        CleanKeySegments(key);
        InsertStep(multiValueMap, source, source.Keys - todo, key);
      }
      if |nodes| == 1 {
        multiValueMap := multiValueMap[key := source[key]];
      } else {
        multiValueMap := InsertPath(multiValueMap, nodes, source[key]);
      }
      assert source.Keys - (todo - {key}) == (source.Keys - todo) + {key};
      todo := todo - {key};
    }
    r := Ok(multiValueMap);
    if Clean(source) {
      RoundTrip(multiValueMap, source);
    }
  }

  // ---------------------------------------------------------------------
  // toPlainMap
  // ---------------------------------------------------------------------

  /** The entry `toPlainMap` takes next from a non-empty key set: one fixed but unspecified choice. */
  ghost function Pick(keys: set<string>): (k: string)
    requires keys != {}
    ensures k in keys
  {
    var k :| k in keys; k
  }

  /**
   * `toPlainMap(path, map)` restricted to `keys`: the entries in one fixed but
   * unspecified order, later entries overwriting earlier ones.
   */
  ghost function Flatten(path: seq<string>, m: NestedMap, keys: set<string>): NestedMap
    requires keys <= m.Keys
    decreases VMap(m), |keys| + 1
  {
    if keys == {} then map[]
    else
      var k := Pick(keys);
      Flatten(path, m, keys - {k}) + FlattenEntry(path, m, k)
  }

  /** One entry: a nested map is flattened under the key's path, any other value put under the dot-joined path. */
  ghost function FlattenEntry(path: seq<string>, m: NestedMap, k: string): NestedMap
    requires k in m
    decreases VMap(m), 0
  {
    var v := m[k];
    assert v < VMap(m);
    if v.VMap? then Flatten(path + [k], v.entries, v.entries.Keys)
    else map[Join(path + [k], ".") := v]
  }

  /** `toPlainMap(map)`. */
  ghost function ToPlainMap(m: NestedMap): NestedMap
  {
    Flatten([], m, m.Keys)
  }

  ghost predicate SegmentsDotFree(p: seq<string>)
  {
    forall i :: 0 <= i < |p| ==> '.' !in p[i]
  }

  /** The plain key comes from a leaf reached through a first element in `keys`. */
  ghost predicate FromLeaf(path: seq<string>, m: NestedMap, keys: set<string>, key: string, v: Value)
  {
    exists nodes :: |nodes| >= 1 && nodes[0] in keys && key == Join(path + nodes, ".") && Leaf(m, nodes, v) && !v.VMap?
  }

  /** Every plain key comes from one leaf: it is the joined path, and the leaf holds its value, which is never a map. */
  lemma {:induction false} FlattenSound(path: seq<string>, m: NestedMap, keys: set<string>, key: string)
    requires keys <= m.Keys && key in Flatten(path, m, keys)
    ensures FromLeaf(path, m, keys, key, Flatten(path, m, keys)[key])
    decreases VMap(m), |keys| + 1
  {
    var k := Pick(keys);
    var entry := FlattenEntry(path, m, k);
    if key in entry {
      EntrySound(path, m, k, key);
      var nodes :| |nodes| >= 1 && nodes[0] == k && key == Join(path + nodes, ".") && Leaf(m, nodes, entry[key]) && !entry[key].VMap?;
      assert nodes[0] in keys;
    } else {
      FlattenSound(path, m, keys - {k}, key);
      var f := Flatten(path, m, keys - {k});
      var nodes :| |nodes| >= 1 && nodes[0] in keys - {k} && key == Join(path + nodes, ".") && Leaf(m, nodes, f[key]) && !f[key].VMap?;
      assert nodes[0] in keys;
    }
  }

  lemma {:induction false} EntrySound(path: seq<string>, m: NestedMap, k: string, key: string)
    requires k in m && key in FlattenEntry(path, m, k)
    ensures exists nodes :: (|nodes| >= 1 && nodes[0] == k && key == Join(path + nodes, ".")
      && Leaf(m, nodes, FlattenEntry(path, m, k)[key]) && !FlattenEntry(path, m, k)[key].VMap?)
    decreases VMap(m), 0
  {
    var v := m[k];
    var e := FlattenEntry(path, m, k);
    assert v < VMap(m);
    if v.VMap? {
      var sub := Flatten(path + [k], v.entries, v.entries.Keys);
      assert e == sub;
      FlattenSound(path + [k], v.entries, v.entries.Keys, key);
      var inner :| |inner| >= 1 && inner[0] in v.entries.Keys && key == Join(path + [k] + inner, ".")
        && Leaf(v.entries, inner, sub[key]) && !sub[key].VMap?;
      LeafCons(m, k, inner, sub[key]);
      assert path + ([k] + inner) == path + [k] + inner;
      assert ([k] + inner)[0] == k;
    } else {
      assert e == map[Join(path + [k], ".") := v];
      assert Leaf(m, [k], e[key]);
    }
  }

  lemma LeafCons(m: NestedMap, k: string, inner: seq<string>, w: Value)
    requires k in m && m[k].VMap? && |inner| >= 1 && Leaf(m[k].entries, inner, w)
    ensures Leaf(m, [k] + inner, w)
  {
    assert ([k] + inner)[1..] == inner;
  }

  /** A key of one entry's contribution never equals the joined path of a leaf under another first element. */
  lemma EntryAvoidsOthers(path: seq<string>, m: NestedMap, k: string, nodes: seq<string>, w: Value)
    requires k in m && SegmentsDotFree(path) && DotFree(VMap(m))
    requires |nodes| >= 1 && nodes[0] != k && Leaf(m, nodes, w)
    ensures Join(path + nodes, ".") !in FlattenEntry(path, m, k)
  {
    var key := Join(path + nodes, ".");
    LeafSegmentsDotFree(m, nodes, w);
    assert '.' !in k;
    assert (path + nodes)[|path|] == nodes[0];
    var e := FlattenEntry(path, m, k);
    if key in e {
      EntrySound(path, m, k, key);
      var other :| |other| >= 1 && other[0] == k && key == Join(path + other, ".") && Leaf(m, other, e[key]);
      LeafSegmentsDotFree(m, other, e[key]);
      assert (path + other)[|path|] == other[0];
      JoinInjective(path + nodes, path + other);
    }
  }

  /** Every plain leaf of `m` under `keys`, in a dot-free tree, appears under its joined path. */
  lemma {:induction false} FlattenComplete(path: seq<string>, m: NestedMap, keys: set<string>, nodes: seq<string>, w: Value)
    requires keys <= m.Keys && SegmentsDotFree(path) && DotFree(VMap(m))
    requires |nodes| >= 1 && nodes[0] in keys && Leaf(m, nodes, w) && !w.VMap?
    ensures Join(path + nodes, ".") in Flatten(path, m, keys)
    ensures Flatten(path, m, keys)[Join(path + nodes, ".")] == w
    decreases VMap(m), |keys| + 1
  {
    var k := Pick(keys);
    if nodes[0] == k {
      EntryComplete(path, m, nodes, w);
    } else {
      FlattenComplete(path, m, keys - {k}, nodes, w);
      EntryAvoidsOthers(path, m, k, nodes, w);
    }
  }

  lemma {:induction false} EntryComplete(path: seq<string>, m: NestedMap, nodes: seq<string>, w: Value)
    requires SegmentsDotFree(path) && DotFree(VMap(m))
    requires |nodes| >= 1 && Leaf(m, nodes, w) && !w.VMap?
    ensures Join(path + nodes, ".") in FlattenEntry(path, m, nodes[0])
    ensures FlattenEntry(path, m, nodes[0])[Join(path + nodes, ".")] == w
    decreases VMap(m), 0
  {
    var k := nodes[0];
    var v := m[k];
    assert v < VMap(m);
    if |nodes| == 1 {
      assert path + nodes == path + [k];
    } else {
      assert DotFree(v);
      assert '.' !in k;
      assert path + nodes == path + [k] + nodes[1..];
      FlattenComplete(path + [k], v.entries, v.entries.Keys, nodes[1..], w);
    }
  }

  lemma {:induction false} LeafSegmentsDotFree(m: NestedMap, nodes: seq<string>, w: Value)
    requires DotFree(VMap(m)) && Leaf(m, nodes, w)
    ensures SegmentsDotFree(nodes)
    decreases |nodes|
  {
    if |nodes| > 1 {
      assert DotFree(m[nodes[0]]);
      LeafSegmentsDotFree(m[nodes[0]].entries, nodes[1..], w);
      assert forall i :: 1 <= i < |nodes| ==> nodes[i] == nodes[1..][i - 1];
    }
  }

  /** No value of a flattened map is a map. */
  lemma FlattenHasNoMaps(m: NestedMap)
    ensures forall key :: key in ToPlainMap(m) ==> !ToPlainMap(m)[key].VMap?
  {
    forall key | key in ToPlainMap(m)
      ensures !ToPlainMap(m)[key].VMap?
    {
      FlattenSound([], m, m.Keys, key);
    }
  }

  /** `toPlainMap(toMultiValueMap(m)) == m` for a clean source. */
  lemma RoundTrip(t: NestedMap, source: NestedMap)
    requires Clean(source) && HoldsExactly(t, source, source.Keys) && DotFree(VMap(t))
    ensures ToPlainMap(t) == source
  {
    var f := ToPlainMap(t);
    forall k | k in source
      ensures k in f && f[k] == source[k]
    {
      CleanKeySegments(k);
      assert [] + Segments(k) == Segments(k);
      FlattenComplete([], t, t.Keys, Segments(k), source[k]);
    }
    forall key | key in f
      ensures key in source
    {
      FlattenSound([], t, t.Keys, key);
      var nodes :| |nodes| >= 1 && nodes[0] in t.Keys && key == Join([] + nodes, ".") && Leaf(t, nodes, f[key]) && !f[key].VMap?;
      var k :| k in source && nodes == Segments(k) && f[key] == source[k];
      CleanKeySegments(k);
      assert [] + nodes == nodes;
    }
  }
}
