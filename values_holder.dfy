/**
 * The values store: a prod bucket and lazily created per-profile buckets,
 * each mapping a property to the value recorded for it together with the
 * reference that produced it. A null or empty profile means prod.
 */
module ValuesHolder {
  import opened Values

  /** An entry of a bucket. Entries are never null, so `putIfAbsent` keeps any existing key. */
  datatype HelmValueHolder = HelmValueHolder(value: Value, reference: ConfigReference)

  type Bucket = map<string, HelmValueHolder>

  /** The order lists every key of the map once: the map's iteration order (a `HashMap` walks its entries in an order of its own). */
  predicate Enumerates<V>(order: seq<string>, m: map<string, V>)
  {
    && (forall i, j :: 0 <= i < j < |order| ==> order[i] != order[j])
    && (forall k :: k in m ==> k in order)
    && (forall k :: k in order ==> k in m)
  }

  /** The holder's two fields as one value. */
  datatype Buckets = Buckets(prod: Bucket, byProfile: map<string, Bucket>)
  {
    /** The contents of the bucket `get(profile)` returns, without registering a new one. */
    function BucketOf(profile: string): Bucket
    {
      if profile == "" then prod
      else if profile in byProfile then byProfile[profile]
      else map[]
    }

    /** The registration side effect of `get`: a non-empty profile without a bucket gets an empty one. */
    function Touch(profile: string): Buckets
    {
      if profile == "" || profile in byProfile then this
      else this.(byProfile := byProfile[profile := map[]])
    }

    function WithBucket(profile: string, bucket: Bucket): Buckets
    {
      if profile == "" then this.(prod := bucket)
      else this.(byProfile := byProfile[profile := bucket])
    }

    /** `put(property, value, profile)`. */
    function Put(property: string, entry: HelmValueHolder, profile: string): Buckets
    {
      WithBucket(profile, BucketOf(profile)[property := entry])
    }

    /** `putIfAbsent(property, value, profile)`. */
    function PutIfAbsent(property: string, entry: HelmValueHolder, profile: string): Buckets
    {
      var bucket := BucketOf(profile);
      WithBucket(profile, if property in bucket then bucket else bucket[property := entry])
    }

    /** The profiles that have a bucket after an operation on `profile`. */
    function ProfilesAfter(profile: string): set<string>
    {
      if profile == "" then byProfile.Keys else byProfile.Keys + {profile}
    }
  }

  /** `get` with a null or empty profile is prod; otherwise the profile's bucket is created once and then reused. */
  lemma TouchRegistersOnce(b: Buckets, profile: string)
    ensures b.Touch(profile).BucketOf(profile) == b.BucketOf(profile)
    ensures b.Touch(profile).byProfile.Keys == b.ProfilesAfter(profile)
    ensures b.Touch(profile).prod == b.prod
    ensures b.Touch(profile).Touch(profile) == b.Touch(profile)
    ensures profile != "" && profile !in b.byProfile ==> b.Touch(profile).BucketOf(profile) == map[]
  {
  }

  /** `put` overwrites the key in its target bucket and leaves prod and every other bucket unchanged. */
  lemma PutOverwrites(b: Buckets, property: string, entry: HelmValueHolder, profile: string)
    ensures var after := b.Put(property, entry, profile);
      && after.BucketOf(profile) == b.BucketOf(profile)[property := entry]
      && after.byProfile.Keys == b.ProfilesAfter(profile)
      && (forall other :: other != profile ==> after.BucketOf(other) == b.BucketOf(other))
  {
  }

  /** `putIfAbsent` never overwrites a key of its target bucket, adds it otherwise, and touches nothing else. */
  lemma PutIfAbsentKeepsFirst(b: Buckets, property: string, entry: HelmValueHolder, profile: string)
    ensures var after := b.PutIfAbsent(property, entry, profile);
      && (property in b.BucketOf(profile) ==> after.BucketOf(profile) == b.BucketOf(profile))
      && (property !in b.BucketOf(profile) ==> after.BucketOf(profile) == b.BucketOf(profile)[property := entry])
      && after.byProfile.Keys == b.ProfilesAfter(profile)
      && (forall other :: other != profile ==> after.BucketOf(other) == b.BucketOf(other))
  {
  }

  /** Every entry of `before`, in every bucket, is still in `after` with the same value. */
  ghost predicate Extends(after: Buckets, before: Buckets)
  {
    forall profile, k :: k in before.BucketOf(profile) ==>
      k in after.BucketOf(profile) && after.BucketOf(profile)[k] == before.BucketOf(profile)[k]
  }

  /** The profile has its own bucket already, or is prod. */
  predicate Registered(b: Buckets, profile: string)
  {
    profile == "" || profile in b.byProfile
  }

  lemma ExtendsTransitive(a: Buckets, b: Buckets, c: Buckets)
    requires Extends(b, a) && Extends(c, b)
    ensures Extends(c, a)
  {
  }

  /** First writer wins: `putIfAbsent` and `get` never change an entry that exists. */
  lemma PutIfAbsentExtends(b: Buckets, property: string, entry: HelmValueHolder, profile: string)
    ensures Extends(b.PutIfAbsent(property, entry, profile), b)
    ensures Extends(b.Touch(profile), b)
  {
    PutIfAbsentKeepsFirst(b, property, entry, profile);
  }

  /** Once the key is in a registered bucket, `putIfAbsent` changes nothing at all. */
  lemma PutIfAbsentPresent(b: Buckets, property: string, entry: HelmValueHolder, profile: string)
    requires Registered(b, profile) && property in b.BucketOf(profile)
    ensures b.PutIfAbsent(property, entry, profile) == b
  {
    if profile != "" {
      assert b.byProfile[profile := b.byProfile[profile]] == b.byProfile;
    }
  }

  /** After `get`, the profile is registered. */
  lemma TouchRegisters(b: Buckets, profile: string)
    ensures Registered(b.Touch(profile), profile)
    ensures Registered(b, profile) ==> b.Touch(profile) == b
  {
  }

  class ValuesHolder {
    var prodValues: Bucket
    var valuesByProfile: map<string, Bucket>

    function Model(): Buckets
      reads this
    {
      Buckets(prodValues, valuesByProfile)
    }

    constructor ()
      ensures prodValues == map[] && valuesByProfile == map[]
    {
      prodValues := map[];
      valuesByProfile := map[];
    }

    /** `getProdValues`: a read-only snapshot of prod. */
    method GetProdValues() returns (values: Bucket)
      ensures values == prodValues
    {
      values := prodValues;
    }

    /** `getValuesByProfile`: a read-only snapshot of the profile buckets. */
    method GetValuesByProfile() returns (values: map<string, Bucket>)
      ensures values == valuesByProfile
    {
      values := valuesByProfile;
    }

    /** `get(profile)`. */
    method Get(profile: string) returns (values: Bucket)
      modifies this
      ensures Model() == old(Model()).Touch(profile)
      ensures values == old(Model()).BucketOf(profile)
      ensures profile == "" ==> values == prodValues
    {
      values := prodValues;
      if profile != "" {
        if profile in valuesByProfile {
          values := valuesByProfile[profile];
        } else {
          values := map[];
          valuesByProfile := valuesByProfile[profile := values];
        }
      }
    }

    /** `put(property, value, profile)`. */
    method Put(property: string, value: HelmValueHolder, profile: string)
      modifies this
      ensures Model() == old(Model()).Put(property, value, profile)
    {
      var values := Get(profile);
      values := values[property := value];
      if profile == "" {
        prodValues := values;
      } else {
        valuesByProfile := valuesByProfile[profile := values];
      }
    }

    /** `putIfAbsent(property, value, profile)`. */
    method PutIfAbsent(property: string, value: HelmValueHolder, profile: string)
      modifies this
      ensures Model() == old(Model()).PutIfAbsent(property, value, profile)
    {
      var values := Get(profile);
      if property !in values {
        values := values[property := value];
      }
      if profile == "" {
        prodValues := values;
      } else {
        valuesByProfile := valuesByProfile[profile := values];
      }
    }

    /** `put(property, reference)`: the reference's value, in the reference's profile. */
    method PutReference(property: string, reference: ConfigReference)
      modifies this
      ensures Model() == old(Model()).Put(property, HelmValueHolder(reference.value, reference), reference.profile)
    {
      Put(property, HelmValueHolder(reference.value, reference), reference.profile);
    }

    /** `put(property, value)`: always prod. */
    method PutProd(property: string, value: HelmValueHolder)
      modifies this
      ensures prodValues == old(prodValues)[property := value]
      ensures valuesByProfile == old(valuesByProfile)
    {
      prodValues := prodValues[property := value];
    }
  }
}
