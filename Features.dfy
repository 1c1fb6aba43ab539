/** A read-only view of a feature collection (ReadOnlyFeatureCollection.cs): a frozen map from
    feature type to feature instance, taken from a source collection; every sealable feature in
    it is sealed on construction and every attempt to change it fails. */
module Features {
  import opened Wrappers

  /** A CLR type used as a feature key; the two flags stand for `IsValueType` and for
      `Nullable.GetUnderlyingType(t) != null`. */
  datatype FeatureType = FeatureType(fullName: string, isValueType: bool, isNullableValueType: bool)

  /** A feature instance. `runtimeTypes` are the types the instance can be cast to (the
      `is TFeature` test); a sealable feature can be made read-only. */
  class Feature {
    const runtimeTypes: set<FeatureType>
    const sealable: bool
    var isReadOnly: bool

    constructor (runtimeTypes: set<FeatureType>, sealable: bool)
      ensures this.runtimeTypes == runtimeTypes && this.sealable == sealable && !isReadOnly
    {
      this.runtimeTypes := runtimeTypes;
      this.sealable := sealable;
      isReadOnly := false;
    }

    /** `ISealable.Seal()`. */
    method Seal()
      requires sealable
      modifies this
      ensures isReadOnly
    {
      isReadOnly := true;
    }
  }

  /** The (mutable) collection a read-only view is made from, as far as the view reads it: what
      it enumerates and its revision counter. */
  class FeatureCollection {
    var features: map<FeatureType, Feature>
    var revision: nat

    constructor (features: map<FeatureType, Feature>, revision: nat)
      ensures this.features == features && this.revision == revision
    {
      this.features := features;
      this.revision := revision;
    }
  }

  datatype FeatureError =
    | NotSupported                      // "The feature collection is read-only."
    | FeatureMissing(t: FeatureType)    // a non-nullable struct feature that is absent
    | InvalidCast(t: FeatureType)       // the stored instance is not of the requested type

  class ReadOnlyFeatureCollection {
    const features: map<FeatureType, Feature>
    const containerRevision: nat

    /** Takes a snapshot of `source`, seals every sealable feature in it that is not yet
        read-only, and remembers the source's revision. */
    constructor (source: FeatureCollection)
      modifies source.features.Values
      ensures features == source.features == old(source.features)
      ensures containerRevision == source.revision == old(source.revision)
      ensures forall f :: f in features.Values && f.sealable ==> f.isReadOnly
      ensures forall f :: f in features.Values && !f.sealable ==> f.isReadOnly == old(f.isReadOnly)
    {
      var snapshot := source.features;
      var pending := snapshot.Values;
      while pending != {}
        invariant pending <= snapshot.Values
        invariant forall f :: f in snapshot.Values && f !in pending && f.sealable ==> f.isReadOnly
        invariant forall f :: f in snapshot.Values && (f in pending || !f.sealable) ==> f.isReadOnly == old(f.isReadOnly)
        decreases pending
      {
        var f :| f in pending;
        if f.sealable && !f.isReadOnly {
          f.Seal();
        }
        pending := pending - {f};
      }
      features := snapshot;
      containerRevision := source.revision;
    }

    /** `IsReadOnly`: a read-only view says so, always. */
    function IsReadOnly(): (r: bool)
      ensures r
    {
      true
    }

    /** `IsEmpty` as the source has it: true when there ARE features. */
    function IsEmptyAsWritten(): bool
    {
      |features| > 0
    }

    /** `IsEmpty` as its name and its interface promise it. */
    function IsEmpty(): (r: bool)
      ensures r <==> features == map[]
    {
      |features| == 0
    }

    /** `Revision`: the source's revision at construction. */
    function Revision(): nat
    {
      containerRevision
    }

    /** The indexer's getter: the stored feature, or null (`None`). */
    function Item(key: FeatureType): (r: Option<Feature>)
      ensures r.Some? <==> key in features
      ensures r.Some? ==> r.value == features[key]
    {
      if key in features then Some(features[key]) else None
    }

    /** The indexer's setter: always refused; the contents are immutable. */
    method SetItem(key: FeatureType, value: Option<Feature>) returns (r: Result<(), FeatureError>)
      ensures r == Failure(NotSupported)
    {
      r := Failure(NotSupported);
    }

    /** `Set<TFeature>(instance)`: always refused. */
    method Set(t: FeatureType, instance: Option<Feature>) returns (r: Result<(), FeatureError>)
      ensures r.Failure? && r.error == NotSupported
    {
      return Failure(NotSupported);
    }

    /** The cast `(TFeature?)feature`: null stays null, anything else must be of type `t`. */
    static function CastTo(t: FeatureType, feature: Option<Feature>): (r: Result<Option<Feature>, FeatureError>)
      ensures r.Success? ==> r.value == feature
      ensures r.Failure? <==> feature.Some? && t !in feature.value.runtimeTypes
    {
      if feature.None? || t in feature.value.runtimeTypes then Success(feature) else Failure(InvalidCast(t))
    }

    /** `Get<TFeature>()`: the feature of type `t`, or null; an absent feature of a
        non-nullable struct type cannot be returned as null and fails instead. */
    function Get(t: FeatureType): (r: Result<Option<Feature>, FeatureError>)
      ensures r == Failure(FeatureMissing(t)) <==>
              t.isValueType && !t.isNullableValueType && t !in features
      ensures r == Failure(InvalidCast(t)) <==> t in features && t !in features[t].runtimeTypes
      ensures r.Failure? ==> r == Failure(FeatureMissing(t)) || r == Failure(InvalidCast(t))
      ensures r.Success? ==> r.value == Item(t)
      ensures t !in features && !(t.isValueType && !t.isNullableValueType) ==> r == Success(None)
    {
      if t.isValueType then
        var feature := Item(t);
        if feature.None? && !t.isNullableValueType then Failure(FeatureMissing(t))
        else CastTo(t, feature)
      else
        CastTo(t, Item(t))
    }

    /** `TryGet<TFeature>(out feature)`: true iff a feature is stored under `t` and it is of
        type `t`; otherwise the out value is the default (null). */
    function TryGet(t: FeatureType): (r: (bool, Option<Feature>))
      ensures r.0 <==> t in features && t in features[t].runtimeTypes
      ensures r.0 ==> r.1 == Some(features[t])
      ensures !r.0 ==> r.1 == None
    {
      if t in features then
        var result := features[t];
        if t in result.runtimeTypes then (true, Some(result)) else (false, None)
      else
        (false, None)
    }

    /** The lookups agree: whatever `TryGet` finds, `Get` returns; and a present feature that
        `TryGet` refuses makes `Get` fail with a cast error. */
    lemma TryGetAgreesWithGet(t: FeatureType)
      ensures TryGet(t).0 ==> Get(t) == Success(TryGet(t).1)
      ensures t in features && !TryGet(t).0 ==> Get(t) == Failure(InvalidCast(t))
      ensures t !in features ==> !TryGet(t).0 && (Get(t).Success? ==> Get(t).value.None?)
    {
    }
  }

  /** The inverted `IsEmpty`: an empty collection reports that it is not empty, and a
      non-empty one that it is. */
  lemma IsEmptyAsWrittenIsInverted(c: ReadOnlyFeatureCollection)
    ensures c.IsEmptyAsWritten() == !c.IsEmpty()
    ensures c.features == map[] ==> !c.IsEmptyAsWritten()
  {
  }

  /** The read-only view answers every lookup from the snapshot it was built from, whatever
      happens to the source collection afterwards. */
  method SnapshotExample(k: FeatureType, other: FeatureType) returns (ro: ReadOnlyFeatureCollection)
    requires k != other
    ensures ro.Item(k).Some? && ro.Item(other).None? && ro.IsReadOnly() && !ro.IsEmpty()
    ensures ro.Item(k).value.isReadOnly
    ensures ro.Revision() == 3
  {
    var f := new Feature({k}, true);
    var source := new FeatureCollection(map[k := f], 3);
    ro := new ReadOnlyFeatureCollection(source);
    source.features := map[other := f];
    source.revision := 4;
  }
}
