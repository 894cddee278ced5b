/** Observation records as the front-end receives them from the observation
    list endpoint, the four known categories, and the per-category counting
    loop shared by the map explorer and the citizen dashboard. */
module Observations {
  import opened Wrappers

  /** One citizen-science observation. `kind` is the record's `type` field;
      the front-end evaluates it literally, so it may be any string. The
      other fields are carried along and never computed on. */
  datatype Observation = Observation(
    id: int,
    kind: string,
    latitude: real,
    longitude: real,
    description: string,
    measurements: map<string, string>,
    imageUrl: Option<string>,
    createdAt: string)

  /** The four categories the UI knows about. */
  datatype Category = WaterQuality | Wildlife | Plant | AirQuality
  {
    /** The `type` string the server uses for this category. */
    function Key(): string
    {
      match this
      case WaterQuality => "water_quality"
      case Wildlife => "wildlife"
      case Plant => "plant"
      case AirQuality => "air_quality"
    }
  }

  /** Reads a `type` string as a known category, if it is one. */
  function CategoryOf(t: string): (r: Option<Category>)
    ensures r.Some? ==> r.value.Key() == t
    ensures forall c: Category :: c.Key() == t ==> r == Some(c)
  {
    if t == "water_quality" then Some(WaterQuality)
    else if t == "wildlife" then Some(Wildlife)
    else if t == "plant" then Some(Plant)
    else if t == "air_quality" then Some(AirQuality)
    else None
  }

  predicate IsKnown(t: string)
  {
    CategoryOf(t).Some?
  }

  /** Number of records whose `type` is exactly `t`. */
  function CountType(obs: seq<Observation>, t: string): (n: nat)
    ensures n <= |obs|
  {
    if obs == [] then 0
    else CountType(obs[..|obs| - 1], t) + (if obs[|obs| - 1].kind == t then 1 else 0)
  }

  /** Number of records whose `type` is one of the four known categories. */
  function CountKnown(obs: seq<Observation>): (n: nat)
    ensures n <= |obs|
  {
    if obs == [] then 0
    else CountKnown(obs[..|obs| - 1]) + (if IsKnown(obs[|obs| - 1].kind) then 1 else 0)
  }

  /** The sum of the four category buckets. */
  function BucketSum(obs: seq<Observation>): nat
  {
    CountType(obs, WaterQuality.Key()) + CountType(obs, Wildlife.Key())
      + CountType(obs, Plant.Key()) + CountType(obs, AirQuality.Key())
  }

  /** The four buckets partition the known records: their sum is the number
      of known records, at most the list length, and equal to it exactly
      when every record has a known type. */
  lemma {:induction false} BucketsConserve(obs: seq<Observation>)
    ensures BucketSum(obs) == CountKnown(obs) <= |obs|
    ensures BucketSum(obs) == |obs| <==> forall i :: 0 <= i < |obs| ==> IsKnown(obs[i].kind)
  {
    if obs != [] {
      var init := obs[..|obs| - 1];
      BucketsConserve(init);
      var t := obs[|obs| - 1].kind;
      if BucketSum(obs) == |obs| {
        forall i | 0 <= i < |obs| ensures IsKnown(obs[i].kind) {
          if i < |obs| - 1 {
            assert obs[i] == init[i];
          }
        }
      }
      if forall i :: 0 <= i < |obs| ==> IsKnown(obs[i].kind) {
        assert forall i :: 0 <= i < |init| ==> init[i] == obs[i];
        assert IsKnown(t);
      }
    }
  }

  /** The counting loop of the map explorer and the citizen dashboard:
      starting from the dictionary `init`, every record whose `type` is
      already a key of the dictionary bumps that key; other records touch
      nothing, and no key is added. */
  method Tally(obs: seq<Observation>, init: map<string, nat>) returns (counts: map<string, nat>)
    ensures counts.Keys == init.Keys
    ensures forall k :: k in counts ==> counts[k] == init[k] + CountType(obs, k)
  {
    counts := init;
    var i := 0;
    while i < |obs|
      invariant 0 <= i <= |obs|
      invariant counts.Keys == init.Keys
      invariant forall k :: k in counts ==> counts[k] == init[k] + CountType(obs[..i], k)
    {
      var t := obs[i].kind;
      if t in counts {
        counts := counts[t := counts[t] + 1];
      }
      assert obs[..i + 1][..i] == obs[..i];
      i := i + 1;
    }
    assert obs[..i] == obs;
  }
}
