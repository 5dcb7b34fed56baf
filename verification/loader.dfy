/**
  The start-up loader: a decoded JSON array of flat vehicle objects becomes
  the initial store, keyed by each element's own declared identifier, with the
  three dimension fields nested. Opening and decoding the file are reduced to
  their outcomes.
 */
module Loader {
  import opened Internal

  /** One element of the JSON array, dimensions inlined. */
  datatype VehicleJSON = VehicleJSON(
    id: int,
    brand: string,
    model: string,
    registration: string,
    color: string,
    fabricationYear: int,
    capacity: int,
    maxSpeed: Float64,
    fuelType: string,
    transmission: string,
    weight: Float64,
    height: Float64,
    length: Float64,
    width: Float64
  )

  /** The record built from one element: scalars copied, dimensions nested. */
  function Nest(vh: VehicleJSON): Vehicle
  {
    Vehicle(vh.id, VehicleAttributes(
      vh.brand, vh.model, vh.registration, vh.color, vh.fabricationYear,
      vh.capacity, vh.maxSpeed, vh.fuelType, vh.transmission, vh.weight,
      Dimensions(vh.height, vh.length, vh.width)))
  }

  /** The identifiers declared in a list of elements. */
  function Ids(list: seq<VehicleJSON>): set<int>
  {
    set i | 0 <= i < |list| :: list[i].id
  }

  /** The conversion loop: elements are stored in list order under their own
      identifier, so a later element with the same identifier replaces an
      earlier one. */
  function Convert(list: seq<VehicleJSON>): (v: map<int, Vehicle>)
    ensures v.Keys == Ids(list)
    ensures IdsMatchKeys(v)
    decreases |list|
  {
    if |list| == 0 then map[]
    else
      var init := list[..|list| - 1];
      var last := list[|list| - 1];
      assert Ids(list) == Ids(init) + {last.id} by {
        forall k | k in Ids(list) ensures k in Ids(init) + {last.id} {
          var i :| 0 <= i < |list| && list[i].id == k;
          if i < |list| - 1 {
            assert init[i].id == k;
          }
        }
        forall k | k in Ids(init) ensures k in Ids(list) {
          var i :| 0 <= i < |init| && init[i].id == k;
          assert list[i].id == k;
        }
      }
      Convert(init)[last.id := Nest(last)]
  }

  /** Load: a failure to open the file is returned first, then a failure to
      decode it; in both cases there is no mapping. Otherwise the decoded list
      is converted. */
  function Load(openErr: Option<Error>, decoded: Result<seq<VehicleJSON>>): (r: Result<map<int, Vehicle>>)
    ensures openErr.Some? ==> r == Err(openErr.value)
    ensures openErr.None? && decoded.Err? ==> r == Err(decoded.error)
    ensures openErr.None? && decoded.Ok? ==>
              && r.Ok?
              && r.value.Keys == Ids(decoded.value)
              && IdsMatchKeys(r.value)
  {
    if openErr.Some? then Err(openErr.value)
    else if decoded.Err? then Err(decoded.error)
    else Ok(Convert(decoded.value))
  }

  /** The store never holds more records than the list had elements. */
  lemma {:induction false} ConvertSize(list: seq<VehicleJSON>)
    ensures |Convert(list)| <= |list|
    decreases |list|
  {
    if |list| > 0 {
      ConvertSize(list[..|list| - 1]);
    }
  }

  /** The element that carries an identifier last in list order is the one
      stored under it. */
  lemma {:induction false} LaterWins(list: seq<VehicleJSON>, i: int)
    requires 0 <= i < |list|
    requires forall j :: i < j < |list| ==> list[j].id != list[i].id
    ensures list[i].id in Convert(list)
    ensures Convert(list)[list[i].id] == Nest(list[i])
    decreases |list|
  {
    if i < |list| - 1 {
      var init := list[..|list| - 1];
      LaterWins(init, i);
    }
  }

  /** With pairwise distinct identifiers nothing is overwritten: one record
      per element, each the nesting of its element. */
  lemma ConvertDistinct(list: seq<VehicleJSON>)
    requires forall i, j :: 0 <= i < j < |list| ==> list[i].id != list[j].id
    ensures |Convert(list)| == |list|
    ensures forall i :: 0 <= i < |list| ==> Convert(list)[list[i].id] == Nest(list[i])
  {
    forall i | 0 <= i < |list|
      ensures Convert(list)[list[i].id] == Nest(list[i])
    {
      LaterWins(list, i);
    }
    DistinctIdsCount(list);
  }

  lemma {:induction false} DistinctIdsCount(list: seq<VehicleJSON>)
    requires forall i, j :: 0 <= i < j < |list| ==> list[i].id != list[j].id
    ensures |Ids(list)| == |list|
    decreases |list|
  {
    if |list| > 0 {
      var init := list[..|list| - 1];
      DistinctIdsCount(init);
      assert Convert(list).Keys == Ids(list);
      assert Ids(list) == Ids(init) + {list[|list| - 1].id};
      assert list[|list| - 1].id !in Ids(init);
    }
  }
}
