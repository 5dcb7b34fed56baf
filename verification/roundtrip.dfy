/**
  How the loader's nesting and the repository's flattening fit together. The
  loader's input elements and the mirror file's elements are two record types
  with the same fourteen JSON field names, so what AddVehicle writes is what
  Load reads back.
 */
module RoundTrip {
  import opened Internal
  import Loader
  import Repository

  /** The loader element decoded from a marshalled mirror element: the JSON
      field names agree one for one, so every field carries over. */
  function Reread(f: Repository.VehicleFormatJSON): Loader.VehicleJSON
  {
    Loader.VehicleJSON(
      f.id, f.brand, f.model, f.registration, f.color, f.fabricationYear,
      f.capacity, f.maxSpeed, f.fuelType, f.transmission, f.weight,
      f.height, f.length, f.width)
  }

  /** A whole mirror file, read back element by element. */
  function RereadAll(records: seq<Repository.VehicleFormatJSON>): (list: seq<Loader.VehicleJSON>)
    ensures |list| == |records|
    ensures forall i :: 0 <= i < |records| ==> list[i] == Reread(records[i])
  {
    seq(|records|, i requires 0 <= i < |records| => Reread(records[i]))
  }

  /** Flattening a loaded record gives back the element it came from, field
      for field. */
  lemma FlattenUndoesNest(vh: Loader.VehicleJSON)
    ensures Reread(Repository.Flatten(Loader.Nest(vh))) == vh
  {
  }

  /** Nesting a flattened record gives back the record. */
  lemma NestUndoesFlatten(v: Vehicle)
    ensures Loader.Nest(Reread(Repository.Flatten(v))) == v
  {
  }

  /** The record Load stores for the last element carrying an identifier
      flattens back to that element; in particular its dimensions are the
      element's height, length and width. */
  lemma LoadedRecordFlattensBack(list: seq<Loader.VehicleJSON>, i: int)
    requires 0 <= i < |list|
    requires forall j :: i < j < |list| ==> list[j].id != list[i].id
    ensures list[i].id in Loader.Convert(list)
    ensures Reread(Repository.Flatten(Loader.Convert(list)[list[i].id])) == list[i]
    ensures Loader.Convert(list)[list[i].id].attributes.dimensions
              == Dimensions(list[i].height, list[i].length, list[i].width)
  {
    Loader.LaterWins(list, i);
  }

  /** Loading the flattening of the records under some keys of a store whose
      identifiers match its keys rebuilds the store restricted to those keys. */
  lemma {:induction false} ReloadPrefix(db: map<int, Vehicle>, order: seq<int>)
    requires IdsMatchKeys(db)
    requires forall i :: 0 <= i < |order| ==> order[i] in db
    ensures Loader.Convert(RereadAll(Repository.FlattenSeq(db, order)))
              == map k | k in order :: db[k]
    decreases |order|
  {
    var restricted := map k | k in order :: db[k];
    var list := RereadAll(Repository.FlattenSeq(db, order));
    if |order| == 0 {
      forall k ensures k !in restricted {
      }
    } else {
      var init := order[..|order| - 1];
      var key := order[|order| - 1];
      ReloadPrefix(db, init);
      var initList := RereadAll(Repository.FlattenSeq(db, init));
      assert list[..|list| - 1] == initList;
      assert list[|list| - 1] == Reread(Repository.Flatten(db[key]));
      NestUndoesFlatten(db[key]);
      var converted := Loader.Convert(list);
      assert converted == Loader.Convert(initList)[key := db[key]];
      forall k
        ensures (k in converted <==> k in restricted)
        ensures k in converted ==> converted[k] == restricted[k]
      {
        assert k in order <==> k in init || k == key;
      }
    }
  }

  /** The mirror file of a store whose identifiers match its keys loads back
      into exactly that store, whatever order the records were written in. */
  lemma MirrorReloads(db: map<int, Vehicle>, records: seq<Repository.VehicleFormatJSON>)
    requires IdsMatchKeys(db)
    requires Repository.IsMirrorOf(records, db)
    ensures Loader.Convert(RereadAll(records)) == db
  {
    var order :| Repository.Enumerates(order, db) && records == Repository.FlattenSeq(db, order);
    ReloadPrefix(db, order);
    Repository.EnumerationCoversStore(order, db);
  }

  /** Starting from a loaded store, an insert followed by a complete mirror
      write leaves a file that loads back into the store after the insert. */
  lemma LoadAddReload(list: seq<Loader.VehicleJSON>, v: Vehicle, records: seq<Repository.VehicleFormatJSON>)
    requires Repository.IsMirrorOf(records, Repository.Insert(Repository.VehicleMap(Loader.Convert(list)), v).store.db)
    ensures Loader.Convert(RereadAll(records)) == Repository.Insert(Repository.VehicleMap(Loader.Convert(list)), v).store.db
  {
    var r := Repository.VehicleMap(Loader.Convert(list));
    Repository.InsertKeepsIdsMatchKeys(r, v);
    MirrorReloads(Repository.Insert(r, v).store.db, records);
  }
}
