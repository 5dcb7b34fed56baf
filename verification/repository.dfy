/**
  The in-memory vehicle store. It reads everything, filters by colour and
  fabrication year, and inserts with the identifier `len(db) + 1`; after an
  insert it mirrors the whole store to a JSON file. The file system is
  reduced to which of its steps fails, if any.
 */
module Repository {
  import opened Internal

  /** One element of the mirror file, dimensions inlined. */
  datatype VehicleFormatJSON = VehicleFormatJSON(
    id: int,
    brand: string,
    model: string,
    registration: string,
    color: string,
    fabricationYear: int,
    capacity: int,
    maxSpeed: Float64,
    fuelType: string,
    transmission: string,
    weight: Float64,
    height: Float64,
    length: Float64,
    width: Float64
  )

  /** The store: records by identifier. */
  datatype VehicleMap = VehicleMap(db: map<int, Vehicle>)

  /** A nil map stands for an empty store; any other map becomes the store as it is. */
  function NewVehicleMap(db: Option<map<int, Vehicle>>): (r: VehicleMap)
    ensures db.None? ==> |r.db| == 0
    ensures db.Some? ==> r.db == db.value
  {
    if db.Some? then VehicleMap(db.value) else VehicleMap(map[])
  }

  // ---------------------------------------------------------------- reads

  /** FindAll copies the store entry by entry, in no particular order. The
      copy is the store, and no error is ever reported. */
  method FindAll(r: VehicleMap) returns (v: map<int, Vehicle>, err: Option<Error>)
    ensures v == r.db
    ensures err == None
  {
    v := map[];
    var pending := r.db.Keys;
    while pending != {}
      invariant pending <= r.db.Keys
      invariant v.Keys == r.db.Keys - pending
      invariant forall k :: k in v ==> v[k] == r.db[k]
      decreases pending
    {
      NonEmptyHasKey(pending);
      var key :| key in pending;
      v := v[key := r.db[key]];
      pending := pending - {key};
    }
    forall k
      ensures (k in v <==> k in r.db) && (k in v ==> v[k] == r.db[k])
    {
    }
    err := None;
  }

  /** Exact, case-sensitive colour match together with an equal year. */
  predicate Matches(v: Vehicle, color: string, year: int)
  {
    v.attributes.color == color && v.attributes.fabricationYear == year
  }

  /** The reference filter: the matching entries under their original keys. */
  function Matching(db: map<int, Vehicle>, color: string, year: int): map<int, Vehicle>
  {
    map k | k in db && Matches(db[k], color, year) :: db[k]
  }

  /** GetByColorAndYear walks the store and keeps exactly the matching entries,
      under their keys; it never reports an error. */
  method GetByColorAndYear(r: VehicleMap, color: string, year: int) returns (v: map<int, Vehicle>, err: Option<Error>)
    ensures v == Matching(r.db, color, year)
    ensures err == None
  {
    v := map[];
    var pending := r.db.Keys;
    while pending != {}
      invariant pending <= r.db.Keys
      invariant forall k :: k in v <==> k in r.db && k !in pending && Matches(r.db[k], color, year)
      invariant forall k :: k in v ==> v[k] == r.db[k]
      decreases pending
    {
      NonEmptyHasKey(pending);
      var key :| key in pending;
      if Matches(r.db[key], color, year) {
        v := v[key := r.db[key]];
      }
      pending := pending - {key};
    }
    forall k
      ensures (k in v <==> k in Matching(r.db, color, year))
      ensures k in v ==> v[k] == Matching(r.db, color, year)[k]
    {
    }
    err := None;
  }

  /** A colour/year pair that no record has gives the empty map. */
  lemma NoMatchIsEmpty(db: map<int, Vehicle>, color: string, year: int)
    requires forall k :: k in db ==> !Matches(db[k], color, year)
    ensures Matching(db, color, year) == map[]
  {
    forall k ensures k !in Matching(db, color, year) {
    }
  }

  // ---------------------------------------------------------------- insert

  /** The store after an insert, and the caller's record as the insert left it. */
  datatype Inserted = Inserted(store: VehicleMap, vehicle: Vehicle)

  /** The in-memory half of AddVehicle: the caller's record gets identifier
      `|db| + 1` and is stored under it, whatever was there before. */
  function Insert(r: VehicleMap, v: Vehicle): (res: Inserted)
    ensures res.vehicle.id == |r.db| + 1
    ensures res.vehicle.attributes == v.attributes
    ensures forall k :: k in res.store.db <==> k in r.db || k == |r.db| + 1
    ensures res.store.db[|r.db| + 1] == res.vehicle
    ensures forall k :: k in r.db && k != |r.db| + 1 ==> res.store.db[k] == r.db[k]
  {
    var stored := Vehicle(|r.db| + 1, v.attributes);
    Inserted(VehicleMap(r.db[stored.id := stored]), stored)
  }

  /** The keys are exactly 1..N and every record sits under its own identifier. */
  ghost predicate Contiguous(db: map<int, Vehicle>)
  {
    && (forall k :: k in db <==> 1 <= k <= |db|)
    && IdsMatchKeys(db)
  }

  /** Inserting keeps identifiers equal to keys. */
  lemma InsertKeepsIdsMatchKeys(r: VehicleMap, v: Vehicle)
    requires IdsMatchKeys(r.db)
    ensures IdsMatchKeys(Insert(r, v).store.db)
  {
  }

  /** On a store numbered 1..N the insert adds key N + 1, so the store grows by
      one and stays numbered 1..N + 1. */
  lemma InsertKeepsContiguous(r: VehicleMap, v: Vehicle)
    requires Contiguous(r.db)
    ensures |Insert(r, v).store.db| == |r.db| + 1
    ensures Contiguous(Insert(r, v).store.db)
  {
    var db' := Insert(r, v).store.db;
    assert |r.db| + 1 !in r.db;
    assert |db'| == |r.db| + 1;
  }

  /** When the store already holds key `|db| + 1` (possible with loaded
      identifiers that leave gaps), the insert replaces that entry and the
      store does not grow. */
  lemma InsertOverwrites(r: VehicleMap, v: Vehicle)
    requires |r.db| + 1 in r.db
    ensures Insert(r, v).store.db.Keys == r.db.Keys
    ensures |Insert(r, v).store.db| == |r.db|
    ensures Insert(r, v).store.db[|r.db| + 1] == Vehicle(|r.db| + 1, v.attributes)
  {
    assert Insert(r, v).store.db.Keys == r.db.Keys;
  }

  /** A concrete instance: a store loaded with the single record 2 loses it to
      the next insert, which is numbered 2 as well. */
  lemma CollisionExample(a: VehicleAttributes, b: VehicleAttributes)
    requires a != b
    ensures Insert(VehicleMap(map[2 := Vehicle(2, a)]), Vehicle(0, b)).store.db == map[2 := Vehicle(2, b)]
  {
  }

  /** A sequence of inserts, in order. */
  function InsertAll(r: VehicleMap, vs: seq<Vehicle>): VehicleMap
    decreases |vs|
  {
    if |vs| == 0 then r else InsertAll(Insert(r, vs[0]).store, vs[1..])
  }

  /** Inserts into a store numbered 1..N keep it numbered, one key more per insert. */
  lemma {:induction false} InsertAllKeepsContiguous(r: VehicleMap, vs: seq<Vehicle>)
    requires Contiguous(r.db)
    ensures Contiguous(InsertAll(r, vs).db)
    ensures |InsertAll(r, vs).db| == |r.db| + |vs|
    decreases |vs|
  {
    if |vs| > 0 {
      InsertKeepsContiguous(r, vs[0]);
      InsertAllKeepsContiguous(Insert(r, vs[0]).store, vs[1..]);
    }
  }

  /** No key exceeds the number of records. */
  ghost predicate NoKeyAbove(db: map<int, Vehicle>)
  {
    forall k :: k in db ==> k <= |db|
  }

  /** When no key exceeds the size, the insert lands on a fresh key, the store
      grows by one and still has no key above its size. */
  lemma InsertKeepsNoKeyAbove(r: VehicleMap, v: Vehicle)
    requires NoKeyAbove(r.db)
    ensures |Insert(r, v).store.db| == |r.db| + 1
    ensures NoKeyAbove(Insert(r, v).store.db)
  {
    assert |r.db| + 1 !in r.db;
  }

  /** Inserts into a store with no key above its size keep every stored
      record and add one record each. */
  lemma {:induction false} InsertAllKeeps(r: VehicleMap, vs: seq<Vehicle>)
    requires NoKeyAbove(r.db)
    ensures |InsertAll(r, vs).db| == |r.db| + |vs|
    ensures forall k :: k in r.db ==> k in InsertAll(r, vs).db && InsertAll(r, vs).db[k] == r.db[k]
    decreases |vs|
  {
    if |vs| > 0 {
      var r1 := Insert(r, vs[0]).store;
      InsertKeepsNoKeyAbove(r, vs[0]);
      InsertAllKeeps(r1, vs[1..]);
      forall k | k in r.db
        ensures k in r1.db && r1.db[k] == r.db[k]
      {
        assert k != |r.db| + 1;
      }
    }
  }

  /** The i-th of a sequence of inserts into a store with no key above its
      size N is numbered N + i + 1 and holds the attributes it was given. */
  lemma {:induction false} InsertedAt(r: VehicleMap, vs: seq<Vehicle>, i: int)
    requires NoKeyAbove(r.db)
    requires 0 <= i < |vs|
    ensures |r.db| + i + 1 in InsertAll(r, vs).db
    ensures InsertAll(r, vs).db[|r.db| + i + 1] == Vehicle(|r.db| + i + 1, vs[i].attributes)
    decreases |vs|
  {
    var n := |r.db|;
    var r1 := Insert(r, vs[0]).store;
    InsertKeepsNoKeyAbove(r, vs[0]);
    var end := InsertAll(r1, vs[1..]);
    assert InsertAll(r, vs) == end;
    if i == 0 {
      InsertAllKeeps(r1, vs[1..]);
      assert n + 1 in r1.db && r1.db[n + 1] == Vehicle(n + 1, vs[0].attributes);
    } else {
      InsertedAt(r1, vs[1..], i - 1);
      assert vs[1..][i - 1] == vs[i];
      assert |r1.db| + (i - 1) + 1 == n + i + 1;
    }
  }

  /** Inserts into a store with no key above its size N are numbered N + 1,
      N + 2, ... in insertion order: key N + i + 1 holds the i-th record. */
  lemma {:induction false} SequentialInserts(r: VehicleMap, vs: seq<Vehicle>)
    requires NoKeyAbove(r.db)
    ensures forall k :: |r.db| < k <= |r.db| + |vs| ==>
              && k in InsertAll(r, vs).db
              && InsertAll(r, vs).db[k] == Vehicle(k, vs[k - |r.db| - 1].attributes)
  {
    forall k | |r.db| < k <= |r.db| + |vs|
      ensures && k in InsertAll(r, vs).db
              && InsertAll(r, vs).db[k] == Vehicle(k, vs[k - |r.db| - 1].attributes)
    {
      InsertedAt(r, vs, k - |r.db| - 1);
    }
  }

  /** Inserts into the empty store are numbered 1, 2, 3, ... in insertion
      order, and nothing else is stored. */
  lemma {:induction false} InsertsIntoEmpty(vs: seq<Vehicle>)
    ensures forall k :: k in InsertAll(NewVehicleMap(None), vs).db <==> 1 <= k <= |vs|
    ensures forall k :: k in InsertAll(NewVehicleMap(None), vs).db ==>
              InsertAll(NewVehicleMap(None), vs).db[k] == Vehicle(k, vs[k - 1].attributes)
  {
    InsertAllKeepsContiguous(NewVehicleMap(None), vs);
    SequentialInserts(NewVehicleMap(None), vs);
  }

  /** n inserts never add more than n records. */
  lemma {:induction false} InsertAllGrowth(r: VehicleMap, vs: seq<Vehicle>)
    ensures |InsertAll(r, vs).db| <= |r.db| + |vs|
    decreases |vs|
  {
    if |vs| > 0 {
      InsertAllGrowth(Insert(r, vs[0]).store, vs[1..]);
    }
  }

  /** A stored key k above the store size means a record is lost: the
      k - |db| inserts that follow add fewer records than there were inserts.
      Which key is hit is not fixed here; see GapKeyOverwritten. */
  lemma {:induction false} GapForcesOverwrite(r: VehicleMap, vs: seq<Vehicle>, k: int)
    requires k in r.db && |r.db| < k
    requires |vs| == k - |r.db|
    ensures |InsertAll(r, vs).db| < |r.db| + |vs|
    decreases |vs|
  {
    var r1 := Insert(r, vs[0]).store;
    if |r.db| + 1 in r.db {
      InsertOverwrites(r, vs[0]);
      InsertAllGrowth(r1, vs[1..]);
    } else {
      assert |r1.db| == |r.db| + 1;
      GapForcesOverwrite(r1, vs[1..], k);
    }
  }

  /** When k is the least stored key above the store size, the k - |db|-th
      insert is numbered k and replaces the loaded record under it. */
  lemma {:induction false} GapKeyOverwritten(r: VehicleMap, vs: seq<Vehicle>, k: int)
    requires k in r.db && |r.db| < k
    requires forall j :: |r.db| < j < k ==> j !in r.db
    requires |vs| == k - |r.db|
    ensures k in InsertAll(r, vs).db
    ensures InsertAll(r, vs).db[k] == Vehicle(k, vs[|vs| - 1].attributes)
    decreases |vs|
  {
    var r1 := Insert(r, vs[0]).store;
    if |vs| == 1 {
      assert InsertAll(r, vs) == InsertAll(r1, []);
    } else {
      assert |r.db| + 1 !in r.db;
      assert |r1.db| == |r.db| + 1;
      GapKeyOverwritten(r1, vs[1..], k);
      assert vs[1..][|vs[1..]| - 1] == vs[|vs| - 1];
    }
  }

  // ---------------------------------------------------------------- mirror

  /** The mirror element of a stored record: scalars copied, dimensions inlined. */
  function Flatten(v: Vehicle): VehicleFormatJSON
  {
    VehicleFormatJSON(
      v.id, v.attributes.brand, v.attributes.model, v.attributes.registration,
      v.attributes.color, v.attributes.fabricationYear, v.attributes.capacity,
      v.attributes.maxSpeed, v.attributes.fuelType, v.attributes.transmission,
      v.attributes.weight, v.attributes.dimensions.height,
      v.attributes.dimensions.length, v.attributes.dimensions.width)
  }

  /** `order` lists every key of `db` exactly once. */
  ghost predicate Enumerates(order: seq<int>, db: map<int, Vehicle>)
  {
    && (forall i, j :: 0 <= i < j < |order| ==> order[i] != order[j])
    && (forall i :: 0 <= i < |order| ==> order[i] in db)
    && (forall k :: k in db ==> k in order)
  }

  /** An enumeration picks out the whole store. */
  lemma EnumerationCoversStore(order: seq<int>, db: map<int, Vehicle>)
    requires Enumerates(order, db)
    ensures (map k | k in order :: db[k]) == db
  {
    var picked := map k | k in order :: db[k];
    forall k
      ensures (k in picked <==> k in db)
      ensures k in picked ==> picked[k] == db[k]
    {
    }
  }

  /** An enumeration lists each stored key once, so it is as long as the store. */
  lemma {:induction false} EnumerationSize(order: seq<int>, db: map<int, Vehicle>)
    requires Enumerates(order, db)
    ensures |order| == |db|
    decreases |order|
  {
    if |order| == 0 {
      if |db| != 0 {
        NonEmptyHasKey(db.Keys);
        assert false;
      }
    } else {
      var last := order[|order| - 1];
      var init := order[..|order| - 1];
      var rest := db - {last};
      forall k | k in rest ensures k in init {
        var i :| 0 <= i < |order| && order[i] == k;
        assert i < |order| - 1;
        assert init[i] == k;
      }
      EnumerationSize(init, rest);
    }
  }

  /** The records under `order`, flattened, in that order. */
  function FlattenSeq(db: map<int, Vehicle>, order: seq<int>): (list: seq<VehicleFormatJSON>)
    requires forall i :: 0 <= i < |order| ==> order[i] in db
    ensures |list| == |order|
    ensures forall i :: 0 <= i < |order| ==> list[i] == Flatten(db[order[i]])
    decreases |order|
  {
    if |order| == 0 then []
    else FlattenSeq(db, order[..|order| - 1]) + [Flatten(db[order[|order| - 1]])]
  }

  /** `records` is the store flattened in some enumeration of its keys. */
  ghost predicate IsMirrorOf(records: seq<VehicleFormatJSON>, db: map<int, Vehicle>)
  {
    exists order :: Enumerates(order, db) && records == FlattenSeq(db, order)
  }

  /** A mirror holds exactly one element per stored record. */
  lemma MirrorSize(records: seq<VehicleFormatJSON>, db: map<int, Vehicle>)
    requires IsMirrorOf(records, db)
    ensures |records| == |db|
  {
    var order :| Enumerates(order, db) && records == FlattenSeq(db, order);
    EnumerationSize(order, db);
  }

  /** The flattening loop: one element per stored record, in map iteration order. */
  method FlattenStore(db: map<int, Vehicle>) returns (list: seq<VehicleFormatJSON>, ghost order: seq<int>)
    ensures Enumerates(order, db)
    ensures list == FlattenSeq(db, order)
    ensures |list| == |db|
    ensures forall k :: k in db ==> Flatten(db[k]) in list
  {
    list := [];
    order := [];
    var pending := db.Keys;
    assert |pending| == |db|;
    while pending != {}
      invariant pending <= db.Keys
      invariant forall i :: 0 <= i < |order| ==> order[i] in db && order[i] !in pending
      invariant forall k :: k in db && k !in pending ==> k in order
      invariant forall i, j :: 0 <= i < j < |order| ==> order[i] != order[j]
      invariant |list| == |order|
      invariant forall i :: 0 <= i < |order| ==> list[i] == Flatten(db[order[i]])
      invariant |order| + |pending| == |db|
      decreases pending
    {
      NonEmptyHasKey(pending);
      var key :| key in pending;
      list := list + [Flatten(db[key])];
      order := order + [key];
      pending := pending - {key};
    }
    FlattenedElementwise(db, order, list);
  }

  /** A list that holds the flattened record of each key of an enumeration,
      position by position, is that enumeration's flattening and contains
      every stored record. */
  lemma FlattenedElementwise(db: map<int, Vehicle>, order: seq<int>, list: seq<VehicleFormatJSON>)
    requires Enumerates(order, db)
    requires |list| == |order|
    requires forall i :: 0 <= i < |order| ==> list[i] == Flatten(db[order[i]])
    ensures list == FlattenSeq(db, order)
    ensures forall k :: k in db ==> Flatten(db[k]) in list
  {
    var flat := FlattenSeq(db, order);
    forall i | 0 <= i < |list| ensures list[i] == flat[i] {
    }
    forall k | k in db ensures Flatten(db[k]) in list {
      var i :| 0 <= i < |order| && order[i] == k;
      assert list[i] == Flatten(db[k]);
    }
  }

  /** What the file system does with the mirror: each step either succeeds
      (`None`) or fails with the given error. */
  datatype MirrorEnv = MirrorEnv(create: Option<Error>, marshal: Option<Error>, write: Option<Error>)

  /** The mirror file after an insert: left alone (create failed), emptied
      (created, nothing written), partly written, or holding the records. */
  datatype MirrorFile = Untouched | Truncated | Incomplete | Written(records: seq<VehicleFormatJSON>)

  /** The error and the file that the mirror step leaves for store `db`: the
      first failing step decides both; with no failure the file holds the
      whole store. */
  ghost predicate MirrorOutcome(env: MirrorEnv, db: map<int, Vehicle>, file: MirrorFile, err: Option<Error>)
  {
    if env.create.Some? then err == env.create && file == Untouched
    else if env.marshal.Some? then err == env.marshal && file == Truncated
    else if env.write.Some? then err == env.write && file == Incomplete
    else err == None && file.Written? && IsMirrorOf(file.records, db)
  }

  /** AddVehicle: numbers and stores the record first, then mirrors the store.
      A mirror failure is reported, but the record stays inserted. */
  method AddVehicle(r: VehicleMap, v: Vehicle, env: MirrorEnv)
    returns (r': VehicleMap, stored: Vehicle, file: MirrorFile, err: Option<Error>)
    ensures stored.id == |r.db| + 1 && stored.attributes == v.attributes
    ensures r'.db == r.db[stored.id := stored]
    ensures Inserted(r', stored) == Insert(r, v)
    ensures MirrorOutcome(env, r'.db, file, err)
  {
    stored := Vehicle(|r.db| + 1, v.attributes);
    r' := VehicleMap(r.db[stored.id := stored]);
    if env.create.Some? {
      file, err := Untouched, env.create;
      return;
    }
    var list;
    ghost var order;
    list, order := FlattenStore(r'.db);
    if env.marshal.Some? {
      file, err := Truncated, env.marshal;
      return;
    }
    if env.write.Some? {
      file, err := Incomplete, env.write;
      return;
    }
    file, err := Written(list), None;
  }
}
