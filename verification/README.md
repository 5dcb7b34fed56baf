# Vehicle store — a Dafny model

This project models the data core of a small Go HTTP service that keeps vehicle records in memory. It covers three parts:

- **Repository** (`internal/repository/vehicle_map.go`). It holds `map[int]Vehicle`. It can be built from a possibly-nil map. It returns a copy of the whole store (`FindAll`), filters by exact colour and fabrication year (`GetByColorAndYear`), and inserts (`AddVehicle`). An insert numbers the caller's record `len(db) + 1`, stores it, and then rewrites a JSON mirror file of the whole store.
- **Loader** (`internal/loader/vehicle_json.go`). It turns the decoded JSON array of flat vehicle objects into the initial store. Each element is stored under its own declared `id`, and its height/length/width are nested into `Dimensions`.
- **Service** (`internal/service/vehicle_default.go`). It forwards each call to the repository with no change.

The Dafny modules follow those files:

- `Internal` holds the shared `Vehicle` record, errors and `Option`/`Result`.
- `Loader`, `Repository` and `Service` model the three Go files.
- `RoundTrip` states how the loader's nesting and the repository's flattening fit together.

Every operation is a pure function or a method without `modifies`. A store is an immutable value, so "the call leaves the store unchanged" holds by construction for the reads. An insert returns the new store.

Go iterates maps in no fixed order. The `FindAll`, `GetByColorAndYear` and mirror loops therefore pick the next key with `:|` from the keys not yet visited. Their contracts hold for every visiting order. The mirror list is characterised as "the store flattened in *some* enumeration of its keys" (`IsMirrorOf`).

The file system is reduced to inputs:

- `Load` receives the outcome of opening the file (`Option<Error>`) and of decoding it (`Result<seq<VehicleJSON>>`).
- `AddVehicle` receives a `MirrorEnv` that says which of create, marshal and write fails, and with which error.
- `AddVehicle` reports the mirror file's resulting state: `Untouched`, `Truncated`, `Incomplete` or `Written(records)`.

The lemmas below prove what the id rule `len(db) + 1` guarantees and where it fails:

- When the keys are exactly `1..N` and every record's `id` equals its key, an insert adds key `N + 1` and keeps both properties (`InsertKeepsContiguous`). A run of inserts is numbered `N + 1, N + 2, …` (`SequentialInserts`). From the empty store the numbering is `1, 2, 3, …` (`InsertsIntoEmpty`).
- Loaded identifiers are taken verbatim, so gaps are possible. When key `len(db) + 1` is already present, the insert silently replaces that record and the store does not grow (`InsertOverwrites`, with a concrete instance in `CollisionExample`).
- More generally, a stored key above the store size means records are lost. When `k` is such a key, the next `k - len(db)` inserts add fewer records than there were inserts (`GapForcesOverwrite`). When `k` is the least such key, the last of those inserts is numbered `k` and replaces the loaded record under it (`GapKeyOverwritten`). A larger key may never be reached: from the loaded store `{3, 4}` every insert is numbered 3.
- What every insert does keep is "each record is stored under its own id" (`InsertKeepsIdsMatchKeys`). That is why a complete mirror file always loads back into exactly the store it was written from (`MirrorReloads`, `LoadAddReload`).

Two consequences of the code are worth stating plainly:

- `os.Create` truncates the mirror file before marshalling. A marshal failure therefore leaves an empty file (`Truncated`), not the previous contents.
- Identifiers are unique only while the keys stay `1..N`, as the lemmas above show.

## Model

| member | source | states |
|---|---|---|
| Loader.Convert | internal/loader/vehicle_json.go:57-79 | The loaded map's key set is exactly the set of ids declared in the list, so an empty list gives an empty map. Every entry is stored under its own id. |
| Loader.Nest | internal/loader/vehicle_json.go:59-78 | The record built from one element: every scalar is copied and height, length and width are nested into the dimensions. It is specified by RoundTrip.FlattenUndoesNest, RoundTrip.NestUndoesFlatten and RoundTrip.LoadedRecordFlattensBack. |
| Loader.Load | internal/loader/vehicle_json.go:41-82 | An open failure is returned before anything else, and a decode failure next; both give no mapping. Otherwise the map is keyed by exactly the decoded ids, each record under its own id. |
| Loader.ConvertSize | internal/loader/vehicle_json.go:57-79 | The loaded map never has more entries than the list has elements. |
| Loader.LaterWins | internal/loader/vehicle_json.go:58-59 | When ids repeat, the element that carries an id last in list order is the one stored under it. |
| Loader.ConvertDistinct | internal/loader/vehicle_json.go:57-79 | With pairwise distinct ids, nothing is lost: one record per element, each the nesting of its element. |
| Repository.NewVehicleMap | internal/repository/vehicle_map.go:11-18 | A nil map gives an empty store. A non-nil map becomes the store unchanged. |
| Repository.FindAll | internal/repository/vehicle_map.go:70-79 | The copy has the same keys and the same values as the store, whatever the iteration order, and the error is always nil. |
| Repository.GetByColorAndYear | internal/repository/vehicle_map.go:134-145 | A key is in the result exactly when its stored record has that colour and that year. Each result value is the stored record under its original key, so the result is a sub-map of the store. The error is always nil. |
| Repository.NoMatchIsEmpty | internal/repository/vehicle_map.go:135-144 | A colour/year pair that no record has yields the empty map, not an error. |
| Repository.Insert | internal/repository/vehicle_map.go:83-84 | The caller's record gets id `\|db\|+1` and keeps its attributes. The new key set is the old one plus `\|db\|+1`, the new key holds that record, and every other key keeps its value. |
| Repository.InsertKeepsIdsMatchKeys | internal/repository/vehicle_map.go:83-84 | If every record's id equals its key before an insert, the same holds after it. |
| Repository.InsertKeepsContiguous | internal/repository/vehicle_map.go:83-84 | On a store keyed exactly 1..N with ids equal to keys, an insert grows the store by one and leaves it keyed 1..N+1 with ids equal to keys. |
| Repository.InsertOverwrites | internal/repository/vehicle_map.go:83-84 | If key `\|db\|+1` is already stored, the insert replaces that record: the key set and the size stay the same. |
| Repository.CollisionExample | internal/repository/vehicle_map.go:83-84 | A store loaded with the single record 2 loses it to the next insert, which is also numbered 2. |
| Repository.InsertAllKeepsContiguous | internal/repository/vehicle_map.go:83-84 | Any run of inserts into a store keyed 1..N with ids equal to keys keeps that shape and adds exactly one record per insert. |
| Repository.InsertKeepsNoKeyAbove | internal/repository/vehicle_map.go:83-84 | When no key exceeds the store size, an insert lands on a fresh key, grows the store by one, and keeps that property. |
| Repository.InsertAllKeeps | internal/repository/vehicle_map.go:83-84 | When no key exceeds the store size, a run of inserts keeps every stored record and adds one record per insert. |
| Repository.InsertedAt | internal/repository/vehicle_map.go:83-84 | The i-th insert of a run into such a store is stored under key N+i+1, with that id and the attributes it was given. |
| Repository.SequentialInserts | internal/repository/vehicle_map.go:83-84 | Inserts into a store of size N with no key above N are numbered N+1, N+2, … in insertion order, whatever ids the caller supplied. |
| Repository.InsertsIntoEmpty | internal/repository/vehicle_map.go:83-84 | Inserts into the empty store are numbered 1, 2, 3, … in order. The store holds exactly keys 1..n, and key k holds the k-th record's attributes. |
| Repository.InsertAllGrowth | internal/repository/vehicle_map.go:83-84 | n inserts never add more than n records. |
| Repository.GapForcesOverwrite | internal/repository/vehicle_map.go:83-84 | If some stored key k exceeds the store size, the next k-\|db\| inserts add fewer records than there were inserts, so some record is lost. Which key is hit is left to Repository.GapKeyOverwritten. |
| Repository.GapKeyOverwritten | internal/repository/vehicle_map.go:83-84 | If k is the least stored key above the store size, the k-\|db\|-th insert is numbered k and replaces the loaded record under k. |
| Repository.Flatten | internal/repository/vehicle_map.go:98-113 | The mirror element of a stored record: every scalar is copied and the dimensions are inlined. It is specified by RoundTrip.NestUndoesFlatten and RoundTrip.FlattenUndoesNest. |
| Repository.FlattenSeq | internal/repository/vehicle_map.go:96-114 | The flattened list has one element per listed key, and element i is the flat form of the record under the i-th listed key. |
| Repository.MirrorSize | internal/repository/vehicle_map.go:96-114 | Whatever the iteration order, a mirror of the store holds exactly one element per stored record. |
| Repository.FlattenStore | internal/repository/vehicle_map.go:94-114 | The flattening loop visits every stored key exactly once, in some order. The list has one element per stored record, and every stored record appears in it. |
| Repository.AddVehicle | internal/repository/vehicle_map.go:81-131 | The record is numbered `\|db\|+1` and stored before any file step. The first failing step among create, marshal and write decides the returned error and the file state, and the store keeps the insert in every case. With no failure the error is nil and the file holds the whole new store flattened in some key order, one element per record (Repository.MirrorSize). |
| Service.NewVehicleDefault | internal/service/vehicle_default.go:6-8 | Wraps the repository and adds no state, so every service operation below answers from exactly that repository. |
| Service.FindAll | internal/service/vehicle_default.go:17-20 | Returns exactly the repository's store and its nil error. |
| Service.AddVehicle | internal/service/vehicle_default.go:23-26 | The new state and the caller-visible record are the repository's insert, with the assigned id. The error and the mirror file are the repository's, unchanged. |
| Service.GetByColorAndYear | internal/service/vehicle_default.go:29-32 | Forwards colour and year unchanged and returns the repository's filter result and nil error. |
| RoundTrip.Reread | internal/repository/vehicle_map.go:117 | Stands for marshalling a mirror element and decoding it as a loader element (internal/loader/vehicle_json.go:51). The fourteen JSON field names agree, so every field carries over. RoundTrip.MirrorReloads and RoundTrip.LoadAddReload rest on it. |
| RoundTrip.FlattenUndoesNest | internal/loader/vehicle_json.go:59-78 | Flattening the record nested from a loader element, then reading it back, gives that element field for field. |
| RoundTrip.NestUndoesFlatten | internal/repository/vehicle_map.go:98-113 | Nesting the flat form of a stored record gives back the record, dimensions included. |
| RoundTrip.LoadedRecordFlattensBack | internal/loader/vehicle_json.go:58-78 | The record loaded for an id's last element flattens back to that element, and its dimensions equal the element's height, length and width. |
| RoundTrip.ReloadPrefix | internal/repository/vehicle_map.go:96-114 | Loading the flattening of the records under some keys rebuilds the store restricted to those keys. This holds whenever ids equal keys. |
| RoundTrip.MirrorReloads | internal/repository/vehicle_map.go:94-128 | When ids equal keys, a complete mirror file, written in any order, loads back into exactly the store. |
| RoundTrip.LoadAddReload | internal/repository/vehicle_map.go:81-131 | After loading a store and inserting one record, a complete mirror file loads back into the store after the insert. |

## Left out

- The HTTP handlers (`internal/handler/vehicle.go`) are not part of this model. They are routing, request decoding and response writing on external libraries, and their flat/nested copies repeat `Nest` and `Flatten`.
- Opening, decoding, creating, marshalling and writing files are not modelled as byte operations. Each is reduced to a success or error outcome supplied as input.
- Repository.AddVehicle: JSON marshalling fails for NaN or infinite floats. The model takes the marshal outcome as input and does not derive it from the record values.
- A failed write may leave any partial content. The model records only `Incomplete`.
- `file.Close` (deferred) is not modelled. Its error is ignored by the code.
- Floats (`MaxSpeed`, `Weight`, `Height`, `Length`, `Width`) are opaque IEEE-754 bit patterns. They are only copied, so the model does no floating-point reasoning.
- RoundTrip.MirrorReloads relies on `Reread`. `Reread` stands for JSON-encoding a mirror element and decoding it as a loader element. It assumes that Go's float encoding round-trips every finite float64 exactly, and that JSON string escaping round-trips every string.
- Go strings are byte strings, and the model's `string` is a sequence of Unicode characters. This is sound here because every stored string comes from a JSON decode, and Go's decoder yields valid UTF-8.
- RoundTrip.LoadAddReload assumes the loader reads the file that `AddVehicle` writes. In the code, the mirror path `../docs/db/vehicles.json` is fixed, while the loader's path is configurable.
- Go's 64-bit `int` is modelled as an unbounded integer. The only computed value, `len(db) + 1`, cannot overflow in practice. An out-of-range id in the JSON is a decode failure, which falls under the abstract decode error.
- Go maps are references, so `NewVehicleMap` shares the caller's map and `AddVehicle` mutates it in place. The model passes stores by value and returns the updated store, so aliasing effects are not modelled.
- The service is written against the `VehicleRepository` interface (`internal/vehicle_repository.go:4-11`). It is modelled over the one implementation, `VehicleMap`. `NewVehicleDefault` only wraps the repository and carries no contract.
- There is no locking in the code, so the model is sequential. Concurrent requests are out of scope.
- Debug printing with `fmt.Println` is not modelled.
- The unused `Dimensions` struct in `vehicle_map.go` is not modelled.
- The commented-out `AddVehicle` in `vehicle_json.go` is dead code and is not modelled.
