/**
  The shared vocabulary of the vehicle service: the record type every layer
  passes around, the error values that travel with it, and the one store
  property that both the loader and the repository keep.
 */
module Internal {

  /** A float64 field, kept as its IEEE-754 bit pattern. The service only ever
      copies these values, so equality of bit patterns is all the model needs. */
  datatype Float64 = Float64(bits: bv64)

  /** The nested height/length/width value of a vehicle. */
  datatype Dimensions = Dimensions(height: Float64, length: Float64, width: Float64)

  /** Everything a vehicle carries besides its identifier. */
  datatype VehicleAttributes = VehicleAttributes(
    brand: string,
    model: string,
    registration: string,
    color: string,
    fabricationYear: int,
    capacity: int,
    maxSpeed: Float64,
    fuelType: string,
    transmission: string,
    weight: Float64,
    dimensions: Dimensions
  )

  /** A stored vehicle: its identifier plus its attributes. */
  datatype Vehicle = Vehicle(id: int, attributes: VehicleAttributes)

  /** An opaque error value, passed through unchanged by every layer. */
  datatype Error = Error(message: string)

  /** A value that may be absent; `None` plays the part of a nil error or a nil map. */
  datatype Option<T> = None | Some(value: T)

  /** Either a value or the error that prevented it. */
  datatype Result<T> = Ok(value: T) | Err(error: Error)

  /** A non-empty key set has a member to pick. */
  lemma NonEmptyHasKey(s: set<int>)
    requires s != {}
    ensures exists x :: x in s
  {
    if forall x :: x !in s {
      assert false;
    }
  }

  /** Every record is stored under its own identifier. */
  ghost predicate IdsMatchKeys(db: map<int, Vehicle>)
  {
    forall k :: k in db ==> db[k].id == k
  }
}
