/**
  The service layer: a stateless seam between the HTTP handlers and the
  repository. Every operation hands its arguments to the repository and
  returns the repository's answer as it is.
 */
module Service {
  import opened Internal
  import Repository

  /** The service holds the repository and nothing else. */
  datatype VehicleDefault = VehicleDefault(rp: Repository.VehicleMap)

  function NewVehicleDefault(rp: Repository.VehicleMap): VehicleDefault
  {
    VehicleDefault(rp)
  }

  /** Forwards to the repository: the whole store, no error. */
  method FindAll(s: VehicleDefault) returns (v: map<int, Vehicle>, err: Option<Error>)
    ensures v == s.rp.db
    ensures err == None
  {
    v, err := Repository.FindAll(s.rp);
  }

  /** Forwards the caller's record to the repository. The caller sees the
      identifier the repository assigned, the store grows exactly as the
      repository's insert says, and the mirror error comes back unchanged. */
  method AddVehicle(s: VehicleDefault, v: Vehicle, env: Repository.MirrorEnv)
    returns (s': VehicleDefault, stored: Vehicle, file: Repository.MirrorFile, err: Option<Error>)
    ensures Repository.Inserted(s'.rp, stored) == Repository.Insert(s.rp, v)
    ensures stored.id == |s.rp.db| + 1 && stored.attributes == v.attributes
    ensures Repository.MirrorOutcome(env, s'.rp.db, file, err)
  {
    var rp';
    rp', stored, file, err := Repository.AddVehicle(s.rp, v, env);
    s' := VehicleDefault(rp');
  }

  /** Forwards colour and year unchanged; returns the repository's filter result. */
  method GetByColorAndYear(s: VehicleDefault, color: string, year: int)
    returns (v: map<int, Vehicle>, err: Option<Error>)
    ensures v == Repository.Matching(s.rp.db, color, year)
    ensures err == None
  {
    v, err := Repository.GetByColorAndYear(s.rp, color, year);
  }
}
