/** The value view of one backend server: the fields of the `Server`
    struct that the load balancer keeps (its mutex is left out). */
module ServerRecords {

  datatype ServerRecord = ServerRecord(address: string, alive: bool, connections: int)

  /** The record after a liveness update: only the `alive` field changes. */
  function WithAlive(rec: ServerRecord, alive: bool): (r: ServerRecord)
    ensures r.alive == alive
    ensures r.address == rec.address && r.connections == rec.connections
  {
    rec.(alive := alive)
  }

  /** Setting liveness twice to the same value is the same as setting it once. */
  lemma WithAliveIdempotent(rec: ServerRecord, alive: bool)
    ensures WithAlive(WithAlive(rec, alive), alive) == WithAlive(rec, alive)
  {
  }

  /** Only the last of two liveness updates is visible. */
  lemma WithAliveLastWins(rec: ServerRecord, first: bool, second: bool)
    ensures WithAlive(WithAlive(rec, first), second) == WithAlive(rec, second)
  {
  }

  /** Setting liveness to what it already is changes nothing. */
  lemma WithAliveUnchanged(rec: ServerRecord)
    ensures WithAlive(rec, rec.alive) == rec
  {
  }
}
