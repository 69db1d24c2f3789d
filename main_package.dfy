/** Package `main`: a second declaration of the backend `Server` type with
    the same fields and the same liveness accessors as the one of package
    `loadbalancer`. Both are specified through the same ServerRecord value,
    so their observable behaviour coincides. */
module MainPackage {
  import opened ServerRecords

  class Server {
    var address: string
    var alive: bool
    var connections: int

    /** A server built field by field, as a composite literal does. */
    constructor (address: string, alive: bool, connections: int)
      ensures Record() == ServerRecord(address, alive, connections)
    {
      this.address := address;
      this.alive := alive;
      this.connections := connections;
    }

    /** The server's current state as a value. */
    function Record(): ServerRecord
      reads this
    {
      ServerRecord(address, alive, connections)
    }

    /** Reads the liveness flag; changes nothing. */
    method IsAlive() returns (b: bool)
      ensures b == alive
      ensures b == Record().alive
    {
      b := alive;
    }

    /** Overwrites the liveness flag; address and connections are kept. */
    method SetAlive(alive: bool)
      modifies this`alive
      ensures Record() == WithAlive(old(Record()), alive)
    {
      this.alive := alive;
    }
  }

  /** Two identical liveness updates followed by a read: the read returns
      the value written, and the server ends as a single update leaves it. */
  method SetAliveTwiceThenIsAlive(s: Server, alive: bool) returns (b: bool)
    modifies s`alive
    ensures b == alive
    ensures s.Record() == WithAlive(old(s.Record()), alive)
  {
    s.SetAlive(alive);
    s.SetAlive(alive);
    WithAliveIdempotent(old(s.Record()), alive);
    b := s.IsAlive();
  }
}
