/** Package `loadbalancer`: backend servers and the pool that hands them
    out in round-robin order. Every method is one atomic step; the
    read-write mutexes that serialise these steps in the source are left
    out. */
module LoadBalancer {
  import opened ServerRecords
  import opened RoundRobinSchedule

  /** One backend: its address, the result of its last health check and
      its connection counter. */
  class Server {
    var address: string
    var alive: bool
    var connections: int

    /** A server built field by field, as a composite literal does. */
    constructor (address: string, alive: bool, connections: int)
      ensures Record() == ServerRecord(address, alive, connections)
    {
      this.address := address;
      this.alive := alive;
      this.connections := connections;
    }

    /** The server's current state as a value. */
    function Record(): ServerRecord
      reads this
    {
      ServerRecord(address, alive, connections)
    }

    /** Reads the liveness flag; changes nothing. */
    method IsAlive() returns (b: bool)
      ensures b == alive
      ensures b == Record().alive
    {
      b := alive;
    }

    /** Overwrites the liveness flag; address and connections are kept. */
    method SetAlive(alive: bool)
      modifies this`alive
      ensures Record() == WithAlive(old(Record()), alive)
    {
      this.alive := alive;
    }
  }

  /** The ordered list of registered servers and the round-robin cursor.
      A registered entry may be a nil pointer, as Go allows. */
  class ServerPool {
    var servers: seq<Server?>
    var current: nat

    /** A pool with no servers and the cursor at zero. */
    constructor ()
      ensures servers == [] && current == 0
    {
      servers := [];
      current := 0;
    }

    /** Registers a server at the end of the list; the cursor is kept. */
    method AddServer(server: Server?)
      modifies this`servers
      ensures servers == old(servers) + [server]
      ensures |servers| == |old(servers)| + 1
      ensures current == old(current)
    {
      servers := servers + [server];
    }

    /** The number of registered servers; changes nothing. */
    method GetServerCount() returns (count: nat)
      ensures count == |servers|
    {
      count := |servers|;
    }

    /** Picks the server at the cursor position, whatever its liveness, and
        advances the cursor by one. The list and every server are left as
        they were. An empty pool is a division by zero in the source, so
        callers must register a server first. */
    method RoundRobin() returns (server: Server?)
      requires |servers| > 0
      modifies this`current
      ensures Slot(old(current), |servers|) < |servers|
      ensures server == servers[Slot(old(current), |servers|)]
      ensures current == old(current) + 1
      ensures servers == old(servers)
      ensures forall i :: 0 <= i < |servers| && servers[i] != null ==>
                servers[i].Record() == old(servers[i].Record())
    {
      server := servers[current % |servers|];
      current := current + 1;
    }
  }
}
