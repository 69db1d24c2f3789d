# go-load-balancer: server pool and round-robin selection

This project models the core of the `loadbalancer` package of
go-load-balancer: the backend `Server` record with its liveness accessors,
and the `ServerPool` that registers servers in order and hands them out in
round-robin order through a cursor that grows by one per call. It also
models the second, identical `Server` type declared in package `main`.

Modules:

- `ServerRecords` (`server_records.dfy`): the value view of a server
  (address, liveness, connection counter) and the liveness update
  `WithAlive`, with its idempotence and last-write-wins lemmas.
- `RoundRobinSchedule` (`round_robin_schedule.dfy`): the position a call
  picks for a given cursor (`Slot`, the source's `Current % len`), the
  positions a run of consecutive calls picks (`Positions`), and the fairness
  theorems about such runs.
- `LoadBalancer` (`load_balancer.dfy`): the classes `Server` and
  `ServerPool` with the source's methods; `RoundRobin` is specified by
  `Slot`, so every lemma of `RoundRobinSchedule` applies to a sequence of
  calls (call j of a run starting with cursor c uses cursor c + j, by
  `RoundRobin`'s postcondition on `current`).
- `MainPackage` (`main_package.dfy`): the `Server` type of package `main`,
  specified through the same `ServerRecord` value as the `loadbalancer` one,
  so the two coincide.

## Model

| member | source | states |
|---|---|---|
| `LoadBalancer.Server.constructor` | load-balancer/load-balancer.go:7-12 | a server holds exactly the address, liveness and connection counter it was built with |
| `LoadBalancer.Server.IsAlive` | load-balancer/load-balancer.go:15-19 | returns the current liveness flag and changes no state |
| `LoadBalancer.Server.SetAlive` | load-balancer/load-balancer.go:21-25 | the new state is the old one with only the liveness flag replaced; address and connections are kept |
| `LoadBalancer.ServerPool.constructor` | load-balancer/load-balancer.go:33-35 | a new pool has no servers and its cursor is zero |
| `LoadBalancer.ServerPool.AddServer` | load-balancer/load-balancer.go:37-41 | the list becomes the old list followed by the given server (order kept, count grows by one); the cursor is unchanged |
| `LoadBalancer.ServerPool.GetServerCount` | load-balancer/load-balancer.go:43-47 | returns the number of registered servers and changes no state |
| `LoadBalancer.ServerPool.RoundRobin` | load-balancer/load-balancer.go:50-60 | on a non-empty pool, returns the server at position `old cursor mod len` (always in bounds, whatever its liveness), advances the cursor by exactly one, and leaves the list and every server's fields unchanged |
| `RoundRobinSchedule.Slot` | load-balancer/load-balancer.go:55 | the picked index is below the pool size, never above the cursor, and equals the cursor while the cursor is below the pool size |
| `RoundRobinSchedule.SlotNext` | load-balancer/load-balancer.go:55-57 | one cursor increment moves the picked index one step forward, wrapping from the last server to the first |
| `RoundRobinSchedule.Positions` | load-balancer/load-balancer.go:55-57 | a run of m consecutive calls picks m indices, each within the pool |
| `RoundRobinSchedule.PositionsAt` | load-balancer/load-balancer.go:55-57 | the j-th call of a run is the call made with cursor start + j |
| `RoundRobinSchedule.PositionsSplit` | load-balancer/load-balancer.go:55-57 | a run of a + b calls is a run of a calls followed by a run of b calls from the cursor the first run left |
| `RoundRobinSchedule.PositionsAscending` | load-balancer/load-balancer.go:55-57 | until the cursor wraps, consecutive calls pick consecutive indices, and afterwards the cursor points just past them (or to index 0) |
| `RoundRobinSchedule.FullWindowRotation` | load-balancer/load-balancer.go:55-57 | n consecutive calls over n servers pick the indices in cyclic order starting at `cursor mod n`: s, s+1, ..., n-1, 0, ..., s-1 |
| `RoundRobinSchedule.FullWindowExactlyOnce` | load-balancer/load-balancer.go:55-57 | over any n consecutive calls every server position is returned exactly once, from any cursor value |
| `RoundRobinSchedule.ShortWindowAtMostOnce` | load-balancer/load-balancer.go:55-57 | a run of at most n calls never returns the same position twice |
| `RoundRobinSchedule.WindowCount` | load-balancer/load-balancer.go:55-57 | a run of q*n + r calls (r < n) returns every position q or q+1 times, exactly q times when r = 0 |
| `RoundRobinSchedule.WindowFairness` | load-balancer/load-balancer.go:55-57 | over any m consecutive calls every position is returned floor(m/n) or floor(m/n)+1 times, exactly m/n times when n divides m |
| `ServerRecords.WithAlive` | load-balancer/load-balancer.go:21-25 | a liveness update sets the flag to the given value and keeps address and connection counter |
| `ServerRecords.WithAliveIdempotent` | main.go:18-22 | applying the same liveness update twice gives the same state as applying it once |
| `ServerRecords.WithAliveLastWins` | main.go:18-22 | of two liveness updates only the second is visible |
| `ServerRecords.WithAliveUnchanged` | main.go:18-22 | writing the flag's current value leaves the server as it was |
| `MainPackage.Server.constructor` | main.go:5-10 | a server holds exactly the address, liveness and connection counter it was built with |
| `MainPackage.Server.IsAlive` | main.go:12-16 | returns the current liveness flag and changes no state |
| `MainPackage.Server.SetAlive` | main.go:18-22 | the new state is the old one with only the liveness flag replaced, through the same `WithAlive` as the `loadbalancer` server |
| `MainPackage.SetAliveTwiceThenIsAlive` | main.go:12-22 | after `SetAlive(b)` twice, `IsAlive()` returns b and the server is as after one `SetAlive(b)` |

## Left out

- The `sync.RWMutex` fields and every lock and unlock: each method is one atomic step, which is what the locks serialise.
- `LoadBalancer.ServerPool.RoundRobin`: the cursor is a Go `uint`, modelled as an unbounded natural number; the wrap at 2^64 is not modelled, and across that wrap the cycle is exact only when the pool size divides 2^64.
- `LoadBalancer.ServerPool.RoundRobin` on an empty pool panics in the source (integer division by zero); the model makes a non-empty pool a precondition instead of modelling the panic.
- The `Connections` field is never read or updated by the source; it is carried and shown unchanged.
- The `main` function of package `main` is empty and has nothing to model.
- The toy HTTP backends (`server1`, `server2`, `server5`) and the `logger` package are I/O on top of `net/http`, gin and `log`, with no pool logic.
- Health checks, circuit breaking, weighted round robin, least connections, IP hashing, weight adaptation and request forwarding do not occur in the modelled source files.
