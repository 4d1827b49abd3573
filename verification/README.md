# Round-robin load balancer, modelled in Dafny

This project models the backend selector of a small Go reverse proxy
(`loadbalancer/main.go`). A list of backend URL strings becomes an ordered list
of servers. Construction stops at the first URL that does not parse. A
`LoadBalancer` object then hands the servers out in turn: each call to
`NextServer` returns the server under the cursor and moves the cursor one
place on, wrapping at the end of the list.

Files:

- `urls.dfy` (module `Urls`): the `Result` type that stands for Go's
  `(value, error)` pair, the parsed `URL`, the `ParseError`, and `Parser`, the
  type of `url.Parse`. The parser is an argument of every operation that needs
  it, so each property holds for any parser, whichever strings it accepts.
- `rotation.dfy` (module `Rotation`): `Schedule(n, k)`, the positions handed
  out by the first k selections over n servers. It also holds the lemmas on
  rotation order, on balance (floor/ceil) and on exact fairness over any window
  of n·m selections.
- `balancer.dfy` (module `Balancer`): `Server`, `NewServer`, the
  `BuildServers` specification of the construction loop, the `LoadBalancer`
  class with its `servers` and `index` fields, `NextServer`,
  `NewLoadBalancer`, and lemmas connecting the object to `Rotation`.

The class has one ghost field, `picked`. It lists the positions `NextServer`
has returned since construction. `Valid()` ties it to the real fields: the
cursor equals `|picked| % |servers|`, and `picked` is the round-robin schedule.
This lets properties that span several calls be stated about the object
itself.

`NewLoadBalancer` accepts an empty URL list and builds a balancer with no
servers (loadbalancer/main.go:32-40); the model does the same. The code has no
health tracking, retries or locking, so the model has none either.

Go's `int` cannot overflow here: `index` stays below `len(servers)`, so
`index + 1` is at most `len(servers)`. Go's `%` truncates toward zero, but both
operands are non-negative here, so it agrees with Dafny's `%`.

## Model

| member | source | states |
|---|---|---|
| `Balancer.NewServer` | loadbalancer/main.go:16-22 | fails exactly when `url.Parse` fails, with the parser's error; otherwise the server holds the parsed URL |
| `Balancer.BuildServers` | loadbalancer/main.go:32-39 | a successfully built server list is exactly as long as the URL list |
| `Balancer.BuildServersSuccess` | loadbalancer/main.go:32-39 | building succeeds if and only if every URL parses, so an empty list builds an empty server list; server i is then the one `NewServer` builds from URL i (same length, same order) |
| `Balancer.BuildServersFailure` | loadbalancer/main.go:33-37 | a failed build reports the error of the first URL that does not parse; every URL before it parsed |
| `Balancer.PrefixFailure` | loadbalancer/main.go:33-37 | all or nothing: once a prefix of the list fails, the whole list fails with that same error, whatever follows |
| `Balancer.LoadBalancer.constructor` | loadbalancer/main.go:40 | the new balancer holds the given servers, its cursor is 0, no selection has been made, and the invariant holds |
| `Balancer.LoadBalancer.NextServer` | loadbalancer/main.go:51-55 | returns `servers[old index]`; the new index is `(old index + 1) % len`, inside `[0, len)`; the server list is unchanged; the k-th call since construction returns `servers[k % len]` |
| `Balancer.NewLoadBalancer` | loadbalancer/main.go:31-41 | fails exactly when `BuildServers` fails, with its error and no balancer; on success it returns a fresh balancer over exactly the `BuildServers` list, cursor 0, invariant established |
| `Balancer.RotationOrder` | loadbalancer/main.go:51-54 | on a valid balancer, selection j (0-based) since construction was position `j % len` |
| `Balancer.FairSelections` | loadbalancer/main.go:51-54 | in any `len·m` consecutive selections, each server position is handed out exactly m times |
| `Balancer.BalancedSelections` | loadbalancer/main.go:51-54 | after k selections, each position has been handed out `floor(k/len)` or `floor(k/len)+1` times |
| `Rotation.ScheduleAt` | loadbalancer/main.go:52-53 | in the schedule, selection j lands on position `j % n` (perfect rotation order) |
| `Rotation.ScheduleCount` | loadbalancer/main.go:52-53 | the first k selections visit position i exactly `k/n` times, plus one if `i < k % n` |
| `Rotation.FairFromStart` | loadbalancer/main.go:40 | n·m selections from a fresh cursor visit each position exactly m times |
| `Rotation.FairWindow` | loadbalancer/main.go:52-53 | any window of n·m consecutive selections visits each position exactly m times |
| `Rotation.StepCursor` | loadbalancer/main.go:53 | wrapping the cursor after each step is the same as wrapping the call count |

## Left out

- Balancer.LoadBalancer.NextServer: requires a non-empty server list; on an empty list Go indexes out of range and takes a modulo by zero (loadbalancer/main.go:52-53), a panic the model does not represent.
- `LoadBalancer.ServeHTTP` (loadbalancer/main.go:44-48): it forwards the request through `httputil`'s reverse proxy. That is network I/O in a foreign library. Only its call to `NextServer` matters here, and that is modelled.
- `Server.ServeHTTP` and `main` (loadbalancer/main.go:57-83): console output and `http.ListenAndServe`.
- The internals of `url.Parse`: a library whose source is not part of this model. It is an arbitrary total function passed as a parameter. `URL` keeps only some of the fields of Go's `url.URL`, because no operation here looks inside a URL.
- Concurrency: `net/http` calls `ServeHTTP` from concurrent goroutines, and the unsynchronised read-modify-write of `index` races. The model is sequential and says nothing about interleaved calls.
- Pointer identity: Go returns `*Server` and `*LoadBalancer`. `Server` is an immutable value here, so two equal URLs give equal servers. Fairness is therefore stated over positions in the list, not over server values.
- `server/mongo-connect/main.go`: a separate MongoDB/HTTP CRUD program, outside the backend selector.
