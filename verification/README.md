# Connection registry and admission control of the TiProxy SQL server

This project models the connection registry of TiProxy's SQL server
(`pkg/proxy/proxy.go`) and proves its invariants. The registry is the state
that the server guards with one lock:

- a monotonic connection id counter `connID`;
- an admission limit `maxConnections`, where 0 means unlimited;
- the `clients` map from connection id to client connection.

Three operations change or read that state:

- **Admission.** The connection handler checks the limit and registers the
  connection in one critical section. A socket that arrives when the limit
  is reached is closed and the registry is left as it was. Otherwise the
  connection gets the counter's current value as its id, the counter is
  bumped, and the connection is registered under that id.
- **Deregistration.** A handler removes its own id when it exits.
- **Shutdown.** The listener is closed, then every registered client. Every
  close is attempted, and each failure is collected.

Two files make up the model:

- `registry.dfy`, module `Registry`. The registry as a value (`State`) and
  its transitions as functions (`Admit`, `Remove`). It also holds the
  invariant `Inv` and an event-trace semantics (`Replay` over `Accept` and
  `Exit` events). The lemmas say that ids are never reused, that the limit
  holds, that a rejection changes nothing, and that a removal touches only
  its own key.
- `server.dfy`, module `Proxy`. The class `SQLServer` has the fields
  `connID`, `maxConnections`, `clients` and `listening`. Its constructor and
  its `Admit` and `Remove` methods are proved against the `Registry`
  functions. `Close` closes the listener, then calls `CloseClients`, which
  loops over the registered ids and builds the error list. The outcome of each close is a parameter: `listenerClose` for the
  listener and `clientClose` for each client.

The counter is an unbounded `nat`. The source's lock is not modelled:
`Admit` and `Remove` are each one atomic step, just as each runs inside one
critical section in the source.

## Model

| member | source | states |
|---|---|---|
| `Registry.Initial` | pkg/proxy/proxy.go:60-65 | A new registry satisfies the invariant and keeps the configured limit. The constructor of `SQLServer` states that the counter starts at 0 and the map starts empty. |
| `Registry.Admit` | pkg/proxy/proxy.go:110-127 | The check-and-register step preserves the invariant. Every key stays below the counter, and a non-zero limit is never exceeded. |
| `Registry.AdmitUnlimited` | pkg/proxy/proxy.go:115-116 | With limit 0, admission always succeeds, however many clients are registered. |
| `Registry.AdmitRejectsWhenFull` | pkg/proxy/proxy.go:116-120 | Admission rejects if and only if the limit is non-zero and the map holds at least that many clients. A rejection leaves the counter and the map unchanged. |
| `Registry.AdmitRegistersFreshId` | pkg/proxy/proxy.go:122-126 | A successful admission hands out the old counter value, which is not already a key. The counter grows by exactly 1. Exactly that one key is added, the size grows by one, and every other entry is unchanged. |
| `Registry.Remove` | pkg/proxy/proxy.go:132-135 | Deregistration preserves the invariant, and the removed id is absent afterwards. |
| `Registry.RemoveTouchesOnlyOwnKey` | pkg/proxy/proxy.go:133-134 | Deregistration deletes only its own key. All other entries, the counter and the limit are unchanged. The size drops by one only when the id was present. |
| `Registry.Replay` | pkg/proxy/proxy.go:110-135 | Runs admissions and handler exits in a given order and collects the ids handed out. No event changes the limit. |
| `Registry.ReplayNeverReusesIds` | pkg/proxy/proxy.go:110-135 | Over any interleaving of admissions and exits, the invariant holds and the counter grows by the number of admissions. The ids handed out are strictly increasing and lie between the old and new counter, so no id is reused, even after a removal. |
| `Registry.ApplyCountsIds` | pkg/proxy/proxy.go:110-135 | One admission or exit keeps the invariant. The counter grows by one exactly when the event hands out an id, and that id is the old counter. |
| `Registry.IssuedIdsAreNew` | pkg/proxy/proxy.go:122-126 | No id handed out during a run was registered when the run began. |
| `Registry.AcceptsFillToLimit` | pkg/proxy/proxy.go:110-126 | A burst of accepts with no exits admits every socket when the limit is 0. Otherwise it admits exactly as many as there are free places, and the rest are rejected. So with limit 2 and three sockets, two are admitted and one is rejected. |
| `Registry.AcceptsRegisterInOrder` | pkg/proxy/proxy.go:122-126 | The sockets a burst of accepts admits are its first ones, in order. The i-th of them is registered under id old counter + i. Entries registered before the burst are unchanged. |
| `Proxy.ListenerErrors` | pkg/proxy/proxy.go:155-159 | Shutdown records one error for the listener exactly when a listener exists and closing it failed. That error is the listener's own. |
| `Proxy.CloseErrorsSnoc` | pkg/proxy/proxy.go:162-166 | Closing one more client appends that client's error to the collected list when its close fails, and leaves the list as it was otherwise. |
| `Proxy.CloseErrorsComeFromClosedClients` | pkg/proxy/proxy.go:162-166 | Every error in `CloseErrors`, the list collected while closing the clients in order, is the error returned by closing one of those clients. |
| `Proxy.FailedClients` | pkg/proxy/proxy.go:162-166 | An id is among the failed clients exactly when it was closed and its close returned an error. The list has no duplicates when the closing order has none. |
| `Proxy.CloseErrorsOfFailedClients` | pkg/proxy/proxy.go:162-166 | The collected client errors match the failed clients one to one, in closing order. Each entry is that client's close error. |
| `Proxy.FailedClientsCount` | pkg/proxy/proxy.go:162-166 | When every registered client is closed exactly once, the number of failed closes equals the number of registered clients whose close fails, whatever the closing order. |
| `Proxy.ShutdownErrors` | pkg/proxy/proxy.go:154-167 | When every registered client is closed exactly once, the error list is the listener's errors followed by one entry per client whose close failed, that client's own error, and nothing else. |
| `Proxy.SQLServer.constructor` | pkg/proxy/proxy.go:57-66 | A new server has counter 0, an empty map, the configured limit and a listener, and it satisfies the invariant. |
| `Proxy.SQLServer.Admit` | pkg/proxy/proxy.go:110-127 | The in-place admission equals the `Registry.Admit` transition and keeps the invariant. It rejects exactly at capacity and then changes nothing. Otherwise it returns the old counter as a fresh id, bumps the counter and inserts exactly that key. |
| `Proxy.SQLServer.Remove` | pkg/proxy/proxy.go:132-135 | The in-place deletion equals the `Registry.Remove` transition. It removes only the given key, and the counter cannot change. The invariant is kept. |
| `Proxy.SQLServer.CloseClients` | pkg/proxy/proxy.go:161-167 | The locked loop closes every registered client exactly once, in some order, whatever earlier closes returned. Its result is the list of errors of the failed closes, in closing order, and it has one entry per registered client whose close fails. |
| `Proxy.SQLServer.Close` | pkg/proxy/proxy.go:153-167 | Every registered client is closed exactly once, in some order, even after earlier failures. The error list is the listener's error, if any, then one entry per client whose close failed, each the error that client returned. Its length is the listener's count plus the number of registered clients whose close fails. The closing order is a ghost output. |

## Left out

- The accept loop `Run` (pkg/proxy/proxy.go:83-107), the wait group and context cancellation. These are socket I/O and goroutine coordination. Admission is one atomic step instead of a modelled mutex. The `Replay` trace stands in for any order of admissions and exits.
- Waiting for all handlers in `Close` (`s.wg.Wait`, pkg/proxy/proxy.go:169) is goroutine coordination and is not modelled.
- A race between shutdown and admission is not modelled. `Close` closes the listener (pkg/proxy/proxy.go:155-159) before it takes the lock. A socket accepted just before that can be admitted after the close loop (pkg/proxy/proxy.go:161-167) has run. That connection is then never closed by `Close`, and `s.wg.Wait` blocks until its client disconnects. The model runs `Admit` and `Close` as separate atomic steps, so it does not capture this interleaving.
- TLS configuration, `net.Listen` and their failure paths in `NewSQLServer` (pkg/proxy/proxy.go:68-78) are foreign calls. The constructor models only the successful path, where a listener exists.
- The `tcpKeepAlive` option (pkg/proxy/proxy.go:36, 61, 113, 141-147) is a socket option with no effect on the registry.
- Closing the rejected socket and the removed client connection (pkg/proxy/proxy.go:118, 137) is I/O. A `Rejected` outcome means the caller closes the socket.
- Prometheus metrics and zap logging (pkg/proxy/proxy.go:84, 124, 129-130, 137-138, 171) are side effects with no modelled behaviour.
- `errors.Collect`'s return value (pkg/proxy/proxy.go:172) is not modelled, because its implementation is not part of this model. `Close` returns the list of collected errors.
- Proxy.SQLServer.Admit: does not model the uint64 wrap-around of `connID` (pkg/proxy/proxy.go:123), because the counter is an unbounded `nat`. Reaching 2^64 admissions is out of reach in practice.
- Go's map iteration order in `Close` is unspecified. The model picks any remaining id, and the contract holds for every order.
- Building the `ClientConnection` and its backend connection manager (pkg/proxy/proxy.go:125) is not part of this model. A registered connection is an opaque `ConnRef`.
- `pkg/proxy/api.go` (HTTP routing, namespace handlers, redirect endpoint) is glue around a namespace manager that is not part of this model.
- `pkg/proxy/backend/authenticator_test.go` tests an authenticator that is not part of this model.
