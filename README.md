# gopool: a Dafny model of the list-backed object pool

This project models `listPool` from the Go package gopool (`pool.go`): a pool
of reusable connections kept in a FIFO idle list.

- `newListPool` checks the configuration's counts, then checks that both callbacks are there.
  It then calls the factory `InitCount` times and appends each new connection to the idle list.
  On the first factory error it releases the half-built pool and fails with "init error".
- `Get` takes the entry at the front of the idle list. It hands back the list element that
  wraps the stored value, not the value itself. It fails with "empty list" when there is none.
- `Put` appends a non-nil value at the back. It refuses `nil` with "conn error".
- `Len` reports the length of the idle list.
- `Close` refuses `nil` with "conn error". For any other value it is meant to run the stored destructor.
- `Release` sets the list and both callbacks to nil. It destroys nothing.

Everything is in module `GoPool` (`pool.dfy`):

- The pool is the class `ListPool<T>`. Its fields are the idle list (`seq<Option<T>>`, with `None` standing for `nil`),
  the `released` flag (the list pointer is nil) and the two nullable callback references.
  A ghost field `dropped` collects the idle entries that `Release` let go of without destroying them.
- The caller's factory and destructor are the classes `Factory` and `Destructor`.
  They count or log their calls, so the contracts can say how often each callback runs.
  The factory's answer to its n-th call is given by a function of n.
  The destructor's failure on its n-th call is given by a function of n and the value.
- The effect of one `Get` or `Put` on the idle list is specified by the functions `GetFrom` and `PutInto`.
  The class methods are proved equal to them.
  `GetMany` and `PutMany` chain these functions over several calls, and `Apply` over any interleaving of calls.
  The FIFO lemmas are stated about those chains.

Two lines of `pool.go` do not do what they evidently mean to do (see "## Findings").
Each is modelled twice: once as written, with a lemma that exhibits the defect, and once corrected.
The pool's operations use the corrected versions. Everything else follows the code as written.
That includes `Get` handing back the list element and `Release` destroying nothing.

## Model

| member | source | states |
|---|---|---|
| `GoPool.BoundsRejectedAsWrittenAlways` | pool.go:39-40 | The bounds check as written holds for every pair of counts: passing it would need 0 <= InitCount <= MaxCount < 0 |
| `GoPool.ValidateAsWritten` | pool.go:39-44 | Validation as written returns "invalid config param" for every configuration, whatever its callbacks |
| `GoPool.ValidConfigRejectedAsWritten` | pool.go:39-40 | Counterexample: InitCount 3, MaxCount 5 with both callbacks present is refused as written and accepted by the corrected check |
| `GoPool.Validate` | pool.go:39-44 | Corrected validation: accepts exactly when 0 <= InitCount <= MaxCount and both callbacks are non-nil. A bad bound gives "invalid config param" even when a callback is also missing. "method invalid" comes only with good bounds and a missing callback |
| `GoPool.GetFrom` | pool.go:69-79 | One Get: on an empty list, "empty list" and the list unchanged; otherwise the front entry comes back wrapped in its element and the front plus the rest is the old list, so the length drops by one |
| `GoPool.PutInto` | pool.go:81-89 | One Put: nil gives "conn error" and no change; any other value succeeds, is appended at the back, the length grows by one and earlier entries are untouched |
| `GoPool.GetManyTakesFront` | pool.go:69-79 | k Gets on a list of at least k entries return its first k entries in order and leave the remaining suffix |
| `GoPool.PutManyAppends` | pool.go:81-89 | Successive Puts of non-nil values all succeed and leave the old list followed by the values in the order they were put |
| `GoPool.PutThenGetIsFifo` | pool.go:74-78 | FIFO: after Puts, Gets return the entries already idle and then the put values, in the order they went in; one more Get reports "empty list" |
| `GoPool.ApplyIsFifo` | pool.go:69-89 | FIFO for any interleaving of Gets and Puts, including nil Puts and Gets on an empty list: the values the successful Gets take out, followed by what stays idle, are the starting idle list followed by the non-nil values put, in order |
| `GoPool.CloseAsWritten` | pool.go:91-103 | `Close` as written: "conn error" comes back exactly for nil, before the self-call; a non-nil value calls itself with one stack frame fewer, and a call with no frame left is the stack overflow |
| `GoPool.CloseAsWrittenNeverReturns` | pool.go:91-103 | `Close` as written, given a non-nil value, calls itself until the stack runs out for every stack depth: it never reaches a destructor, the removal or a return |
| `GoPool.CloseAsWrittenNil` | pool.go:92-94 | `Close(nil)` as written returns "conn error" without recursing |
| `GoPool.Factory.Call` | pool.go:13 | A call of the factory answers with the outcome for its call index and counts one call |
| `GoPool.Destructor.Call` | pool.go:14 | A call of the destructor logs the value it was given; whether it fails is given by the call's index and the value, so it may depend on earlier calls |
| `GoPool.ListPool.constructor` | pool.go:45-50 | A new pool is live, has an empty idle list and holds the two given callbacks |
| `GoPool.ListPool.GetAll` | pool.go:62-67 | `getall` yields nil exactly after release, and otherwise the idle list |
| `GoPool.ListPool.Get` | pool.go:69-79 | On a live pool, the result and the new idle list are those of `GetFrom` on the old list; nothing else changes |
| `GoPool.ListPool.Put` | pool.go:81-89 | The result and the new idle list are those of `PutInto`. `Put(nil)` is allowed after release and changes nothing |
| `GoPool.ListPool.Close` | pool.go:91-103 | Corrected Close: nil gives "conn error" and no destructor call. Otherwise the destructor runs exactly once on the value. Its failure on that call becomes "close error". The idle list is not touched |
| `GoPool.ListPool.Len` | pool.go:105-107 | On a live pool, the length of the idle list |
| `GoPool.ListPool.Release` | pool.go:108-114 | The pool ends released with no list and no callbacks. The idle entries are dropped without any destructor call. A second Release changes nothing |
| `GoPool.NewListPool` | pool.go:38-60 | With the corrected check: a rejected configuration returns its validation error and never calls the factory. Otherwise the factory is called at most InitCount times. The pool is built exactly when the first InitCount answers are all connections; then the idle list holds them in creation order. Else the last call failed, all earlier calls succeeded, and the result is "init error". The destructor is never called |

## Left out

- The `sync.Mutex` is left out, and so is the race in `Get`, which reads the list length before taking the lock. Every operation is modelled as atomic.
- The `Timeout` field is stored but never read. It has no behaviour, so it is not modelled.
- `container/list` is modelled as a sequence. The `Remove` of a freshly built element in `Close` removes nothing, because that element belongs to no list. It is therefore left out.
- GoPool.ListPool.GetAll: returns a copy of the idle list. The Go code returns the shared list pointer, so later changes would show through it. This aliasing is not modelled.
- The nil-pointer panics are not modelled as outcomes. After `Release`, `Get`, `Len` and a non-nil `Put` dereference the nil list, and the corrected `Close` of a non-nil value calls the nil callback. Each of these requires a live pool instead.
- `interface{}` becomes a type parameter with `Option` for nil. The `errors` package becomes the `Error` datatype, one constructor per message. The factory's own error value is not kept, and the source does not pass it on either.
- The `GoPool` interface type and the unused package-level variable `conn` are not modelled. The loop uses its own local `conn` in its place.
- GoPool.NewListPool: is modelled with the corrected bounds check. With the check as written the init loop cannot be reached; `ValidateAsWritten` states that outcome.
- GoPool.ListPool.Close: models the corrected call of the stored destructor. The self-recursive code as written is modelled by `CloseAsWritten`, where Go's bounded goroutine stack appears as a stack-depth parameter.

## Findings

| source | as written | input that shows it | evidently intended | confidence | as-written member | corrected member |
|---|---|---|---|---|---|---|
| pool.go:39 | `InitCount < 0`, or `MaxCount >= 0`, or `InitCount > MaxCount` holds for every pair of counts, so every configuration is refused with "invalid config param" | InitCount 3, MaxCount 5, both callbacks set | `MaxCount < 0` in the middle disjunct, accepting exactly 0 <= InitCount <= MaxCount | high; not executed | `GoPool.ValidateAsWritten` | `GoPool.Validate` |
| pool.go:95 | `l.Close(conn)` calls the method itself, so a non-nil value recurses until the goroutine stack overflows | any non-nil value passed to `Close` | `l.close(conn)`, the stored destructor | high; not executed | `GoPool.CloseAsWrittenNeverReturns` | `GoPool.ListPool.Close` |
