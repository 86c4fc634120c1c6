# netns-erlang socket provisioning, modelled in Dafny

This project models the C core of an Erlang NIF library. The library creates
batches of sockets for Erlang processes, optionally inside a named Linux
network namespace. Callers submit a request through `sock/3`. A linked work
queue holds the request until the single worker thread takes it. The worker
then runs `makesocks`. If the namespace id is non-zero, it saves a handle
from `/proc/self/ns/net`, opens `/var/run/netns/<ns>` and `setns`es into it.
`/proc/self` names the process's main thread, so the saved handle is on the
main thread's namespace. It then creates `slots` sockets on a best-effort
basis, switches back to the saved namespace, and replies with the list of
descriptors or an error atom. `closesock/1` closes a descriptor
again.

The primary source is `c_src/sock.c`. The older copy `sock.c` has the same
`addns`, `popns`, `closesock` and socket loop (sock.c:110-160, sock.c:248-257,
sock.c:299-314), so the same members model both. The two copies of
`makesocks` differ only at the failed switch back (sock.c:259-264). There the
older copy has no reply, which `LegacyReply` captures.

Modules:

- `CTypes` (ctypes.dfy): C `int` as the 32-bit `int32`, and `INVALID_SOCKET`.
- `Decimal` (decimal.dfy): the `%d` conversion that builds the namespace
  path, and a parser that inverts it.
- `Kernel` (kernel.dfy): an abstract model of `open`, `setns`, `socket` and
  `close`, made as explicit state threaded through the calls. The state holds
  the calling thread's namespace, the main thread's namespace, the table of open descriptors (a namespace handle or a
  socket, each with its namespace), a fresh-descriptor counter and the trace of
  calls. Every call's success is an oracle input.
- `WorkQueue` (queue.dfy): `namespace_t` as the class `Request`, and `queue_t`
  as the class `Queue`. `Queue` has `head` and `tail` references, updated in
  place through the nodes' `next` fields. A ghost `Contents` sequence is tied
  to that node chain by `Valid()`.
- `NetnsSock` (sock.dfy): `makesocks`, split into its three phases (enter,
  socket loop, leave). Also the reply terms of both copies, `closesock`, and
  the `sock` entry point after argument decoding.

## Model

| member | source | states |
|---|---|---|
| `WorkQueue.Request.constructor` | c_src/sock.c:139-145 | a new node stores the given `ns`, `slots` and `pid` and has no successor |
| `WorkQueue.Queue.constructor` | c_src/sock.c:46-64 | a new queue has `head` and `tail` null, is empty and satisfies the representation invariant |
| `WorkQueue.Queue.AddNs` | c_src/sock.c:136-165 | when allocation fails: returns 0 and the queue is unchanged; otherwise returns 1 and the contents become the old contents followed by a fresh node holding the arguments, now the `tail`; `head` stays if the queue was non-empty and becomes the new node if it was empty; `head == null <==> tail == null` and the node-chain invariant are preserved |
| `WorkQueue.Queue.PopNs` | c_src/sock.c:115-134 | on a non-empty queue (the blocking wait becomes a precondition): returns the old head, the rest stays in the original order, the returned node is detached (`next == null`) and no longer queued, and the invariant (including `tail` reset on emptying) is preserved |
| `WorkQueue.Queue.DestroyableIffEmpty` | c_src/sock.c:79-81 | under the invariant, the `head == NULL && tail == NULL` assertion of `queue_destroy` holds exactly when the queue is empty |
| `WorkQueue.PopAll` | c_src/sock.c:115-134 | popping a valid queue until it is empty yields the callers of its requests in queue order and leaves it empty and valid |
| `WorkQueue.Drain` | c_src/sock.c:115-165 | for every sequence of callers, queueing one request per caller with `addns` and then popping with `popns` until empty returns the callers in arrival order, and the emptied queue passes the destroy check |
| `Decimal.Format` | c_src/sock.c:207 | the `%d` text starts with `-` exactly for negative values, followed by at least one decimal digit and nothing else, and its first digit is `0` only for zero |
| `Decimal.FormatRoundTrip` | c_src/sock.c:207 | the `%d` text of every integer parses back to that integer |
| `Decimal.FormatLength32` | c_src/sock.c:207 | `%d` of any 32-bit `int` is 1 to 11 characters |
| `Kernel.NetnsPath` | c_src/sock.c:207 | the path is `/var/run/netns/` followed by text that parses back to the namespace id |
| `Kernel.Open` | c_src/sock.c:209-213 | a failed `open` returns -1 and changes no descriptor; a successful one returns a fresh descriptor (not open before) that is a handle on the main thread's namespace for the self path (what `/proc/self` names) and on the named namespace otherwise; the call is recorded and neither namespace changes |
| `Kernel.Setns` | c_src/sock.c:218 | `setns` returns 0 exactly when its oracle allows it and the descriptor is an open namespace handle, and then the calling thread's namespace becomes that handle's namespace; otherwise it returns -1 and the namespace stays; the descriptor table and the main thread's namespace never change |
| `Kernel.Socket` | c_src/sock.c:229 | a failed `socket` returns -1 and changes no descriptor; a successful one returns a fresh descriptor, now a socket in the calling thread's namespace |
| `Kernel.Release` | c_src/sock.c:215-223 | closing a descriptor removes exactly that descriptor from the table, records the call and leaves the namespace alone |
| `Kernel.Close` | c_src/sock.c:285 | `close` has the effect of `Release` and returns 0 exactly when the descriptor was open and no I/O fault occurred, otherwise -1 |
| `Kernel.NetnsPathFits` | c_src/sock.c:201-207 | `/var/run/netns/<ns>` plus its NUL fits the 30-byte `netns` buffer for every `int` value of `ns` |
| `Kernel.NetnsPathInjective` | c_src/sock.c:207 | distinct namespace ids map to distinct paths |
| `Kernel.NetnsPathNotSelf` | c_src/sock.c:207-213 | the target path differs from `/proc/self/ns/net`, so opening it never takes the self-handle case of `Open` |
| `NetnsSock.EnterNamespace` | c_src/sock.c:206-225 | `currnserror` exactly when opening the self handle fails; `newnserror` exactly when the target open fails, after closing `current_ns`; `setnserror` exactly when `setns` fails, after closing both handles; on any of these the descriptor table and namespace are as before, and the exact call sequence is given; on success the thread is in the target namespace, the target handle is closed and only the saved handle, on the main thread's namespace, remains open |
| `NetnsSock.Allocate` | c_src/sock.c:227-234 | the socket-loop specification: after `n` rounds, each calling `socket()` and putting a descriptor other than -1 at the front of the list, a valid state stays valid (its properties are the `Allocate*` lemmas below) |
| `NetnsSock.AllocateSockets` | c_src/sock.c:227-234 | the `for` loop's final state and list are those of the socket-loop specification `Allocate` after `max(slots, 0)` rounds |
| `NetnsSock.AllocateLength` | c_src/sock.c:228-233 | the list holds exactly one descriptor per successful `socket()` call, so at most `max(slots, 0)` of them |
| `NetnsSock.SuccessesBound` | c_src/sock.c:228-230 | at most `n` of `n` calls succeed, and all `n` when every call succeeds |
| `NetnsSock.AllocateOrder` | c_src/sock.c:229-232 | every listed descriptor is fresh and never -1, and the list runs from the most recently created to the oldest |
| `NetnsSock.AllocateEffect` | c_src/sock.c:227-234 | the loop only adds its sockets, all made in the calling thread's namespace; it keeps every earlier descriptor, leaves the namespace alone and calls nothing but `socket()` |
| `NetnsSock.AllocateHandles` | c_src/sock.c:227-234 | the loop opens and closes no namespace handle |
| `NetnsSock.LeaveNamespace` | c_src/sock.c:236-244 | `setns` back succeeds exactly when its oracle says so; the saved handle is closed on both outcomes; on success the thread's namespace is the saved handle's |
| `NetnsSock.MakeSocks` | c_src/sock.c:195-248 | each error status comes back for exactly its failing call; every exit leaves the set of open namespace handles as it was; early errors create no socket and keep the namespace; on success with `ns != 0` the worker is in the main thread's namespace, so it is back where it started whenever it started there (always, unless an earlier switch back failed); with `ns == 0` its namespace is untouched; a failed switch back leaves the thread in the target namespace with its sockets open but unreturned; with `ns == 0` only `socket()` is called and the outcome is independent of every namespace oracle; the list has `successes <= max(slots, 0)` new descriptors, none -1, most recent first, all made in the requested namespace |
| `NetnsSock.Reply` | c_src/sock.c:209-247 | the reply is a list exactly on the success exit, holding the descriptors; the three early errors reply `currnserror`, `newnserror` and `setnserror`; a failed switch back replies with the atom `error` |
| `NetnsSock.ReplyInjective` | c_src/sock.c:209-247 | distinct exits of `makesocks` give distinct replies |
| `NetnsSock.LegacyReply` | sock.c:259-264 | the older copy has no reply exactly on a failed switch back, and otherwise replies as `Reply` |
| `NetnsSock.LegacyNoReplyOnStranded` | sock.c:263 | on a failed switch back the older copy has no reply, while the primary copy replies `error` |
| `NetnsSock.CloseSock` | c_src/sock.c:276-290 | `ok` exactly when `close` succeeds, `eio` otherwise; the descriptor is no longer open afterwards |
| `NetnsSock.CloseSockTwice` | c_src/sock.c:285-289 | closing an open descriptor gives `ok` (barring an I/O fault), and closing it again gives `eio` |
| `NetnsSock.Sock` | c_src/sock.c:172-193 | after decoding, `sock` queues the request through `addns` and answers `ok` on both outcomes, even when allocation failed and the request was dropped |

Four behaviours of the code that the model keeps as they are:

- After a failed switch back, `makesocks` replies with the atom `error`, not a
  dedicated switch-back error. The sockets it created stay open and are not
  returned.
- `sock` ignores `addns`'s result. A failed allocation is therefore not visible
  to the caller: it gets `ok`, and no reply ever comes.
- After a failed switch back, the worker stays in the target namespace. Later
  requests with `ns == 0` create their sockets there. The next successful
  request with `ns != 0` returns the worker to the main thread's namespace,
  because that is the namespace the self handle names.
- A negative slot count is not rejected. The loop runs zero times and the
  reply is the empty list.

## Findings

| source | as written | input that shows it | evidently intended | confidence | as-written member | corrected member |
|---|---|---|---|---|---|---|
| sock.c:263 | `return;` without a value in `makesocks`, which returns an `ERL_NIF_TERM`; the worker then sends that undefined term | `ns != 0` with both opens and the first `setns` succeeding and the `setns` back failing | reply with the atom `error`, as c_src/sock.c:240 does | medium, not executed | `NetnsSock.LegacyNoReplyOnStranded` | `NetnsSock.Reply` |

## Left out

- The mutex, the condition variable and the worker thread (`thr_main`, `enif_thread_create`) are not modelled. They exist for concurrency; the queue is modelled sequentially, and `popns`'s wait-while-empty loop becomes the precondition that the queue is non-empty.
- Argument decoding in `sock` and `closesock` (`enif_get_local_pid`, `enif_get_int`, `badarg`), `load`, `unload`, `ERL_NIF_INIT` and the function table are left out: they are calls into the Erlang runtime. The `pid` allocated by `sock` leaks on `badarg`; memory management is not modelled.
- Reply delivery (`enif_send`), freeing of the request and clearing of the environment by the worker are left out: they are runtime calls with nothing to verify.
- `queue_create`'s failure paths (mutex or condition variable creation failing) and `queue_destroy`'s deallocation are left out. Only the emptiness assertion of `queue_destroy` is modelled.
- The system calls are abstract: success is an oracle input, and no kernel semantics are modelled beyond what each call does to the descriptor table and the two namespaces. A namespace is identified by the path that names it. Descriptor numbers come from a counter rather than the kernel's lowest-free rule.
- `makesocks` ignores the return value of `close`, so the model releases the descriptor without an oracle for that call (Linux releases it whatever `close` returns).
- `NetnsSock.MakeSocks` takes the request's `ns` and `slots` as values. The store of the list into the node's `socklist` field (c_src/sock.c:246) is not modelled.
- The commented-out earlier `sock` implementation (c_src/sock.c:250-274, sock.c:273-297) is not part of this model.
