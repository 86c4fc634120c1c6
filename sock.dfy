/**
 * What the worker does with one request (`makesocks`), the descriptor release
 * entry point (`closesock`) and the submission entry point (`sock`), after
 * c_src/sock.c; the older copy sock.c differs only in `makesocks`'s exit on a
 * failed switch back (`LegacyReply`).
 */
module NetnsSock {
  import opened CTypes
  import opened Kernel
  import WorkQueue

  datatype Option<T> = None | Some(value: T)

  /** The outcome of each system call `makesocks` makes; socket(2) is asked once per slot. */
  datatype Oracle = Oracle(
    openSelf: bool,           // open("/proc/self/ns/net")
    openTarget: bool,         // open("/var/run/netns/<ns>")
    enter: bool,              // setns(new_ns)
    socket: nat -> bool,      // the i-th socket()
    leave: bool)              // setns(current_ns)

  /** The atoms `closesock` replies with, and `am_error`, the reply after a failed switch back. */
  datatype Atom = Ok | Eio | Error

  function AtomText(a: Atom): (s: string) {
    match a
    case Ok => "ok"
    case Eio => "eio"
    case Error => "error"
  }

  /** The atoms `makesocks` replies with when it gives up before making any socket. */
  datatype EnterError = CurrNsError | NewNsError | SetNsError

  function ErrorText(e: EnterError): (s: string) {
    match e
    case CurrNsError => "currnserror"
    case NewNsError => "newnserror"
    case SetNsError => "setnserror"
  }

  /** An Erlang term as the replies use them: a list of integers or an atom. */
  datatype Term = IntList(elems: seq<int>) | AtomTerm(name: string)

  /** Which exit `makesocks` takes. */
  datatype Status =
    | Done(fds: seq<int>)     // the socket list, built and (if switched) switched back
    | Failed(err: EnterError) // an error before any socket was made
    | Stranded                // setns back to the saved namespace failed

  function Max0(n: int): (m: nat) {
    if n < 0 then 0 else n
  }

  /** How many of the first `n` socket calls succeed. */
  function Successes(ok: nat -> bool, n: nat): (c: nat) {
    if n == 0 then 0 else Successes(ok, n - 1) + (if ok(n - 1) then 1 else 0)
  }

  /**
   * The socket loop of `makesocks` after `n` rounds: each round calls socket()
   * and puts a descriptor other than -1 at the front of the list.
   */
  function Allocate(os: Os, n: nat, ok: nat -> bool): (r: (Os, seq<int>))
    requires os.Valid()
    ensures r.0.Valid()
  {
    if n == 0 then (os, [])
    else
      var prev := Allocate(os, n - 1, ok);
      var step := Socket(prev.0, ok(n - 1));
      (step.0, if step.1 != INVALID_SOCKET then [step.1] + prev.1 else prev.1)
  }

  lemma {:induction false} SuccessesBound(ok: nat -> bool, n: nat)
    ensures Successes(ok, n) <= n
    ensures (forall i :: 0 <= i < n ==> ok(i)) ==> Successes(ok, n) == n
  {
    if n > 0 {
      SuccessesBound(ok, n - 1);
    }
  }

  /** The list holds one descriptor per successful call, so at most `n`. */
  lemma {:induction false} AllocateLength(os: Os, n: nat, ok: nat -> bool)
    requires os.Valid()
    ensures |Allocate(os, n, ok).1| == Successes(ok, n) <= n
  {
    SuccessesBound(ok, n);
    if n > 0 {
      AllocateLength(os, n - 1, ok);
    }
  }

  /**
   * The list is in reverse order of creation (most recent first), and every
   * descriptor in it is new: between the old and the new `nextFd`, so never -1.
   */
  lemma {:induction false} AllocateOrder(os: Os, n: nat, ok: nat -> bool)
    requires os.Valid()
    ensures var r := Allocate(os, n, ok);
      os.nextFd <= r.0.nextFd &&
      (forall j :: 0 <= j < |r.1| ==> os.nextFd <= r.1[j] < r.0.nextFd) &&
      (forall j, k :: 0 <= j < k < |r.1| ==> r.1[j] > r.1[k])
  {
    if n > 0 {
      AllocateOrder(os, n - 1, ok);
    }
  }

  /**
   * The loop changes the state only by adding its sockets, all created in the
   * ambient namespace, which it leaves alone; it calls nothing but socket().
   */
  lemma {:induction false} AllocateEffect(os: Os, n: nat, ok: nat -> bool)
    requires os.Valid()
    ensures var r := Allocate(os, n, ok);
      r.0.current == os.current && r.0.process == os.process &&
      (forall fd :: fd in r.0.files <==> fd in os.files || fd in r.1) &&
      (forall fd | fd in os.files :: r.0.files[fd] == os.files[fd]) &&
      (forall fd | fd in r.1 :: fd !in os.files && r.0.files[fd] == Endpoint(os.current)) &&
      os.calls <= r.0.calls &&
      (forall k | |os.calls| <= k < |r.0.calls| :: r.0.calls[k] == SocketCall)
  {
    if n > 0 {
      AllocateEffect(os, n - 1, ok);
      AllocateOrder(os, n - 1, ok);
    }
  }

  /** Sockets are not namespace handles, so the loop opens and closes no handle. */
  lemma AllocateHandles(os: Os, n: nat, ok: nat -> bool)
    requires os.Valid()
    ensures Allocate(os, n, ok).0.Handles() == os.Handles()
  {
    AllocateEffect(os, n, ok);
  }

  /**
   * Steps 1-3 of `makesocks` for a non-zero namespace: save a handle on the
   * ambient namespace, open the target and switch into it, closing the target
   * handle afterwards. On failure it returns the error atom, having closed
   * what it opened; on success the handle on the old namespace stays open.
   */
  method EnterNamespace(os: Os, ns: int32, o: Oracle) returns (sys: Os, currentNs: int, err: Option<EnterError>)
    requires os.Valid() && ns != 0
    ensures sys.Valid() && sys.process == os.process
    ensures err == Some(CurrNsError) <==> !o.openSelf
    ensures err == Some(NewNsError) <==> o.openSelf && !o.openTarget
    ensures err == Some(SetNsError) <==> o.openSelf && o.openTarget && !o.enter
    ensures err.None? <==> o.openSelf && o.openTarget && o.enter
    ensures err.Some? ==> sys.files == os.files && sys.current == os.current && sys.nextFd >= os.nextFd
    ensures err == Some(CurrNsError) ==> sys.calls == os.calls + [OpenCall(SELF_NS)]
    ensures err == Some(NewNsError) ==>
      sys.calls == os.calls + [OpenCall(SELF_NS), OpenCall(NetnsPath(ns)), CloseCall(os.nextFd)]
    ensures err == Some(SetNsError) ==>
      sys.calls == os.calls + [OpenCall(SELF_NS), OpenCall(NetnsPath(ns)), SetnsCall(os.nextFd + 1),
                               CloseCall(os.nextFd + 1), CloseCall(os.nextFd)]
    ensures err.None? ==>
      currentNs == os.nextFd && sys.nextFd == os.nextFd + 2 && sys.current == NetnsPath(ns) &&
      sys.files == os.files[currentNs := NsHandle(os.process)] &&
      sys.calls == os.calls + [OpenCall(SELF_NS), OpenCall(NetnsPath(ns)), SetnsCall(os.nextFd + 1),
                               CloseCall(os.nextFd + 1)]
  {
    var path := NetnsPath(ns);
    NetnsPathNotSelf(ns);
    var r1 := Open(os, SELF_NS, o.openSelf);
    sys, currentNs := r1.0, r1.1;
    if currentNs == INVALID_SOCKET {
      return sys, currentNs, Some(CurrNsError);
    }
    var r2 := Open(sys, path, o.openTarget);
    var newNs := r2.1;
    sys := r2.0;
    if newNs == INVALID_SOCKET {
      sys := Release(sys, currentNs);
      assert sys.files == os.files;
      return sys, currentNs, Some(NewNsError);
    }
    var r3 := Setns(sys, newNs, o.enter);
    sys := r3.0;
    if r3.1 != 0 {
      sys := Release(sys, newNs);
      sys := Release(sys, currentNs);
      assert sys.files == os.files;
      return sys, currentNs, Some(SetNsError);
    }
    sys := Release(sys, newNs);
    assert sys.files == os.files[currentNs := NsHandle(os.process)];
    return sys, currentNs, None;
  }

  /** Step 4 of `makesocks`: the socket loop, `for (i = 0; i < slots; i++)`. */
  method AllocateSockets(os: Os, slots: int32, ok: nat -> bool) returns (sys: Os, list: seq<int>)
    requires os.Valid()
    ensures sys == Allocate(os, Max0(slots as int), ok).0
    ensures list == Allocate(os, Max0(slots as int), ok).1
  {
    sys, list := os, [];
    var i := 0;
    while i < slots as int
      invariant 0 <= i <= Max0(slots as int)
      invariant sys == Allocate(os, i, ok).0 && list == Allocate(os, i, ok).1
    {
      var r := Socket(sys, ok(i));
      sys := r.0;
      if r.1 != INVALID_SOCKET {
        list := [r.1] + list;
      }
      i := i + 1;
    }
  }

  /** Step 5 of `makesocks`: switch back to the saved namespace and close its handle. */
  method LeaveNamespace(os: Os, currentNs: int, ok: bool) returns (sys: Os, back: bool)
    requires os.Valid() && currentNs in os.Handles()
    ensures sys.Valid() && sys.nextFd == os.nextFd && sys.process == os.process && os.calls <= sys.calls
    ensures back == ok
    ensures sys.files == os.files - {currentNs}
    ensures sys.Handles() == os.Handles() - {currentNs}
    ensures back ==> sys.current == os.files[currentNs].target
    ensures !back ==> sys.current == os.current
  {
    var r := Setns(os, currentNs, ok);
    sys := Release(r.0, currentNs);
    back := r.1 == 0;
  }

  /**
   * `makesocks` (c_src/sock.c:195-248) with the system calls abstracted: the
   * state `os` goes in and comes out, and `Reply` turns the exit into the term
   * sent back. The socket list is not stored back into the request.
   */
  method MakeSocks(os: Os, ns: int32, slots: int32, o: Oracle) returns (os': Os, st: Status)
    requires os.Valid()
    ensures os'.Valid() && os'.process == os.process
    // which exit is taken, for which failure
    ensures st == Failed(CurrNsError) <==> ns != 0 && !o.openSelf
    ensures st == Failed(NewNsError) <==> ns != 0 && o.openSelf && !o.openTarget
    ensures st == Failed(SetNsError) <==> ns != 0 && o.openSelf && o.openTarget && !o.enter
    ensures st == Stranded <==> ns != 0 && o.openSelf && o.openTarget && o.enter && !o.leave
    ensures st.Done? <==> ns == 0 || (o.openSelf && o.openTarget && o.enter && o.leave)
    // no namespace handle is left open on any exit
    ensures os'.Handles() == os.Handles()
    // an early error makes no socket and leaves the ambient namespace as it was
    ensures st.Failed? ==> os'.files == os.files && os'.current == os.current
    ensures st == Failed(CurrNsError) ==> os'.calls == os.calls + [OpenCall(SELF_NS)]
    ensures st == Failed(NewNsError) ==>
      os'.calls == os.calls + [OpenCall(SELF_NS), OpenCall(NetnsPath(ns)), CloseCall(os.nextFd)]
    ensures st == Failed(SetNsError) ==>
      os'.calls == os.calls + [OpenCall(SELF_NS), OpenCall(NetnsPath(ns)), SetnsCall(os.nextFd + 1),
                               CloseCall(os.nextFd + 1), CloseCall(os.nextFd)]
    // on success the thread is back in the namespace it saved: the main thread's, which is the
    // one it started in unless an earlier switch back failed; after a failed switch back it is
    // left in the target
    ensures st.Done? && ns != 0 ==> os'.current == os.process
    ensures st.Done? && (ns == 0 || os.current == os.process) ==> os'.current == os.current
    ensures st == Stranded ==> os'.current == NetnsPath(ns)
    // namespace 0: the socket loop alone, whatever the namespace calls would have done
    ensures ns == 0 ==> os' == Allocate(os, Max0(slots as int), o.socket).0
    ensures ns == 0 ==> st == Done(Allocate(os, Max0(slots as int), o.socket).1)
    ensures ns == 0 ==> forall k | |os.calls| <= k < |os'.calls| :: os'.calls[k] == SocketCall
    // the list: one new socket per successful call, most recent first, made in the requested namespace
    ensures st.Done? ==> |st.fds| == Successes(o.socket, Max0(slots as int)) <= Max0(slots as int)
    ensures st.Done? ==> forall j, k :: 0 <= j < k < |st.fds| ==> st.fds[j] > st.fds[k]
    ensures st.Done? ==> forall fd :: fd in os'.files <==> fd in os.files || fd in st.fds
    ensures st.Done? ==> forall fd | fd in st.fds ::
      fd != INVALID_SOCKET && fd !in os.files && fd in os'.files &&
      os'.files[fd] == Endpoint(if ns == 0 then os.current else NetnsPath(ns))
    ensures !st.Failed? ==> forall fd | fd in os.files :: fd in os'.files && os'.files[fd] == os.files[fd]
    // after a failed switch back, the sockets made stay open but are not returned
    ensures st == Stranded ==>
      forall fd | fd in os'.files && fd !in os.files :: os'.files[fd] == Endpoint(NetnsPath(ns))
  {
    var n := Max0(slots as int);
    if ns == 0 {
      var list;
      os', list := AllocateSockets(os, slots, o.socket);
      AllocateLength(os, n, o.socket);
      AllocateOrder(os, n, o.socket);
      AllocateEffect(os, n, o.socket);
      AllocateHandles(os, n, o.socket);
      return os', Done(list);
    }
    var entered, currentNs, err := EnterNamespace(os, ns, o);
    if err.Some? {
      return entered, Failed(err.value);
    }
    assert entered.Handles() == os.Handles() + {currentNs};
    var filled, list := AllocateSockets(entered, slots, o.socket);
    AllocateLength(entered, n, o.socket);
    AllocateOrder(entered, n, o.socket);
    AllocateEffect(entered, n, o.socket);
    AllocateHandles(entered, n, o.socket);
    var back;
    os', back := LeaveNamespace(filled, currentNs, o.leave);
    st := if back then Done(list) else Stranded;
  }

  /** The term c_src/sock.c replies with for each exit of `makesocks`. */
  function Reply(st: Status): (t: Term)
    ensures t.IntList? <==> st.Done?
    ensures st.Done? ==> t.elems == st.fds
    ensures st == Failed(CurrNsError) ==> t == AtomTerm("currnserror")
    ensures st == Failed(NewNsError) ==> t == AtomTerm("newnserror")
    ensures st == Failed(SetNsError) ==> t == AtomTerm("setnserror")
    ensures st == Stranded ==> t == AtomTerm("error")
  {
    match st
    case Done(fds) => IntList(fds)
    case Failed(e) => AtomTerm(ErrorText(e))
    case Stranded => AtomTerm(AtomText(Error))
  }

  /** The caller can tell every exit of `makesocks` from the reply alone. */
  lemma ReplyInjective(a: Status, b: Status)
    requires Reply(a) == Reply(b)
    ensures a == b
  {
    if a.Failed? && b.Failed? {
      assert ErrorText(a.err)[0] == ErrorText(b.err)[0];
    }
  }

  /**
   * The older copy sock.c replies like c_src/sock.c except after a failed
   * switch back, where it executes `return;` in a function that returns a
   * term: no reply is defined there.
   */
  function LegacyReply(st: Status): (t: Option<Term>)
    ensures t.None? <==> st == Stranded
    ensures t.Some? ==> t.value == Reply(st)
  {
    if st == Stranded then None else Some(Reply(st))
  }

  /**
   * The older copy's flaw: whenever the switch back fails it has no reply,
   * while c_src/sock.c replies `error` for the same inputs.
   */
  lemma LegacyNoReplyOnStranded()
    ensures LegacyReply(Stranded).None? && Reply(Stranded) == AtomTerm("error")
  {
  }

  /** `closesock`: `eio` when close(2) fails, `ok` otherwise. The descriptor is released either way. */
  function CloseSock(os: Os, fd: int32, fault: bool): (r: (Os, Atom))
    requires os.Valid()
    ensures r.0.Valid() && r.0.current == os.current
    ensures r.0.files == os.files - {fd as int}
    ensures r.1 == Ok <==> fd as int in os.files && !fault
    ensures r.1 != Ok ==> r.1 == Eio
  {
    var c := Close(os, fd as int, fault);
    (c.0, if c.1 < 0 then Eio else Ok)
  }

  /** Releasing a descriptor twice: `ok` the first time (barring an I/O fault), `eio` the second. */
  lemma CloseSockTwice(os: Os, fd: int32, fault: bool)
    requires os.Valid() && fd as int in os.files
    ensures CloseSock(os, fd, false).1 == Ok
    ensures CloseSock(CloseSock(os, fd, false).0, fd, fault).1 == Eio
  {
  }

  /**
   * `sock`, after its arguments are decoded: queues the request and answers
   * `ok` at once, even when `addns` could not allocate the request node and
   * the request was dropped.
   */
  method Sock(q: WorkQueue.Queue, pid: WorkQueue.Pid, slots: int32, ns: int32, allocOk: bool) returns (a: Atom)
    requires q.Valid()
    modifies q, q.Contents
    ensures q.Valid() && a == Ok
    ensures !allocOk ==> q.Contents == old(q.Contents)
    ensures allocOk ==>
      |q.Contents| == |old(q.Contents)| + 1 && q.Contents[..|old(q.Contents)|] == old(q.Contents) &&
      q.tail == q.Contents[|q.Contents| - 1] && fresh(q.tail) &&
      q.tail.ns == ns && q.tail.slots == slots && q.tail.pid == pid
  {
    var _ := q.AddNs(pid, slots, ns, allocOk);
    return Ok;
  }
}
