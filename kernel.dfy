/**
 * An abstract model of the few Linux system calls the library makes:
 * open(2), setns(2) with CLONE_NEWNET, socket(2) and close(2).
 * Whether a call succeeds is an input to the model (an oracle bit); the model
 * only tracks what the calls do to the calling thread's view of the system:
 * which network namespace the thread is in, which namespace the process's main
 * thread is in, which descriptors are open and what they refer to, and the
 * calls made so far.
 */
module Kernel {
  import opened CTypes
  import Decimal

  /** A network namespace, identified by the path that names it. */
  type Netns = string

  /**
   * Opened to save the namespace to return to (c_src/sock.c:209). `/proc/self`
   * names the thread-group leader, so from the worker thread this is the main
   * thread's namespace, not necessarily the worker's own.
   */
  const SELF_NS: string := "/proc/self/ns/net"

  /** The directory of named namespaces (c_src/sock.c:207). */
  const NETNS_DIR: string := "/var/run/netns/"

  /** Size of the `char netns[30]` buffer the namespace path is built in. */
  const NETNS_BUF: nat := 30

  /** What an open descriptor refers to. */
  datatype File =
    | NsHandle(target: Netns)   // a handle on a network namespace, from open(2)
    | Endpoint(home: Netns)       // a socket, created in the then ambient namespace

  /** The system calls, as the trace records them. */
  datatype Call = OpenCall(path: string) | SetnsCall(fd: int) | SocketCall | CloseCall(fd: int)

  /**
   * The state the calls act on. `current` is the calling thread's namespace,
   * the one setns(2) changes and socket(2) uses; `process` is the main thread's,
   * which the calling thread cannot change. `nextFd` stands for the kernel's
   * choice of a fresh descriptor number; every open descriptor is below it.
   */
  datatype Os = Os(current: Netns, process: Netns, files: map<int, File>, nextFd: nat, calls: seq<Call>) {

    predicate Valid() {
      forall fd | fd in files :: 0 <= fd < nextFd
    }

    /** The open namespace handles. */
    function Handles(): (h: set<int>) {
      set fd | fd in files && files[fd].NsHandle?
    }
  }

  /** The path `sprintf(netns, "/var/run/netns/%d", ns)` writes (c_src/sock.c:207). */
  function NetnsPath(ns: int32): (path: string)
    ensures |path| > |NETNS_DIR| && path[..|NETNS_DIR|] == NETNS_DIR
    ensures Decimal.Parse(path[|NETNS_DIR|..]) == ns as int
  {
    Decimal.FormatRoundTrip(ns as int);
    NETNS_DIR + Decimal.Format(ns as int)
  }

  /** open(path, O_RDONLY): a fresh descriptor, or -1 when the oracle says it fails. */
  function Open(os: Os, path: string, ok: bool): (r: (Os, int))
    requires os.Valid()
    ensures r.0.Valid() && r.0.current == os.current && r.0.process == os.process
    ensures r.0.calls == os.calls + [OpenCall(path)]
    ensures !ok ==> r.1 == INVALID_SOCKET && r.0.files == os.files && r.0.nextFd == os.nextFd
    ensures ok ==> r.1 == os.nextFd && r.1 !in os.files && r.0.nextFd == os.nextFd + 1
    ensures ok ==> r.0.files == os.files[r.1 := NsHandle(if path == SELF_NS then os.process else path)]
  {
    var os1 := os.(calls := os.calls + [OpenCall(path)]);
    if !ok then (os1, INVALID_SOCKET)
    else
      var h := NsHandle(if path == SELF_NS then os.process else path);
      (os1.(files := os.files[os.nextFd := h], nextFd := os.nextFd + 1), os.nextFd)
  }

  /**
   * setns(fd, CLONE_NEWNET): switches the ambient namespace to the one `fd`
   * refers to and returns 0; returns -1 and changes nothing else when the
   * oracle says it fails or `fd` is not a namespace handle.
   */
  function Setns(os: Os, fd: int, ok: bool): (r: (Os, int))
    requires os.Valid()
    ensures r.0.Valid() && r.0.files == os.files && r.0.nextFd == os.nextFd && r.0.process == os.process
    ensures r.0.calls == os.calls + [SetnsCall(fd)]
    ensures r.1 == 0 <==> ok && fd in os.Handles()
    ensures r.1 == 0 ==> r.0.current == os.files[fd].target
    ensures r.1 != 0 ==> r.1 == -1 && r.0.current == os.current
  {
    var os1 := os.(calls := os.calls + [SetnsCall(fd)]);
    if ok && fd in os.files && os.files[fd].NsHandle? then (os1.(current := os.files[fd].target), 0)
    else (os1, -1)
  }

  /** socket(AF_INET, SOCK_STREAM, 0): a fresh socket in the ambient namespace, or -1. */
  function Socket(os: Os, ok: bool): (r: (Os, int))
    requires os.Valid()
    ensures r.0.Valid() && r.0.current == os.current && r.0.process == os.process
    ensures r.0.calls == os.calls + [SocketCall]
    ensures !ok ==> r.1 == INVALID_SOCKET && r.0.files == os.files && r.0.nextFd == os.nextFd
    ensures ok ==> r.1 == os.nextFd && r.1 !in os.files && r.0.nextFd == os.nextFd + 1
    ensures ok ==> r.0.files == os.files[r.1 := Endpoint(os.current)]
  {
    var os1 := os.(calls := os.calls + [SocketCall]);
    if !ok then (os1, INVALID_SOCKET)
    else (os1.(files := os.files[os.nextFd := Endpoint(os.current)], nextFd := os.nextFd + 1), os.nextFd)
  }

  /**
   * The effect of close(fd) on the state. Linux releases the descriptor
   * whatever close returns, so this part does not depend on the outcome.
   */
  function Release(os: Os, fd: int): (r: Os)
    requires os.Valid()
    ensures r.Valid() && r.current == os.current && r.process == os.process && r.nextFd == os.nextFd
    ensures r.files == os.files - {fd} && r.calls == os.calls + [CloseCall(fd)]
  {
    os.(files := os.files - {fd}, calls := os.calls + [CloseCall(fd)])
  }

  /** close(fd): fails (-1) when `fd` is not open or an I/O fault occurs, else returns 0. */
  function Close(os: Os, fd: int, fault: bool): (r: (Os, int))
    requires os.Valid()
    ensures r.0 == Release(os, fd)
    ensures r.1 == 0 <==> fd in os.files && !fault
    ensures r.1 != 0 ==> r.1 == -1
  {
    (Release(os, fd), if fd in os.files && !fault then 0 else -1)
  }

  /**
   * The namespace path, with its terminating NUL, fits the 30-byte buffer for
   * every `int` value of the namespace id (at most 15 + 11 + 1 = 27 bytes).
   */
  lemma NetnsPathFits(ns: int32)
    ensures |NetnsPath(ns)| + 1 <= NETNS_BUF
  {
    Decimal.FormatLength32(ns as int);
  }

  /** Distinct namespace ids name distinct namespaces. */
  lemma NetnsPathInjective(a: int32, b: int32)
    requires NetnsPath(a) == NetnsPath(b)
    ensures a == b
  {
  }

  /** The target path differs from the self path, so opening it never takes the self-handle case of `Open`. */
  lemma NetnsPathNotSelf(ns: int32)
    ensures NetnsPath(ns) != SELF_NS
  {
  }
}
