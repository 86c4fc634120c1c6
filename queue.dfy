/**
 * The work queue between the `sock` entry point and the worker thread
 * (`queue_t`, `addns`, `popns`, `queue_destroy` in c_src/sock.c): a singly
 * linked FIFO of request nodes with `head` and `tail` pointers. The mutex and
 * condition variable around it are not modelled; the calls are sequential.
 */
module WorkQueue {
  import opened CTypes

  /** The caller's process identity, opaque to the library (`ErlNifPid`). */
  type Pid = nat

  /** One request node (`namespace_t`). Only `next` changes once it is built. */
  class Request {
    const ns: int32       // namespace to allocate sockets in, 0 for the current one
    const slots: int32    // number of sockets to allocate
    const pid: Pid        // where the reply goes
    var next: Request?

    constructor (pid: Pid, slots: int32, ns: int32)
      ensures this.ns == ns && this.slots == slots && this.pid == pid && next == null
    {
      this.ns := ns;
      this.slots := slots;
      this.pid := pid;
      next := null;
    }
  }

  class Queue {
    var head: Request?
    var tail: Request?
    /** The queued requests, oldest first. */
    ghost var Contents: seq<Request>

    /**
     * The representation invariant: `head` and `tail` are null together, and
     * otherwise they are the first and last of a chain of distinct nodes linked
     * through `next` that spells out `Contents` and ends in null.
     */
    ghost predicate Valid()
      reads this, Contents
    {
      (head == null <==> tail == null) &&
      (Contents == [] ==> head == null) &&
      (Contents != [] ==>
        head == Contents[0] && tail == Contents[|Contents| - 1] && tail.next == null) &&
      (forall i :: 0 <= i < |Contents| - 1 ==> Contents[i].next == Contents[i + 1]) &&
      (forall i, j :: 0 <= i < j < |Contents| ==> Contents[i] != Contents[j])
    }

    /** `queue_create`, without the lock and condition variable. */
    constructor ()
      ensures Valid() && Contents == [] && head == null && tail == null
    {
      head, tail := null, null;
      Contents := [];
    }

    /**
     * `addns`: builds a request node and links it after `tail`; `head` moves
     * only if the queue was empty. Returns 0 and changes nothing when the
     * allocation fails (`allocOk` is the outcome of `enif_alloc`), else 1.
     */
    method AddNs(pid: Pid, slots: int32, ns: int32, allocOk: bool) returns (r: int)
      requires Valid()
      modifies this, Contents
      ensures Valid()
      ensures r == (if allocOk then 1 else 0)
      ensures !allocOk ==> Contents == old(Contents) && head == old(head) && tail == old(tail)
      ensures allocOk ==>
        |Contents| == |old(Contents)| + 1 && Contents[..|old(Contents)|] == old(Contents) &&
        fresh(tail) && tail == Contents[|Contents| - 1] &&
        tail.ns == ns && tail.slots == slots && tail.pid == pid
      ensures allocOk && old(head) != null ==> head == old(head)
      ensures allocOk && old(head) == null ==> head == tail
    {
      if !allocOk {
        return 0;
      }
      var nns := new Request(pid, slots, ns);
      if tail != null {
        tail.next := nns;
      }
      tail := nns;
      if head == null {
        head := tail;
      }
      Contents := Contents + [nns];
      return 1;
    }

    /**
     * `popns` on a non-empty queue (the real one blocks until an item arrives):
     * unlinks the head, detaches it and clears `tail` when the queue empties.
     */
    method PopNs() returns (item: Request)
      requires Valid() && Contents != []
      modifies this, Contents
      ensures Valid()
      ensures item == old(Contents[0]) && Contents == old(Contents[1..])
      ensures item.next == null && item !in Contents
    {
      item := head;
      head := item.next;
      item.next := null;
      if head == null {
        tail := null;
      }
      Contents := Contents[1..];
    }

    /** What `queue_destroy` asserts before freeing the queue: both pointers null. */
    predicate Destroyable()
      reads this
    {
      head == null && tail == null
    }

    /** Under the invariant, the destroy check holds exactly when no request is queued. */
    lemma DestroyableIffEmpty()
      requires Valid()
      ensures Destroyable() <==> Contents == []
    {
    }
  }

  /** Pops until the queue is empty: the callers come out in queue order. */
  method PopAll(q: Queue) returns (out: seq<Pid>)
    requires q.Valid()
    modifies q, q.Contents
    ensures q.Valid() && q.Contents == []
    ensures |out| == |old(q.Contents)|
    ensures forall j :: 0 <= j < |out| ==> out[j] == old(q.Contents)[j].pid
  {
    out := [];
    while q.head != null
      invariant q.Valid()
      invariant |out| <= |old(q.Contents)| && q.Contents == old(q.Contents)[|out|..]
      invariant forall j :: 0 <= j < |out| ==> out[j] == old(q.Contents)[j].pid
      decreases |q.Contents|
    {
      var item := q.PopNs();
      out := out + [item.pid];
    }
  }

  /**
   * Requests come out in the order they went in: queueing a request for each
   * caller of `pids` and then popping until the queue is empty yields the
   * callers in the same order, and leaves a queue that passes the destroy check.
   */
  method Drain(pids: seq<Pid>) returns (out: seq<Pid>, destroyable: bool)
    ensures out == pids && destroyable
  {
    var q := new Queue();
    var i := 0;
    while i < |pids|
      invariant 0 <= i <= |pids|
      invariant q.Valid() && fresh(q) && |q.Contents| == i
      invariant forall j :: 0 <= j < i ==> fresh(q.Contents[j]) && q.Contents[j].pid == pids[j]
    {
      var _ := q.AddNs(pids[i], 0, 0, true);
      i := i + 1;
    }
    out := PopAll(q);
    q.DestroyableIffEmpty();
    destroyable := q.Destroyable();
  }
}
