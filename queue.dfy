/**
  A queue of strings held in a singly-linked chain of elements, with pointers
  to both ends and a stored element count (queue_t and list_ele_t of queue.c).

  The C functions take a `queue_t *` that may be NULL; here they are methods
  that take a `Queue?`. Allocation failure is a boolean the caller passes in,
  and freeing an object drops it from the queue's ghost footprint `Repr`.
 */
module StringQueue {
  import opened CString

  /** One element of the chain (list_ele_t): its own copy of a string and the link to the next element. */
  class Element {
    var value: string
    var next: Element?
  }

  /** The queue header (queue_t). */
  class Queue {
    var head: Element?
    var tail: Element?
    var size: int

    /** The strings in the queue, head first. */
    ghost var Contents: seq<string>
    /** The elements of the chain, head first. */
    ghost var Nodes: seq<Element>
    /** The objects the queue owns: at least the header and every element. */
    ghost var Repr: set<object>

    /**
      The representation invariant: `size` counts the elements, `head` and
      `tail` are NULL together exactly when the queue is empty, each element
      links to the next one, the tail's link is NULL, no element occurs twice,
      and element i holds the i-th string.
     */
    ghost predicate Valid()
      reads this, Repr
      ensures Valid() ==> this in Repr
    {
      this in Repr &&
      (forall i :: 0 <= i < |Nodes| ==> Nodes[i] in Repr) &&
      |Contents| == |Nodes| == size &&
      (size == 0 <==> head == null) &&
      (size == 0 <==> tail == null) &&
      (size > 0 ==> head == Nodes[0] && tail == Nodes[size - 1] && tail.next == null) &&
      (forall i :: 0 <= i < |Nodes| - 1 ==> Nodes[i].next == Nodes[i + 1]) &&
      (forall i, j :: 0 <= i < j < |Nodes| ==> Nodes[i] != Nodes[j]) &&
      (forall i :: 0 <= i < |Nodes| ==> Nodes[i].value == Contents[i]) &&
      (forall i :: 0 <= i < |Contents| ==> NoNul(Contents[i]))
    }

    /** The element at position i of the chain, or NULL just past its end. */
    ghost function At(i: nat): (n: Element?)
      reads this
      requires i <= |Nodes|
    {
      if i < |Nodes| then Nodes[i] else null
    }

    /** Following k links from element i reaches element i + k. */
    lemma {:induction false} FollowAt(i: nat, k: nat)
      requires Valid()
      requires i + k <= |Nodes|
      ensures Follow(At(i), k) == At(i + k)
      decreases k
    {
      if k > 0 {
        assert At(i).next == At(i + 1);
        FollowAt(i + 1, k - 1);
      }
    }

    /**
      The stored count is the length of the chain: following links from
      `head` meets `size` distinct elements, the last of them `tail`, and
      then NULL.
     */
    lemma ReachableFromHead()
      requires Valid()
      ensures forall k :: 0 <= k < size ==> Follow(head, k) == Nodes[k]
      ensures forall j, k :: 0 <= j < k <= size ==> Follow(head, j) != Follow(head, k)
      ensures size > 0 ==> Follow(head, size - 1) == tail
      ensures Follow(head, size) == null
    {
      forall k | 0 <= k <= size
        ensures Follow(head, k) == At(k)
      {
        FollowAt(0, k);
      }
    }
  }

  /** The element reached from n by following k links, or NULL if the chain ends first. */
  ghost function Follow(n: Element?, k: nat): (m: Element?)
    reads *
    decreases k
  {
    if k == 0 || n == null then n else Follow(n.next, k - 1)
  }

  /** q_new: a fresh empty queue, or NULL when the header cannot be allocated. */
  method QNew(allocOk: bool) returns (q: Queue?)
    ensures allocOk <==> q != null
    ensures q != null ==> fresh(q) && fresh(q.Repr) && q.Valid()
    ensures q != null ==> q.head == null && q.tail == null && q.size == 0 && q.Contents == []
  {
    if !allocOk {
      return null;
    }
    q := new Queue;
    q.head, q.tail := null, null;
    q.size := 0;
    q.Contents, q.Nodes, q.Repr := [], [], {q};
  }

  /**
    q_free: walks the chain once from `head` with a cursor and releases every
    element, then the header. `freed` lists the released elements in the
    order they were visited.
   */
  method QFree(q: Queue?) returns (ghost freed: seq<Element>)
    requires q != null ==> q.Valid()
    modifies q
    ensures q == null ==> freed == []
    ensures q != null ==> freed == old(q.Nodes) && |freed| == old(q.size)
    ensures q != null ==> q !in q.Repr && forall n :: n in freed ==> n !in q.Repr
  {
    if q == null {
      return [];
    }
    ghost var ns := q.Nodes;
    ghost var i := 0;
    freed := [];
    var cur := q.head;
    while cur != null
      invariant q.Nodes == ns && q.size == |ns|
      invariant 0 <= i <= |ns|
      invariant cur == (if i < |ns| then ns[i] else null)
      invariant freed == ns[..i]
      invariant q in q.Repr && q.Repr <= old(q.Repr)
      invariant forall j :: i <= j < |ns| ==> ns[j] in q.Repr
      invariant forall j :: 0 <= j < i ==> ns[j] !in q.Repr
      decreases |ns| - i
    {
      var tmp := cur;
      cur := cur.next;
      assert tmp in q.Repr;  // not released before
      q.Repr := q.Repr - {tmp};
      freed := freed + [tmp];
      i := i + 1;
    }
    q.Repr := q.Repr - {q};
  }

  /**
    q_insert_head: links a new element holding a copy of `s` in front of the
    chain. Fails, changing nothing, when `q` is NULL or either allocation
    (element, string) fails.
   */
  method QInsertHead(q: Queue?, s: string, allocNode: bool, allocValue: bool) returns (ok: bool)
    requires q != null ==> q.Valid()
    requires NoNul(s)
    modifies q
    ensures ok <==> q != null && allocNode && allocValue
    ensures q != null ==> q.Valid() && fresh(q.Repr - old(q.Repr))
    ensures q != null && ok ==>
      q.Contents == [s] + old(q.Contents) && q.size == old(q.size) + 1 &&
      fresh(q.head) && q.head.value == s && q.head.next == old(q.head) &&
      q.tail == (if old(q.size) == 0 then q.head else old(q.tail))
    ensures q != null && ok ==> q.Nodes == [q.head] + old(q.Nodes)
    ensures q != null && !ok ==>
      q.Contents == old(q.Contents) && q.Repr == old(q.Repr) &&
      q.head == old(q.head) && q.tail == old(q.tail) && q.size == old(q.size)
  {
    if q == null {
      return false;
    }
    if !allocNode {
      return false;
    }
    var newh := new Element;
    if !allocValue {
      return false;
    }
    newh.value := s;
    LinkHead(q, newh);
    ok := true;
  }

  /**
    The linking step of q_insert_head: `e` becomes the head, in front of the
    old head, and also the tail when the queue was empty.
   */
  method LinkHead(q: Queue, e: Element)
    requires q.Valid() && e !in q.Repr && NoNul(e.value)
    modifies q, e
    ensures q.Valid() && q.Repr == old(q.Repr) + {e}
    ensures q.Contents == [e.value] + old(q.Contents) && q.size == old(q.size) + 1
    ensures q.Nodes == [e] + old(q.Nodes)
    ensures q.head == e && e.next == old(q.head) && e.value == old(e.value)
    ensures q.tail == (if old(q.size) == 0 then e else old(q.tail))
  {
    if q.size == 0 {
      q.tail := e;
    }
    e.next := q.head;
    q.head := e;
    q.size := q.size + 1;
    q.Contents, q.Nodes, q.Repr := [e.value] + q.Contents, [e] + q.Nodes, q.Repr + {e};
    assert forall i :: 1 <= i < |q.Nodes| ==> q.Nodes[i] == old(q.Nodes)[i - 1];
  }

  /**
    q_insert_tail: links a new element holding a copy of `s` after the tail,
    or as the only element of an empty queue. Fails, changing nothing, when
    `q` is NULL or either allocation fails.
   */
  method QInsertTail(q: Queue?, s: string, allocNode: bool, allocValue: bool) returns (ok: bool)
    requires q != null ==> q.Valid()
    requires NoNul(s)
    modifies if q == null then {} else q.Repr
    ensures ok <==> q != null && allocNode && allocValue
    ensures q != null ==> q.Valid() && fresh(q.Repr - old(q.Repr))
    ensures q != null && ok ==>
      q.Contents == old(q.Contents) + [s] && q.size == old(q.size) + 1 &&
      fresh(q.tail) && q.tail.value == s && q.tail.next == null &&
      q.head == (if old(q.size) == 0 then q.tail else old(q.head))
    ensures q != null && ok ==> q.Nodes == old(q.Nodes) + [q.tail]
    ensures q != null && !ok ==>
      q.Contents == old(q.Contents) && q.Repr == old(q.Repr) &&
      q.head == old(q.head) && q.tail == old(q.tail) && q.size == old(q.size)
    ensures q != null && !ok ==> unchanged(q.Repr)
  {
    if q == null {
      return false;
    }
    if !allocNode {
      return false;
    }
    var newt := new Element;
    if !allocValue {
      return false;
    }
    newt.value := s;
    LinkTail(q, newt);
    ok := true;
  }

  /**
    The linking step of q_insert_tail: `e` gets a NULL link and becomes the
    tail, after the old tail, and also the head when the queue was empty.
   */
  method LinkTail(q: Queue, e: Element)
    requires q.Valid() && e !in q.Repr && NoNul(e.value)
    modifies q.Repr, e
    ensures q.Valid() && q.Repr == old(q.Repr) + {e}
    ensures q.Contents == old(q.Contents) + [e.value] && q.size == old(q.size) + 1
    ensures q.Nodes == old(q.Nodes) + [e]
    ensures q.tail == e && e.next == null && e.value == old(e.value)
    ensures q.head == (if old(q.size) == 0 then e else old(q.head))
  {
    e.next := null;
    ghost var ns := q.Nodes;
    if q.size == 0 {
      q.head := e;
    } else {
      q.tail.next := e;
    }
    q.tail := e;
    q.size := q.size + 1;
    q.Contents, q.Nodes, q.Repr := q.Contents + [e.value], q.Nodes + [e], q.Repr + {e};
    assert forall i :: 0 <= i < |ns| ==> q.Nodes[i] == ns[i];
  }

  /**
    The number of characters q_remove_head copies out of a string of length
    `len` into a buffer of `bufsize` bytes: the whole string when it fits
    with its terminator, otherwise as many as leave room for the terminator.
   */
  function CopyLength(bufsize: nat, len: nat): (n: nat)
    requires bufsize >= 1
    ensures n <= len && n < bufsize
    ensures n == len || n == bufsize - 1
  {
    if bufsize > len then len else bufsize - 1
  }

  /**
    The copy-out step of q_remove_head: the first CopyLength(bufsize, |v|)
    characters of `v` followed by a terminator; the rest of `sp` is untouched.
   */
  method CopyOut(sp: array<char>, bufsize: nat, v: string)
    requires 1 <= bufsize <= sp.Length
    requires NoNul(v)
    modifies sp
    ensures var n := CopyLength(bufsize, |v|);
      sp[..] == v[..n] + ['\0'] + old(sp[n + 1..]) &&
      Str(sp[..]) == v[..n]
  {
    var n := CopyLength(bufsize, |v|);
    forall i | 0 <= i < n {
      sp[i] := v[i];
    }
    sp[n] := '\0';
    assert sp[..] == v[..n] + ['\0'] + old(sp[n + 1..]);
    StrOfTerminated(v[..n], old(sp[n + 1..]));
  }

  /**
    The unlinking step of q_remove_head: `head` moves to the second element,
    `tail` is cleared when no element is left, and the old head is released.
   */
  method UnlinkHead(q: Queue)
    requires q.Valid() && q.size > 0
    modifies q
    ensures q.Valid()
    ensures q.Contents == old(q.Contents[1..]) && q.size == old(q.size) - 1
    ensures q.head == old(q.head.next) && q.Repr == old(q.Repr) - {old(q.head)}
    ensures q.tail == (if q.size == 0 then null else old(q.tail))
  {
    assert q.size > 1 ==> q.head.next == q.Nodes[1];
    var tmp := q.head;
    q.head := q.head.next;
    if q.head == null {
      q.tail := null;
    }
    q.size := q.size - 1;
    q.Contents, q.Nodes, q.Repr := q.Contents[1..], q.Nodes[1..], q.Repr - {tmp};
    assert old(q.Nodes) == [tmp] + q.Nodes;
  }

  /**
    q_remove_head: unlinks and releases the head element. When `sp` is not
    NULL, first copies the removed string into it, silently truncated to
    `bufsize - 1` characters, followed by a terminator. Fails, changing
    nothing, when `q` is NULL or empty.
   */
  method QRemoveHead(q: Queue?, sp: array?<char>, bufsize: nat) returns (ok: bool)
    requires q != null ==> q.Valid()
    requires sp != null ==> 1 <= bufsize <= sp.Length
    modifies q, sp
    ensures ok <==> q != null && old(q.size) != 0
    ensures q != null ==> q.Valid()
    ensures !ok ==> (q != null ==> unchanged(q)) && (sp != null ==> unchanged(sp))
    ensures ok ==>
      q.Contents == old(q.Contents[1..]) && q.size == old(q.size) - 1 &&
      q.head == old(q.head.next) && q.Repr == old(q.Repr) - {old(q.head)} &&
      (q.tail == null <==> q.Contents == []) &&
      (q.tail != null ==> q.tail == old(q.tail))
    ensures ok && sp != null ==>
      var v := old(q.Contents[0]);
      var n := CopyLength(bufsize, |v|);
      sp[..] == v[..n] + ['\0'] + old(sp[n + 1..]) &&
      Str(sp[..]) == v[..n]
  {
    if q == null || q.size == 0 {
      return false;
    }
    if sp != null {
      CopyOut(sp, bufsize, q.head.value);
    }
    UnlinkHead(q);
    ok := true;
  }

  /** q_size: the stored count, read without walking the chain; 0 for a NULL queue. */
  function QSize(q: Queue?): (n: int)
    reads q, if q == null then {} else q.Repr
    requires q != null ==> q.Valid()
    ensures q == null ==> n == 0
    ensures q != null ==> n == |q.Contents| == |q.Nodes|
  {
    if q == null then 0 else q.size
  }

  /** q_reverse: an empty stub in this revision, so it leaves every queue as it is. */
  method QReverse(q: Queue?)
    requires q != null ==> q.Valid()
    ensures q != null ==> q.Valid() && unchanged(q.Repr)
  {
  }

  /** q_sort: an empty stub in this revision, so it leaves every queue as it is. */
  method QSort(q: Queue?)
    requires q != null ==> q.Valid()
    ensures q != null ==> q.Valid() && unchanged(q.Repr)
  {
  }
}
