/**
  Callers of the queue: each method builds its own queue through the public
  operations and returns what it observes, so that its postcondition states
  the observable behaviour (FIFO at the tail, LIFO at the head, bounded copy,
  failure atomicity) from the operations' contracts alone.
 */
module QueueScenarios {
  import opened CString
  import opened StringQueue

  /** Removes the head of `q` into a new buffer of `cap` bytes and returns the string the buffer then holds. */
  method RemoveInto(q: Queue, cap: nat) returns (ok: bool, got: string)
    requires q.Valid() && cap >= 1
    modifies q
    ensures q.Valid()
    ensures ok <==> old(q.Contents) != []
    ensures ok ==> q.Contents == old(q.Contents[1..])
    ensures ok ==> got == old(q.Contents[0])[..CopyLength(cap, |old(q.Contents[0])|)]
  {
    var sp := new char[cap];
    ok := QRemoveHead(q, sp, cap);
    got := Str(sp[..]);
  }

  /** Two strings inserted at the tail come out of the head in the order they went in. */
  method FifoOrder(x: string, y: string) returns (first: string, second: string)
    requires NoNul(x) && NoNul(y)
    ensures first == x && second == y
  {
    var q := QNew(true);
    var ok := QInsertTail(q, x, true, true);
    ok := QInsertTail(q, y, true, true);
    ok, first := RemoveInto(q, |x| + 1);
    ok, second := RemoveInto(q, |y| + 1);
  }

  /** Two strings inserted at the head come out of the head in the reverse order. */
  method LifoOrder(x: string, y: string) returns (first: string, second: string)
    requires NoNul(x) && NoNul(y)
    ensures first == y && second == x
  {
    var q := QNew(true);
    var ok := QInsertHead(q, x, true, true);
    ok := QInsertHead(q, y, true, true);
    ok, first := RemoveInto(q, |y| + 1);
    ok, second := RemoveInto(q, |x| + 1);
  }

  /**
    Inserting `t` into an empty queue and removing it again into a buffer of
    `cap` bytes gives back `t`, cut to `cap - 1` characters when it does not
    fit, and leaves the queue empty.
   */
  method RoundTrip(t: string, cap: nat) returns (got: string, sizeAfter: int)
    requires NoNul(t) && cap >= 1
    ensures got == (if |t| < cap then t else t[..cap - 1])
    ensures sizeAfter == 0
  {
    var q := QNew(true);
    var ok := QInsertHead(q, t, true, true);
    ok, got := RemoveInto(q, cap);
    sizeAfter := QSize(q);
  }

  /** An insertion whose string copy cannot be allocated leaves the queue as it was. */
  method FailedInsertKeepsQueue(x: string, y: string) returns (ok: bool, sizeAfter: int, got: string)
    requires NoNul(x) && NoNul(y)
    ensures !ok && sizeAfter == 1 && got == x
  {
    var q := QNew(true);
    var first := QInsertTail(q, x, true, true);
    ok := QInsertTail(q, y, true, false);
    sizeAfter := QSize(q);
    var removed;
    removed, got := RemoveInto(q, |x| + 1);
  }

  /** Every operation on a NULL queue fails or reports zero. */
  method NullQueue(s: string) returns (head: bool, tail: bool, removed: bool, size: int)
    requires NoNul(s)
    ensures !head && !tail && !removed && size == 0
  {
    var q := QNew(false);
    head := QInsertHead(q, s, true, true);
    tail := QInsertTail(q, s, true, true);
    removed := QRemoveHead(q, null, 0);
    size := QSize(q);
    QReverse(q);
    QSort(q);
    ghost var freed := QFree(q);
  }

  /** tail "banana", tail "apple", head "cherry" on a new queue gives [cherry, banana, apple]. */
  method BuildCherryBananaApple() returns (q: Queue)
    ensures fresh(q.Repr) && q.Valid()
    ensures q.Contents == ["cherry", "banana", "apple"]
  {
    var r := QNew(true);
    q := r;
    var ok := QInsertTail(q, "banana", true, true);
    ok := QInsertTail(q, "apple", true, true);
    ok := QInsertHead(q, "cherry", true, true);
  }

  /**
    q_sort and q_reverse are stubs, so [cherry, banana, apple] is still
    removed in that order after both.
   */
  method OrderAfterStubs() returns (a: string, b: string, c: string, sizeAfter: int)
    ensures a == "cherry" && b == "banana" && c == "apple" && sizeAfter == 0
  {
    var q := BuildCherryBananaApple();
    QSort(q);
    QReverse(q);
    var ok;
    ok, a := RemoveInto(q, 16);
    ok, b := RemoveInto(q, 16);
    ok, c := RemoveInto(q, 16);
    sizeAfter := QSize(q);
  }

  /** Removing from an empty queue fails and leaves the caller's buffer untouched. */
  method RemoveFromEmpty() returns (ok: bool, buf: seq<char>)
    ensures !ok && buf == "xxxxxxxx"
  {
    var q := QNew(true);
    var sp := new char[8](_ => 'x');
    ok := QRemoveHead(q, sp, 8);
    buf := sp[..];
  }

  /** "hello world" removed into a 6-byte buffer reads back as "hello", and the queue is then empty. */
  method TruncatedRemove() returns (got: string, sizeAfter: int)
    ensures got == "hello" && sizeAfter == 0
  {
    var q := QNew(true);
    var ok := QInsertTail(q, "hello world", true, true);
    ok, got := RemoveInto(q, 6);
    sizeAfter := QSize(q);
  }
}
