# String queue on a singly-linked list (lab0-c `queue.c`)

This project models the string queue of lab0-c's `queue.c` and proves properties of it. A queue header (`queue_t`) holds `head`, `tail` and a stored `size`. Its elements (`list_ele_t`) each own a copy of one string and a `next` link. The model covers creation, the free-all walk, insertion at both ends, bounded-copy removal from the head, the O(1) size query, and the two operations that are still empty stubs in this revision (`q_reverse`, `q_sort`).

Files:

- `cstring.dfy` (module `CString`): strings without an embedded `'\0'`, and `Str`, which reads a terminated buffer back the way `strlen` and `strncpy` see it.
- `queue.dfy` (module `StringQueue`):
  - class `Element` stands for `list_ele_t`; class `Queue` stands for `queue_t`.
  - `Queue` has ghost fields `Contents` (the strings, head first), `Nodes` (the elements, head first) and `Repr` (the objects it owns: at least the header and every element).
  - `Valid()` is the representation invariant. `size == |Nodes|`. `size == 0` iff `head == null` iff `tail == null`. Each element links to the next. The tail's link is NULL. No element occurs twice. Element i holds `Contents[i]`. No stored string has a `'\0'`.
  - Each C function that takes a `queue_t *` takes a `Queue?` here, so its NULL-queue path is modelled too. `q_new` becomes the method `QNew`, which takes the allocation outcome, and `q_size` becomes the function `QSize`.
- `scenarios.dfy` (module `QueueScenarios`): callers that build queues through the operations. Their postconditions state observable behaviour: FIFO at the tail, LIFO at the head, the bounded-copy round trip, failure atomicity, the NULL queue, and the stubs leaving order alone.

Environment inputs become parameters:

- Whether `malloc` succeeds is a boolean argument: `allocOk` for `QNew`, and `allocNode` and `allocValue` for the two inserts, in the order the source allocates.
- `free` is modelled by dropping the object from the ghost footprint `Repr`.
- The caller's output buffer `sp` is an `array?<char>` of at least `bufsize` characters.

Where the source's comments and its code differ, the model follows the code:

- The comment above `q_reverse` (queue.c:140-145) promises the elements in reverse order, and the comment above `q_sort` (queue.c:153-157) promises them in ascending order. Both bodies are empty. So `QReverse` and `QSort` change nothing.
- For the same reason, `OrderAfterStubs` proves that tail "banana", tail "apple", head "cherry", then sort and reverse, still reads [cherry, banana, apple]. It does not read [apple, banana, cherry].

## Model

| member | source | states |
|---|---|---|
| `CString.Str` | queue.c:114-120 | What a terminated buffer reads back as: the characters before the first `'\0'`. The result is a prefix of the buffer with no `'\0'` in it. It is followed by a `'\0'` unless it is the whole buffer. |
| `CString.StrOfTerminated` | queue.c:118-119 | A buffer that holds a NUL-free string, then a terminator, then leftover bytes, reads back as exactly that string. |
| `StringQueue.Queue.Valid` | queue.c:17-18 | The representation invariant that `q_new` sets up here and every operation keeps (the relinking at queue.c:60-65, queue.c:91-98 and queue.c:121-127): `size` is the number of elements. `head` and `tail` are NULL exactly when the queue is empty. Otherwise `head` is the first element, `tail` the last, and the tail's link is NULL. Each element links to the next, no element occurs twice, element i holds the i-th string, and no stored string has a `'\0'`. The header and every element are owned. |
| `StringQueue.Queue.FollowAt` | queue.c:28-30 | Under the invariant, following `k` `next` links from element `i` reaches element `i + k`, or NULL just past the tail. |
| `StringQueue.Queue.ReachableFromHead` | queue.c:135-138 | The stored `size` is the length of the chain. Walking from `head` meets `size` distinct non-NULL elements, the last of them `tail`, then NULL. This is why `q_size` can return the counter without walking the chain. |
| `StringQueue.QNew` | queue.c:12-20 | Returns NULL exactly when allocation fails. Otherwise returns a fresh valid queue with `head == tail == NULL`, `size == 0` and no contents. |
| `StringQueue.QFree` | queue.c:23-35 | A NULL queue is a no-op. Otherwise the cursor loop visits the chain's elements in order, each exactly once (each is still owned when it is released). It ends at NULL, with the count of remaining elements as the measure. Afterwards neither the header nor any visited element is still in the footprint `Repr`. |
| `StringQueue.QInsertHead` | queue.c:44-67 | Returns true iff the queue is non-NULL and both allocations succeed. On success: contents `[s] + old`, `size + 1`, a fresh head holding `s` and linking to the old head, in front of the old elements, and `tail` set to the new element iff the queue was empty. On failure nothing changes: the frame is the header alone, and its fields keep their values. The invariant is preserved. |
| `StringQueue.LinkHead` | queue.c:60-65 | An unowned element `e` becomes the head. Its link is the old head. It also becomes the tail iff the queue was empty. The chain becomes `e` followed by the old elements. Contents become `[e.value] + old` and `size` grows by one. The footprint gains exactly `e`. The invariant is preserved. |
| `StringQueue.QInsertTail` | queue.c:76-100 | Returns true iff the queue is non-NULL and both allocations succeed. On success: contents `old + [s]`, `size + 1`, a fresh tail holding `s` with a NULL link, after the old elements, and `head` set to it iff the queue was empty. On failure nothing changes: the header and every element it owns keep their values. The invariant is preserved. |
| `StringQueue.LinkTail` | queue.c:91-98 | An unowned element `e` gets a NULL link and becomes the tail. It is linked after the old tail, or becomes the head too iff the queue was empty. The chain becomes the old elements followed by `e`. Contents become `old + [e.value]` and `size` grows by one. The footprint gains exactly `e`. The invariant is preserved. |
| `StringQueue.CopyLength` | queue.c:115-117 | The number of characters copied out is the minimum of the string length and `bufsize - 1`. It never exceeds either, and it equals one of them. |
| `StringQueue.CopyOut` | queue.c:114-120 | The caller's buffer afterwards holds the first `CopyLength(bufsize, len)` characters of the value, then `'\0'`, then its old bytes. It reads back as that (possibly truncated) prefix. |
| `StringQueue.UnlinkHead` | queue.c:121-127 | Contents become `old[1..]`. `size` drops by one. `head` becomes the old head's successor. `tail` becomes NULL exactly when the queue becomes empty, and is otherwise unchanged. The old head leaves the footprint. The invariant is preserved. |
| `StringQueue.QRemoveHead` | queue.c:110-129 | On a NULL or empty queue: returns false and changes neither the queue nor the buffer. Otherwise: returns true and removes the head as `UnlinkHead` states. When `sp` is non-NULL, it first fills `sp` as `CopyOut` states (silent truncation). |
| `StringQueue.QSize` | queue.c:135-138 | 0 for a NULL queue. Otherwise the number of strings (and of elements) in the queue, read from the stored counter. |
| `StringQueue.QReverse` | queue.c:147-151 | The body is an empty stub: the queue and everything it owns is unchanged, and still valid. |
| `StringQueue.QSort` | queue.c:158-162 | The body is an empty stub: the queue and everything it owns is unchanged, and still valid. |
| `QueueScenarios.FifoOrder` | queue.c:91-98 | Two strings inserted at the tail are removed in insertion order. |
| `QueueScenarios.LifoOrder` | queue.c:60-65 | Two strings inserted at the head are removed in reverse order. |
| `QueueScenarios.RoundTrip` | queue.c:52-59 | A string inserted into an empty queue and removed into a `cap`-byte buffer comes back whole if it fits. Otherwise it comes back cut to `cap - 1` bytes, leaving room for the terminator. The size is then 0. |
| `QueueScenarios.FailedInsertKeepsQueue` | queue.c:84-88 | An insert whose string allocation fails returns false. The queue keeps its size and its one element. |
| `QueueScenarios.NullQueue` | queue.c:46-47 | On a NULL queue both inserts and the removal return false, the size is 0, and reverse, sort and free are no-ops. |
| `QueueScenarios.BuildCherryBananaApple` | queue.c:44-100 | tail "banana", tail "apple", head "cherry" on a new queue gives the contents [cherry, banana, apple]. |
| `QueueScenarios.OrderAfterStubs` | queue.c:147-162 | tail "banana", tail "apple", head "cherry" gives cherry, banana, apple. Sort and reverse keep that order. |
| `QueueScenarios.RemoveFromEmpty` | queue.c:112-113 | Removing from an empty queue returns false and leaves an 8-byte buffer untouched. |
| `QueueScenarios.TruncatedRemove` | queue.c:115-119 | "hello world" removed into a 6-byte buffer reads back as "hello". The queue is then empty. |

## Left out

- Real `malloc`/`free` and the allocation hooks of `harness.h`: allocation success is a parameter, and freeing drops objects from `Repr`.
- The `char` buffers behind stored strings (`strlen(s) + 1` bytes, zeroed by `memset`, filled by `strncpy`, queue.c:52-59). An element's value is a `seq<char>` equal to the inserted string. Because inputs have no `'\0'`, that string is exactly what the buffer would hold.
- The `sizeof(queue_t) == 0` test in `q_new` (queue.c:15): it is a compile-time constant and always false.
- Overflow of the `int size` counter: `size` is an unbounded integer.
- Character encodings: one Dafny `char` stands for one C `char` (one byte). Lengths, `bufsize` and the truncation in `CopyLength` count bytes. Multi-byte encodings are not modelled; in C a truncated copy may cut a multi-byte character in two, and the model makes the same cut.
- `bufsize == 0` with a non-NULL `sp`: the source would compute `bufsize - 1` in `size_t` and write far out of bounds. The model requires `1 <= bufsize <= sp.Length` whenever `sp` is non-NULL, which is the callers' documented obligation.
- Reversing and sorting the chain, as the comments at queue.c:140-145 and queue.c:153-157 promise: the source has no code for them in this revision.
- The test harness, the command-line driver and their I/O: they are not part of this model.
