/** Circular buffers shared by an interrupt routine and main-line code without a lock.
    `first` is the consumer's index and `end` the producer's; equal indices mean empty, so at
    most |buf| - 1 elements are ever held. */
module Ring {
  import Arithmetic

  /** Index arithmetic modulo the buffer length, for an index that went round at most once. */
  function Wrap(len: nat, i: nat): (r: nat)
    requires i < 2 * len
    ensures r < len && r == i % len
  {
    Arithmetic.DivUnique(i, len, if i < len then 0 else 1);
    if i < len then i else i - len
  }

  /** The queued elements, oldest first. */
  function Contents<T>(buf: seq<T>, first: nat, end: nat): seq<T>
    requires first < |buf| && end < |buf|
  {
    if first <= end then buf[first..end] else buf[first..] + buf[..end]
  }

  predicate Full(len: nat, first: nat, end: nat)
    requires first < len && end < len
  {
    Wrap(len, end + 1) == first
  }

  /** How many elements a producer may copy to `end` in one contiguous block. */
  function PutRoom(len: nat, first: nat, end: nat): nat
    requires first < len && end < len
  {
    if end < first then first - 1 - end else if first > 0 then len - end else len - 1 - end
  }

  /** How many elements a consumer may copy from `first` in one contiguous block. */
  function TakeRoom(len: nat, first: nat, end: nat): nat
    requires first < len && end < len
  {
    if end >= first then end - first else len - first
  }

  predicate Occupied(first: nat, end: nat, k: nat) {
    if first <= end then first <= k < end else k >= first || k < end
  }

  lemma ContentsLength<T>(buf: seq<T>, first: nat, end: nat)
    requires first < |buf| && end < |buf|
    ensures |Contents(buf, first, end)| < |buf|
    ensures Contents(buf, first, end) == [] <==> first == end
    ensures |Contents(buf, first, end)| == |buf| - 1 <==> Full(|buf|, first, end)
    ensures PutRoom(|buf|, first, end) == 0 <==> Full(|buf|, first, end)
  {
  }

  /** A store is invisible to the consumer exactly if it misses the occupied slots or changes nothing. */
  lemma StoreOutsideIff<T>(buf: seq<T>, first: nat, end: nat, k: nat, x: T)
    requires first < |buf| && end < |buf| && k < |buf|
    ensures Contents(buf[k := x], first, end) == Contents(buf, first, end) <==> !Occupied(first, end, k) || buf[k] == x
  {
    var a, b := Contents(buf[k := x], first, end), Contents(buf, first, end);
    if Occupied(first, end, k) {
      var i := if k >= first then k - first else |buf| - first + k;
      assert a[i] == x && b[i] == buf[k];
      if buf[k] == x { assert buf[k := x] == buf; }
    }
  }

  /** The block a producer was promised is free, stays free while the consumer advances, and
      publishing it appends exactly its elements; the producer never catches the consumer up. */
  lemma Publish<T>(buf: seq<T>, first: nat, end: nat, n: nat)
    requires first < |buf| && end < |buf| && 0 < n <= PutRoom(|buf|, first, end)
    ensures end + n <= |buf| && Wrap(|buf|, end + n) != first
    ensures forall k :: end <= k < end + n ==> !Occupied(first, end, k)
    ensures Contents(buf, first, Wrap(|buf|, end + n)) == Contents(buf, first, end) + buf[end..end + n]
  {
  }

  /** The block a consumer was promised is a prefix of the queue, and releasing it drops it. */
  lemma Release<T>(buf: seq<T>, first: nat, end: nat, n: nat)
    requires first < |buf| && end < |buf| && 0 < n <= TakeRoom(|buf|, first, end)
    ensures first + n <= |buf|
    ensures forall k :: first <= k < first + n ==> Occupied(first, end, k)
    ensures Contents(buf, first, end) == buf[first..first + n] + Contents(buf, Wrap(|buf|, first + n), end)
  {
  }

  /** One element put at the end of a ring that is not full. */
  lemma Put<T>(buf: seq<T>, first: nat, end: nat, x: T)
    requires first < |buf| && end < |buf| && !Full(|buf|, first, end)
    ensures Contents(buf[end := x], first, Wrap(|buf|, end + 1)) == Contents(buf, first, end) + [x]
  {
  }

  /** One element taken from the front of a ring that is not empty. */
  lemma Take<T>(buf: seq<T>, first: nat, end: nat)
    requires first < |buf| && end < |buf| && first != end
    ensures Contents(buf, first, end) == [buf[first]] + Contents(buf, Wrap(|buf|, first + 1), end)
  {
    Release(buf, first, end, 1);
    assert buf[first..first + 1] == [buf[first]];
  }

  /** Promises survive the other side's progress: what a producer measured from a stale consumer
      index is still free, and what a consumer measured is still queued. */
  lemma RoomGrows(len: nat, first: nat, end: nat)
    requires first < len && end < len
    ensures first != end ==> PutRoom(len, first, end) <= PutRoom(len, Wrap(len, first + 1), end)
    ensures !Full(len, first, end) ==> TakeRoom(len, first, end) <= TakeRoom(len, first, Wrap(len, end + 1))
  {
  }
}
