/**
 * A buffered Go channel of page numbers, `make(chan int, capacity)`: a ring
 * buffer of fixed capacity that a producer fills with sends and then closes,
 * and that receivers drain. Sending blocks on a full channel and panics on a
 * closed one; receiving blocks on an empty open channel and yields the zero
 * value with `ok == false` once the channel is closed and empty.
 */
module Channels {

  class PageChannel {
    /** The values sent and not yet received, oldest first. */
    ghost var Contents: seq<int>

    const capacity: nat
    const buf: array<int>
    var start: nat
    var len: nat
    var closed: bool

    /** The queue is the `len` slots of the ring that start at `start`. */
    ghost predicate Valid()
      reads this, buf
    {
      && buf.Length == capacity
      && len <= capacity
      && (capacity == 0 ==> start == 0)
      && (capacity > 0 ==> start < capacity)
      && Contents == Ring(buf[..], start, len)
    }

    /** make(chan int, n): an open, empty channel with room for n values. */
    constructor (n: nat)
      ensures Valid() && fresh(buf)
      ensures capacity == n && Contents == [] && !closed
    {
      capacity := n;
      buf := new int[n];
      start, len := 0, 0;
      closed := false;
      Contents := [];
    }

    /** `ch <- x` on an open channel with room left: x joins the back of the buffer. */
    method Send(x: int)
      requires Valid() && !closed && |Contents| < capacity
      modifies this, buf
      ensures Valid() && closed == old(closed)
      ensures Contents == old(Contents) + [x]
    {
      ghost var before := buf[..];
      buf[Wrap(start + len, capacity)] := x;
      RingUnchanged(before, buf[..], start, len, len);
      len := len + 1;
      Contents := Contents + [x];
    }

    /** close(ch): no more sends; the buffered values stay to be received. */
    method Close()
      requires Valid() && !closed
      modifies this
      ensures Valid() && closed
      ensures Contents == old(Contents)
    {
      closed := true;
    }

    /**
     * `x, ok := <-ch` when it does not block: the oldest buffered value, or the
     * zero value and ok == false when the channel is closed and drained.
     */
    method Receive() returns (x: int, ok: bool)
      requires Valid() && (closed || Contents != [])
      modifies this
      ensures Valid() && closed == old(closed)
      ensures ok == (old(Contents) != [])
      ensures ok ==> x == old(Contents)[0] && Contents == old(Contents)[1..]
      ensures !ok ==> x == 0 && Contents == old(Contents)
    {
      if len == 0 {
        x, ok := 0, false;
      } else {
        x := buf[start];
        ok := true;
        RingAdvance(buf[..], start, len);
        start := Wrap(start + 1, capacity);
        len := len - 1;
        Contents := Contents[1..];
      }
    }
  }

  /** The n values of ring `b` from slot `start` on, wrapping past the end. */
  ghost function Ring(b: seq<int>, start: nat, n: nat): (r: seq<int>)
    requires n <= |b| && (b == [] ==> start == 0) && (b != [] ==> start < |b|)
    ensures |r| == n
  {
    if n == 0 then [] else Ring(b, start, n - 1) + [b[Wrap(start + n - 1, |b|)]]
  }

  /** Writing a slot outside the window leaves the window as it was. */
  lemma {:induction false} RingUnchanged(b: seq<int>, c: seq<int>, start: nat, n: nat, m: nat)
    requires n <= m < |b| == |c| && start < |b|
    requires forall i :: 0 <= i < |b| && i != Wrap(start + m, |b|) ==> b[i] == c[i]
    ensures Ring(b, start, n) == Ring(c, start, n)
  {
    if n > 0 {
      RingUnchanged(b, c, start, n - 1, m);
      assert Wrap(start + n - 1, |b|) != Wrap(start + m, |b|);
    }
  }

  /** Taking the front value moves the window one slot on. */
  lemma {:induction false} RingAdvance(b: seq<int>, start: nat, n: nat)
    requires 0 < n <= |b| && start < |b|
    ensures Ring(b, Wrap(start + 1, |b|), n - 1) == Ring(b, start, n)[1..]
    ensures Ring(b, start, n)[0] == b[start]
  {
    if n > 1 {
      RingAdvance(b, start, n - 1);
      var s := Wrap(start + 1, |b|);
      assert Wrap(s + n - 2, |b|) == Wrap(start + n - 1, |b|);
    }
  }

  /** A ring index reduced once: positions capacity..2*capacity-1 wrap around to the front. */
  function Wrap(i: nat, capacity: nat): (j: nat)
    ensures i < 2 * capacity ==> j < capacity
    ensures i < capacity ==> j == i
  {
    if i < capacity then i else i - capacity
  }
}
