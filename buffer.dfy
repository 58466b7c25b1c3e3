/** The rolling training buffer (`recent_data`): a bounded FIFO of labelled
    samples. The producer appends every sample it fabricates to the tail and
    drops the single oldest entry once the length exceeds the capacity. */
module Buffer {

  /** Maximum number of samples the buffer keeps. */
  const Capacity: nat := 500

  /** The last `n` elements of `h` (all of `h` when it is shorter), in order. */
  function Newest<T>(h: seq<T>, n: nat): (r: seq<T>)
    ensures |r| == if |h| < n then |h| else n
    ensures r == h[|h| - |r|..]
  {
    if |h| <= n then h else h[|h| - n..]
  }

  /** The eviction step after an append: drop the head once over capacity. */
  function Evict<T>(s: seq<T>): (r: seq<T>)
    ensures |s| <= Capacity ==> r == s
    ensures |s| > Capacity ==> r == s[1..]
  {
    if |s| > Capacity then s[1..] else s
  }

  /** Appending to the newest `Capacity` items of a history and evicting the
      head gives the newest `Capacity` items of the extended history: the
      buffer is a sliding window over everything ever appended. */
  lemma NewestAppend<T>(h: seq<T>, x: T)
    ensures Newest(h + [x], Capacity) == Evict(Newest(h, Capacity) + [x])
  {
  }

  /** The buffer contents after appending `xs`, oldest first, to an empty
      buffer, one append-and-evict step at a time. */
  function AfterAppends<T>(xs: seq<T>): seq<T>
  {
    if xs == [] then [] else Evict(AfterAppends(xs[..|xs| - 1]) + [xs[|xs| - 1]])
  }

  /** After any sequence of appends the buffer holds at most `Capacity`
      samples, and they are the last min(`Capacity`, n) appended, in append
      order. */
  lemma {:induction false} AfterAppendsIsNewest<T>(xs: seq<T>)
    ensures AfterAppends(xs) == Newest(xs, Capacity)
    ensures |AfterAppends(xs)| <= Capacity
  {
    if xs != [] {
      var init := xs[..|xs| - 1];
      AfterAppendsIsNewest(init);
      NewestAppend(init, xs[|xs| - 1]);
      assert init + [xs[|xs| - 1]] == xs;
    }
  }

  /** An append to a full buffer removes exactly the oldest sample and keeps
      every other one in place, shifted by one position. */
  lemma EvictOnlyOldest<T>(buf: seq<T>, x: T)
    requires |buf| == Capacity
    ensures Evict(buf + [x]) == buf[1..] + [x]
    ensures forall i :: 1 <= i < |buf| ==> Evict(buf + [x])[i - 1] == buf[i]
  {
  }

  /** The buffer object. `history` is every sample ever appended, in order. */
  class TrainingBuffer<T> {
    var samples: seq<T>
    ghost var history: seq<T>

    /** The buffer holds the newest `Capacity` samples of its history. */
    ghost predicate Valid()
      reads this
    {
      |samples| <= Capacity && samples == Newest(history, Capacity)
    }

    /** The buffer starts empty. */
    constructor ()
      ensures Valid()
      ensures samples == [] && history == []
    {
      samples := [];
      history := [];
    }

    /** Append a sample to the tail; pop the head if the length exceeds the
        capacity. */
    method Append(x: T)
      requires Valid()
      modifies this
      ensures Valid()
      ensures history == old(history) + [x]
      ensures samples == Evict(old(samples) + [x])
      ensures |samples| == if |history| < Capacity then |history| else Capacity
      ensures samples[|samples| - 1] == x
    {
      NewestAppend(history, x);
      samples := samples + [x];
      if |samples| > Capacity {
        samples := samples[1..];
      }
      history := history + [x];
    }
  }
}
