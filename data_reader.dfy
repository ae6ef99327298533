/**
 * `DataReader`: the calibration-data reader handed to the static quantizer.
 * It walks the calibration loader batch by batch and stops, returning `None`,
 * once `max_samples` samples have been handed out or the loader is exhausted.
 *
 * An image batch is the sequence of its samples along the leading axis, so a
 * batch's `shape[0]` is its length.
 */
module Calibration {
  import opened Wrappers

  /** Total number of samples in a list of batches (the sum of their `shape[0]`). */
  function SampleCount<T>(batches: seq<seq<T>>): nat
  {
    if batches == [] then 0 else |batches[0]| + SampleCount(batches[1..])
  }

  lemma {:induction false} SampleCountAppend<T>(a: seq<seq<T>>, b: seq<seq<T>>)
    ensures SampleCount(a + b) == SampleCount(a) + SampleCount(b)
  {
    if a == [] {
      assert a + b == b;
    } else {
      assert (a + b)[1..] == a[1..] + b;
      SampleCountAppend(a[1..], b);
    }
  }

  /**
   * The batches that successive `get_next` calls return, before the first `None`,
   * from a reader that has counted `seen` samples and whose iterator has `rest` left.
   */
  function Delivered<T>(rest: seq<seq<T>>, maxSamples: int, seen: int): seq<seq<T>>
    decreases |rest|
  {
    if seen >= maxSamples || rest == [] then []
    else [rest[0]] + Delivered(rest[1..], maxSamples, seen + |rest[0]|)
  }

  /**
   * The reader hands out a prefix of the loader; each of those batches was requested
   * while fewer than `maxSamples` samples had been counted; and it stops early only
   * once the cap is reached.
   */
  lemma {:induction false} DeliveredStopsAtCap<T>(rest: seq<seq<T>>, maxSamples: int, seen: int)
    ensures var d := Delivered(rest, maxSamples, seen);
      && |d| <= |rest| && d == rest[..|d|]
      && (forall k :: 0 <= k < |d| ==> seen + SampleCount(d[..k]) < maxSamples)
      && (d == rest || seen + SampleCount(d) >= maxSamples)
    decreases |rest|
  {
    var d := Delivered(rest, maxSamples, seen);
    if seen < maxSamples && rest != [] {
      var seen' := seen + |rest[0]|;
      var d' := Delivered(rest[1..], maxSamples, seen');
      DeliveredStopsAtCap(rest[1..], maxSamples, seen');
      assert d == [rest[0]] + d';
      assert d[1..] == d';
      forall k | 0 <= k < |d|
        ensures seen + SampleCount(d[..k]) < maxSamples
      {
        if k > 0 {
          assert d[..k] == [rest[0]] + d'[..k - 1];
          assert d[..k][1..] == d'[..k - 1];
        }
      }
      assert d[1..] == d';
      if d' == rest[1..] {
        assert rest == [rest[0]] + rest[1..];
      }
    }
  }

  class DataReader<T> {
    /** The calibration loader, as the image batches one pass over it yields, in order. */
    const loader: seq<seq<T>>
    const maxSamples: int
    const inputName: string
    /** How many batches the current iterator `_it` has already yielded. */
    var pos: nat
    /** `_seen`: samples handed out since the last rewind. */
    var seen: int

    ghost predicate Valid()
      reads this
    {
      pos <= |loader| && seen == SampleCount(loader[..pos])
    }

    /** The feeds still to come from `get_next` before it returns `None`. */
    ghost function Pending(): seq<seq<T>>
      reads this
      requires Valid()
    {
      Delivered(loader[pos..], maxSamples, seen)
    }

    constructor (loader: seq<seq<T>>, maxSamples: int, inputName: string)
      ensures Valid()
      ensures this.loader == loader && this.maxSamples == maxSamples && this.inputName == inputName
      ensures pos == 0 && seen == 0
      ensures Pending() == Delivered(loader, maxSamples, 0)
    {
      this.loader := loader;
      this.maxSamples := maxSamples;
      this.inputName := inputName;
      pos := 0;
      seen := 0;
      new;
      Rewind();
    }

    method GetNext() returns (feed: Option<map<string, seq<T>>>)
      requires Valid()
      modifies this
      ensures Valid()
      ensures feed.None? <==> old(Pending()) == []
      ensures feed.Some? ==> feed.value == map[inputName := old(Pending())[0]]
      ensures feed.Some? ==> Pending() == old(Pending())[1..]
      ensures old(seen) >= maxSamples ==> feed.None?
      ensures feed.None? ==> pos == old(pos) && seen == old(seen)
      ensures feed.Some? ==> pos == old(pos) + 1 && seen == old(seen) + |loader[old(pos)]|
    {
      if seen >= maxSamples {
        return None;
      }
      if pos == |loader| {
        // the iterator raises StopIteration: end of stream
        return None;
      }
      var batch := loader[pos];
      assert loader[pos..] == [batch] + loader[pos + 1..];
      assert loader[..pos + 1] == loader[..pos] + [batch];
      SampleCountAppend(loader[..pos], [batch]);
      assert SampleCount([batch]) == |batch| by {
        assert [batch][1..] == [];
      }
      pos := pos + 1;
      seen := seen + |batch|;
      feed := Some(map[inputName := batch]);
    }

    method Rewind()
      modifies this
      ensures Valid()
      ensures pos == 0 && seen == 0
      ensures Pending() == Delivered(loader, maxSamples, 0)
    {
      pos := 0;
      seen := 0;
      assert loader[..0] == [] && loader[0..] == loader;
    }
  }
}
