/** The rolling frame-rate buffer of camera.py (lines 43-45 and 107-114): a
    list of at most `fps_avg_len` samples; once full, the oldest sample is
    popped from the front before the new one is appended, and the reported
    rate is the mean of what the list holds. Samples are exact reals. */
module RateWindow {

  /** `fps_avg_len` at line 45. */
  const FPS_AVG_LEN: nat := 200

  function Sum(s: seq<real>): real
  {
    if s == [] then 0.0 else Sum(s[..|s| - 1]) + s[|s| - 1]
  }

  /** `np.mean`; the empty buffer stands for `avg_frame_rate = 0` (line 43),
      the value reported before any sample was recorded. */
  function Mean(s: seq<real>): real
  {
    if s == [] then 0.0 else Sum(s) / |s| as real
  }

  /** The reference definition of the window: the last `capacity` samples of
      everything recorded, in the order recorded. */
  function Window(history: seq<real>, capacity: nat): (w: seq<real>)
    ensures |w| == if |history| <= capacity then |history| else capacity
    ensures w == history[|history| - |w|..]
  {
    if |history| <= capacity then history else history[|history| - capacity..]
  }

  /** Recording one more sample moves the window as lines 108-112 do. */
  lemma WindowStep(history: seq<real>, capacity: nat, x: real)
    requires capacity >= 1
    ensures var w := Window(history, capacity);
            Window(history + [x], capacity) == if |w| >= capacity then w[1..] + [x] else w + [x]
  {
    var h := history + [x];
    if |history| < capacity {
      assert Window(history, capacity) == history;
      assert Window(h, capacity) == h;
    } else {
      var w := history[|history| - capacity..];
      assert Window(history, capacity) == w;
      assert Window(h, capacity) == h[|h| - capacity..];
      assert h[|h| - capacity..] == w[1..] + [x];
    }
  }

  /** Once more than `capacity` samples have been recorded, exactly the
      earliest ones have dropped out. */
  lemma WindowDropsOldest(history: seq<real>, capacity: nat)
    requires |history| == capacity + 1
    ensures Window(history, capacity) == history[1..]
  {
  }

  lemma {:induction false} SumAppend(s: seq<real>, x: real)
    ensures Sum(s + [x]) == Sum(s) + x
  {
    assert (s + [x])[..|s + [x]| - 1] == s;
  }

  lemma {:induction false} SumBounds(s: seq<real>, lo: real, hi: real)
    requires forall i :: 0 <= i < |s| ==> lo <= s[i] <= hi
    ensures lo * |s| as real <= Sum(s) <= hi * |s| as real
  {
    if s != [] {
      SumBounds(s[..|s| - 1], lo, hi);
    }
  }

  /** The average lies between the smallest and the largest sample held. */
  lemma MeanBounds(s: seq<real>, lo: real, hi: real)
    requires s != []
    requires forall i :: 0 <= i < |s| ==> lo <= s[i] <= hi
    ensures lo <= Mean(s) <= hi
  {
    SumBounds(s, lo, hi);
    QuotientBounds(Sum(s), |s| as real, lo, hi);
  }

  lemma QuotientBounds(total: real, n: real, lo: real, hi: real)
    requires n > 0.0 && lo * n <= total <= hi * n
    ensures lo <= total / n <= hi
  {
    assert total / n - lo == (total - lo * n) / n;
    assert hi - total / n == (hi * n - total) / n;
  }

  /** The buffer of lines 44-45 and 108-112. `history` is every sample ever
      recorded, kept for the specification only. */
  class RateBuffer {
    var samples: seq<real>
    const capacity: nat
    ghost var history: seq<real>

    ghost predicate Valid()
      reads this
    {
      capacity >= 1 && samples == Window(history, capacity)
    }

    /** `frame_rate_buffer = []`; a capacity of 0 would make the first
        `pop(0)` fail on an empty list, so the buffer has room for one sample. */
    constructor (capacity: nat)
      requires capacity >= 1
      ensures Valid()
      ensures this.capacity == capacity && samples == [] && history == []
    {
      this.capacity := capacity;
      samples := [];
      history := [];
    }

    /** Lines 108-112: when the buffer holds `capacity` samples or more, drop
        the one at index 0, then append. */
    method Record(x: real)
      requires Valid()
      modifies this
      ensures Valid()
      ensures history == old(history) + [x]
      ensures samples == if |old(samples)| >= capacity then old(samples)[1..] + [x] else old(samples) + [x]
      ensures |samples| == if |history| <= capacity then |history| else capacity
    {
      WindowStep(history, capacity, x);
      if |samples| >= capacity {
        samples := samples[1..];
        samples := samples + [x];
      } else {
        samples := samples + [x];
      }
      history := history + [x];
    }

    /** Line 114: the mean of the samples currently held. */
    function Average(): (avg: real)
      reads this
      requires Valid()
      ensures avg == Mean(Window(history, capacity))
    {
      Mean(samples)
    }
  }

  lemma MeanExample()
    ensures Mean([20.0, 30.0, 40.0]) == 30.0
  {
    SumAppend([], 20.0);
    SumAppend([20.0], 30.0);
    SumAppend([20.0, 30.0], 40.0);
    assert [20.0] + [30.0] == [20.0, 30.0];
    assert [20.0, 30.0] + [40.0] == [20.0, 30.0, 40.0];
  }

  lemma WindowOfExample()
    ensures Window([10.0, 20.0, 30.0, 40.0], 3) == [20.0, 30.0, 40.0]
  {
    assert [10.0, 20.0, 30.0, 40.0][1..] == [20.0, 30.0, 40.0];
  }

  /** Capacity 3 fed 10, 20, 30, 40 holds 20, 30, 40, whose mean is 30. */
  method WindowExample() returns (contents: seq<real>, avg: real)
    ensures contents == [20.0, 30.0, 40.0]
    ensures avg == 30.0
  {
    var buffer := new RateBuffer(3);
    buffer.Record(10.0);
    assert buffer.history == [10.0];
    buffer.Record(20.0);
    assert buffer.history == [10.0, 20.0];
    buffer.Record(30.0);
    assert buffer.history == [10.0, 20.0, 30.0];
    buffer.Record(40.0);
    assert buffer.history == [10.0, 20.0, 30.0, 40.0];
    WindowOfExample();
    contents := buffer.samples;
    avg := buffer.Average();
    MeanExample();
  }
}
