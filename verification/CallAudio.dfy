/** Resampling and re-cutting call audio (pkg/connector/callaudio.go). Samples are of an arbitrary
    type: `mac(acc, c, x)` stands for one multiply-accumulate in whatever precision the machine has,
    `gain` for the scaling of a stuffed sample and `zero` for silence. */
module CallAudio {
  import opened Prelude

  const RATIO := 3
  const WA_FRAME := 960
  const MX_FRAME := 960
  const TAPS := 31

  /** The arithmetic of a filter and its kernel, fixed for the filter's lifetime. */
  datatype Design<!T> = Design(mac: (T, T, T) -> T, gain: T -> T, zero: T, kernel: seq<T>)

  // ----- The filter -----

  /** The sum over the first `n` taps, in the order the loop adds them. */
  function Dot<T>(d: Design<T>, window: seq<T>, n: nat): T
    requires n <= |d.kernel| && n <= |window|
  {
    if n == 0 then d.zero else d.mac(Dot(d, window, n - 1), d.kernel[n - 1], window[n - 1])
  }

  /** One convolution: sample `i` sees the kernel's length of samples ending at itself. */
  function Filtered<T>(d: Design<T>, history: seq<T>, input: seq<T>): (out: seq<T>)
    requires |history| + 1 == |d.kernel|
    ensures |out| == |input|
  {
    seq(|input|, i requires 0 <= i < |input| => Dot(d, (history + input)[i..i + |d.kernel|], |d.kernel|))
  }

  /** The history after a frame: the last samples seen. */
  function Tail<T>(history: seq<T>, input: seq<T>): (r: seq<T>)
    ensures |r| == |history|
  {
    (history + input)[|input|..]
  }

  class LowPass<T> {
    const d: Design<T>
    const history: array<T>

    ghost predicate Valid()
      reads this
    {
      history.Length + 1 == |d.kernel|
    }

    constructor (design: Design<T>)
      requires |design.kernel| == TAPS
      ensures Valid() && d == design && fresh(history)
      ensures history[..] == seq(TAPS - 1, _ => design.zero)
    {
      d := design;
      history := new T[TAPS - 1](_ => design.zero);
      new;
      assert history[..] == seq(TAPS - 1, _ => design.zero);
    }

    /** Filters one frame; the first samples still see the end of the frame before. */
    method Apply(input: seq<T>) returns (out: seq<T>)
      requires Valid()
      modifies history
      ensures out == Filtered(d, old(history[..]), input)
      ensures history[..] == Tail(old(history[..]), input)
    {
      var padded := history[..] + input;
      out := [];
      for i := 0 to |input|
        invariant out == Filtered(d, history[..], input)[..i]
        invariant history[..] == old(history[..])
      {
        var acc := d.zero;
        for k := 0 to |d.kernel|
          invariant acc == Dot(d, padded[i..i + |d.kernel|], k)
        {
          assert padded[i..i + |d.kernel|][k] == padded[i + k];
          acc := d.mac(acc, d.kernel[k], padded[i + k]);
        }
        out := out + [acc];
      }
      assert Filtered(d, history[..], input)[..|input|] == Filtered(d, history[..], input);
      ghost var tail := Tail(history[..], input);
      var base := |padded| - history.Length;
      for j := 0 to history.Length
        invariant forall k :: 0 <= k < j ==> history[k] == padded[base + k]
      {
        history[j] := padded[base + j];
      }
      assert history[..] == tail;
    }
  }

  // ----- What the filter computes -----

  /** Samples and coefficients by name, and sums that remember what was added to them. */
  datatype Trace = Named(id: int) | Sum(terms: seq<(int, int)>)

  function Names(ids: seq<int>): (r: seq<Trace>)
    ensures |r| == |ids|
  {
    seq(|ids|, i requires 0 <= i < |ids| => Named(ids[i]))
  }

  function Remember(acc: Trace, c: Trace, x: Trace): Trace {
    if acc.Sum? && c.Named? && x.Named? then Sum(acc.terms + [(c.id, x.id)]) else acc
  }

  /** An arithmetic that records every multiply-accumulate. */
  function Recorder(kernel: seq<int>): Design<Trace> {
    Design(Remember, x => x, Sum([]), Names(kernel))
  }

  lemma {:induction false} DotRecords(kernel: seq<int>, window: seq<int>, n: nat)
    requires n <= |kernel| && n <= |window|
    ensures Dot(Recorder(kernel), Names(window), n)
         == Sum(seq(n, k requires 0 <= k < n => (kernel[k], window[k])))
  {
    if n > 0 { DotRecords(kernel, window, n - 1); }
  }

  /** Every output sample adds up the whole kernel, tap by tap from the first, each tap times its own
      sample of the window that ends at the output's own time. */
  lemma {:induction false} FilterRecords(kernel: seq<int>, history: seq<int>, input: seq<int>, i: nat)
    requires |history| + 1 == |kernel| && i < |input|
    ensures Filtered(Recorder(kernel), Names(history), Names(input))[i]
         == Sum(seq(|kernel|, k requires 0 <= k < |kernel| => (kernel[k], (history + input)[i + k])))
  {
    var n := |kernel|;
    var window := (history + input)[i..i + n];
    assert (Names(history) + Names(input))[i..i + n] == Names(window);
    DotRecords(kernel, window, n);
    assert seq(n, k requires 0 <= k < n => (kernel[k], window[k]))
        == seq(n, k requires 0 <= k < n => (kernel[k], (history + input)[i + k]));
  }

  /** Ordinary integer arithmetic. */
  function Integers(kernel: seq<int>, gain: int): Design<int> {
    Design((acc, c, x) => acc + c * x, x => gain * x, 0, kernel)
  }

  /** One at position `p`, nothing elsewhere. */
  function Impulse(n: nat, p: int): (r: seq<int>)
    ensures |r| == n
  {
    seq(n, i => if i == p then 1 else 0)
  }

  lemma {:induction false} DotImpulse(kernel: seq<int>, n: nat, p: int)
    requires n <= |kernel|
    ensures Dot(Integers(kernel, 1), Impulse(|kernel|, p), n) == if 0 <= p < n then kernel[p] else 0
  {
    if n > 0 { DotImpulse(kernel, n - 1, p); }
  }

  /** An impulse out of silence comes out as the kernel, last tap first. */
  lemma {:induction false} ImpulseResponse(kernel: seq<int>, i: nat)
    requires i < |kernel|
    ensures Filtered(Integers(kernel, 1), Impulse(|kernel| - 1, -1), Impulse(|kernel|, 0))[i]
         == kernel[|kernel| - 1 - i]
  {
    var n := |kernel|;
    var padded := Impulse(n - 1, -1) + Impulse(n, 0);
    assert padded[i..i + n] == Impulse(n, n - 1 - i);
    DotImpulse(kernel, n, n - 1 - i);
  }

  // ----- Cutting the stream does not matter -----

  lemma {:induction false} FilterSplit<T>(d: Design<T>, h: seq<T>, a: seq<T>, b: seq<T>)
    requires |h| + 1 == |d.kernel|
    ensures Filtered(d, h, a + b) == Filtered(d, h, a) + Filtered(d, Tail(h, a), b)
    ensures Tail(h, a + b) == Tail(Tail(h, a), b)
  {
    var n := |d.kernel|;
    assert h + (a + b) == (h + a) + b;
    var whole, parts := Filtered(d, h, a + b), Filtered(d, h, a) + Filtered(d, Tail(h, a), b);
    forall i | 0 <= i < |whole| ensures whole[i] == parts[i] {
      if i < |a| {
        assert (h + (a + b))[i..i + n] == (h + a)[i..i + n];
      } else {
        assert (h + (a + b))[i..i + n] == (Tail(h, a) + b)[i - |a|..i - |a| + n];
      }
    }
    assert Tail(h, a) + b == (h + (a + b))[|a|..];
  }

  /** The frames the filter puts out for the frames it is given. */
  ghost function FilterRun<T>(d: Design<T>, h: seq<T>, frames: seq<seq<T>>): seq<seq<T>>
    requires |h| + 1 == |d.kernel|
    decreases |frames|
  {
    if frames == [] then [] else [Filtered(d, h, frames[0])] + FilterRun(d, Tail(h, frames[0]), frames[1..])
  }

  ghost function TailRun<T>(h: seq<T>, frames: seq<seq<T>>): (r: seq<T>)
    ensures |r| == |h|
    decreases |frames|
  {
    if frames == [] then h else TailRun(Tail(h, frames[0]), frames[1..])
  }

  /** For any way of cutting the input, filtering frame by frame is one convolution of the whole. */
  lemma {:induction false} FilterStreams<T>(d: Design<T>, h: seq<T>, frames: seq<seq<T>>)
    requires |h| + 1 == |d.kernel|
    ensures Flatten(FilterRun(d, h, frames)) == Filtered(d, h, Flatten(frames))
    ensures TailRun(h, frames) == Tail(h, Flatten(frames))
    decreases |frames|
  {
    if frames == [] {
      assert Tail(h, []) == h;
    } else {
      FilterStreams(d, Tail(h, frames[0]), frames[1..]);
      FilterSplit(d, h, frames[0], Flatten(frames[1..]));
      var outs := FilterRun(d, h, frames);
      assert outs[1..] == FilterRun(d, Tail(h, frames[0]), frames[1..]);
    }
  }

  // ----- Up: stuff, then filter -----

  function Stuffed<T>(d: Design<T>, input: seq<T>): (out: seq<T>)
    ensures |out| == RATIO * |input|
  {
    seq(RATIO * |input|, j requires 0 <= j < RATIO * |input| =>
      if j % RATIO == 0 then d.gain(input[j / RATIO]) else d.zero)
  }

  /** Every third sample is one of the input's, scaled, and the two after it are silent. */
  lemma {:induction false} StuffedReads<T>(d: Design<T>, input: seq<T>, i: nat)
    requires i < |input|
    ensures var out := Stuffed(d, input);
      |out| == 3 * |input| && out[3 * i] == d.gain(input[i]) && out[3 * i + 1] == d.zero && out[3 * i + 2] == d.zero
  {
    assert (3 * i) / 3 == i && (3 * i) % 3 == 0 && (3 * i + 1) % 3 == 1 && (3 * i + 2) % 3 == 2;
  }

  /** 48 kHz samples for a 16 kHz frame. */
  method UpFrame<T>(filter: LowPass<T>, input: seq<T>) returns (out: seq<T>)
    requires filter.Valid()
    modifies filter.history
    ensures out == Filtered(filter.d, old(filter.history[..]), Stuffed(filter.d, input))
    ensures filter.history[..] == Tail(old(filter.history[..]), Stuffed(filter.d, input))
  {
    var stuffed := new T[RATIO * |input|](_ => filter.d.zero);
    for i := 0 to |input|
      invariant forall j :: 0 <= j < RATIO * i ==> stuffed[j] == Stuffed(filter.d, input)[j]
      invariant forall j :: RATIO * i <= j < stuffed.Length ==> stuffed[j] == filter.d.zero
      invariant filter.history[..] == old(filter.history[..])
    {
      stuffed[i * RATIO] := filter.d.gain(input[i]);
    }
    assert stuffed[..] == Stuffed(filter.d, input);
    out := filter.Apply(stuffed[..]);
  }

  ghost function StuffAll<T>(d: Design<T>, frames: seq<seq<T>>): (r: seq<seq<T>>)
    ensures |r| == |frames|
  {
    seq(|frames|, i requires 0 <= i < |frames| => Stuffed(d, frames[i]))
  }

  lemma {:induction false} StuffStreams<T>(d: Design<T>, frames: seq<seq<T>>)
    ensures Flatten(StuffAll(d, frames)) == Stuffed(d, Flatten(frames))
  {
    if frames != [] {
      StuffStreams(d, frames[1..]);
      assert StuffAll(d, frames)[1..] == StuffAll(d, frames[1..]);
      var a, b := frames[0], Flatten(frames[1..]);
      assert Stuffed(d, a + b) == Stuffed(d, a) + Stuffed(d, b);
    }
  }

  /** The upsampler's output for any cut of its input is that of the whole stream. */
  lemma {:induction false} UpStreams<T>(d: Design<T>, h: seq<T>, frames: seq<seq<T>>)
    requires |h| + 1 == |d.kernel|
    ensures Flatten(FilterRun(d, h, StuffAll(d, frames))) == Filtered(d, h, Stuffed(d, Flatten(frames)))
  {
    StuffStreams(d, frames);
    FilterStreams(d, h, StuffAll(d, frames));
  }

  // ----- Down: filter, then decimate -----

  function Decimated<T>(input: seq<T>): (out: seq<T>)
    ensures |out| == |input| / RATIO
  {
    seq(|input| / RATIO, i requires 0 <= i < |input| / RATIO => input[i * RATIO])
  }

  /** Decimation keeps the samples at multiples of three, which are those that stuffing puts there. */
  lemma {:induction false} DecimatedReads<T>(d: Design<T>, input: seq<T>, i: nat)
    ensures i < |input| / 3 ==> |Decimated(input)| == |input| / 3 && Decimated(input)[i] == input[3 * i]
    ensures i < |input| ==> var back := Decimated(Stuffed(d, input)); |back| == |input| && back[i] == d.gain(input[i])
  {
    if i < |input| { StuffedReads(d, input, i); }
  }

  /** 16 kHz samples for a 48 kHz frame. */
  method DownFrame<T>(filter: LowPass<T>, input: seq<T>) returns (out: seq<T>)
    requires filter.Valid()
    modifies filter.history
    ensures out == Decimated(Filtered(filter.d, old(filter.history[..]), input))
    ensures filter.history[..] == Tail(old(filter.history[..]), input)
  {
    var filtered := filter.Apply(input);
    out := [];
    for i := 0 to |input| / RATIO
      invariant out == Decimated(filtered)[..i]
    {
      out := out + [filtered[i * RATIO]];
    }
    assert Decimated(filtered)[..|input| / RATIO] == Decimated(filtered);
  }

  lemma {:induction false} DecimateSplit<T>(a: seq<T>, b: seq<T>)
    requires |a| % RATIO == 0
    ensures Decimated(a + b) == Decimated(a) + Decimated(b)
  {
    var whole, parts := Decimated(a + b), Decimated(a) + Decimated(b);
    assert |a| == RATIO * (|a| / RATIO);
    forall i | 0 <= i < |whole| ensures whole[i] == parts[i] {
      if i >= |a| / RATIO {
        assert (a + b)[i * RATIO] == b[(i - |a| / RATIO) * RATIO];
      }
    }
  }

  ghost function DownRun<T>(d: Design<T>, h: seq<T>, frames: seq<seq<T>>): seq<seq<T>>
    requires |h| + 1 == |d.kernel|
    decreases |frames|
  {
    if frames == [] then [] else [Decimated(Filtered(d, h, frames[0]))] + DownRun(d, Tail(h, frames[0]), frames[1..])
  }

  /** The downsampler's output for frames whose lengths are multiples of three is the whole stream
      filtered and decimated. */
  lemma {:induction false} DownStreams<T>(d: Design<T>, h: seq<T>, frames: seq<seq<T>>)
    requires |h| + 1 == |d.kernel| && forall f :: f in frames ==> |f| % RATIO == 0
    ensures Flatten(DownRun(d, h, frames)) == Decimated(Filtered(d, h, Flatten(frames)))
    decreases |frames|
  {
    if frames != [] {
      assert frames[0] in frames;
      DownStreams(d, Tail(h, frames[0]), frames[1..]);
      FilterSplit(d, h, frames[0], Flatten(frames[1..]));
      DecimateSplit(Filtered(d, h, frames[0]), Filtered(d, Tail(h, frames[0]), Flatten(frames[1..])));
      assert DownRun(d, h, frames)[1..] == DownRun(d, Tail(h, frames[0]), frames[1..]);
    }
  }

  // ----- Re-cutting -----

  lemma {:induction false} FlattenNone<T>()
    ensures Flatten<T>([]) == []
  {
  }

  class Framer<T> {
    const size: nat
    var buf: seq<T>

    constructor (n: nat)
      ensures size == n && buf == []
    {
      size, buf := n, [];
    }

    /** Adds samples and returns the whole frames that completes: nothing is lost or reordered, and
        less than a frame is held back. */
    method Push(input: seq<T>) returns (out: seq<seq<T>>)
      requires size > 0  // with size zero the loop would not end
      modifies this
      ensures Flatten(out) + buf == old(buf) + input
      ensures forall f :: f in out ==> |f| == size
      ensures |buf| < size
    {
      hide Flatten;
      buf := buf + input;
      out := [];
      FlattenNone<T>();
      while |buf| >= size
        invariant Flatten(out) + buf == old(buf) + input
        invariant forall f :: f in out ==> |f| == size
        decreases |buf|
      {
        var frame := buf[..size];
        FlattenSnoc(out, frame);
        out := out + [frame];
        buf := buf[size..];
      }
    }
  }

  lemma {:induction false} AddOne(k: nat, n: nat)
    ensures (k + 1) * n == k * n + n
  {
  }

  lemma {:induction false} FlattenLength<T>(frames: seq<seq<T>>, n: nat)
    requires forall f :: f in frames ==> |f| == n
    ensures |Flatten(frames)| == |frames| * n
  {
    if frames != [] {
      assert frames[0] in frames;
      FlattenLength(frames[1..], n);
      AddOne(|frames[1..]|, n);
    }
  }
}
