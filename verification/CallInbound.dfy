/** From Matrix to WhatsApp (pkg/connector/callpump.go, and the loop of pumpMatrixToWA in
    pkg/connector/callbridging.go): decode or conceal, downsample, re-cut, queue for playing. */
module CallInbound {
  import opened Prelude
  import opened Binary
  import opened CallAudio

  const MAX_CONCEALED := 9
  const PIPE_DEPTH := 8

  function Wrap16(x: int): uint16 { x % 0x1_0000 }

  class MatrixToWA<T> {
    const filter: LowPass<T>
    const framer: Framer<T>

    constructor (design: Design<T>)
      requires |design.kernel| == TAPS
      ensures Carries([], []) && filter.d == design && fresh(filter) && fresh(filter.history) && fresh(framer)
    {
      filter := new LowPass(design);
      framer := new Framer(WA_FRAME);
      new;
      assert Flatten<T>([]) + framer.buf == [];
      assert Tail(Silence(filter.d), []) == Silence(filter.d);
    }

    /** After the 48 kHz samples `stream`, the frames `emitted` and the held remainder are together
        the whole stream, downsampled. */
    ghost predicate Carries(stream: seq<T>, emitted: seq<seq<T>>)
      reads this, filter, filter.history, framer
    {
      && filter.Valid() && |filter.d.kernel| == TAPS && framer.size == WA_FRAME
      && |stream| % RATIO == 0
      && filter.history[..] == Tail(Silence(filter.d), stream)
      && Flatten(emitted) + framer.buf == Decimated(Filtered(filter.d, Silence(filter.d), stream))
      && (forall f :: f in emitted ==> |f| == WA_FRAME)
      && |framer.buf| < WA_FRAME
    }

    /** What follows every decoded or concealed frame. */
    method Feed(pcm: seq<T>, ghost stream: seq<T>, ghost emitted: seq<seq<T>>) returns (frames: seq<seq<T>>)
      requires Carries(stream, emitted) && |pcm| % RATIO == 0
      modifies filter.history, framer
      ensures Carries(stream + pcm, emitted + frames)
    {
      hide Flatten, Filtered, Decimated;
      ghost var h := Silence(filter.d);
      FilterSplit(filter.d, h, stream, pcm);
      DecimateSplit(Filtered(filter.d, h, stream), Filtered(filter.d, Tail(h, stream), pcm));
      ghost var held := framer.buf;
      var narrow := DownFrame(filter, pcm);
      frames := framer.Push(narrow);
      FlattenAppend(emitted, frames);
      assert Flatten(emitted) + (held + narrow) == (Flatten(emitted) + held) + narrow;
      assert Flatten(emitted + frames) + framer.buf == Flatten(emitted) + (Flatten(frames) + framer.buf);
    }
  }

  function Silence<T>(d: Design<T>): (s: seq<T>)
    ensures |s| == TAPS - 1
  {
    seq(TAPS - 1, _ => d.zero)
  }

  datatype Packet = Packet(sequence: uint16, payload: seq<byte>)

  /** What the decoder is asked to do. */
  datatype Op = Decode(payload: seq<byte>) | Conceal

  /** What the decoder puts out for its latest call, given all calls so far; None if that failed. */
  type Decoder<!T> = seq<Op> -> Option<seq<T>>

  function Result<T>(dec: Decoder<T>, ops: seq<Op>): Option<seq<T>> { dec(ops) }

  /** Frames are whole multiples of three samples. */
  ghost predicate Divisible<T>(dec: Decoder<T>) {
    forall ops: seq<Op> :: Result(dec, ops).Some? ==> |Result(dec, ops).value| % RATIO == 0
  }

  /** What the decoder has put out over all its calls. */
  function Stream<T>(dec: Decoder<T>, ops: seq<Op>): seq<T> {
    if ops == [] then []
    else Stream(dec, ops[..|ops| - 1]) + if Result(dec, ops).Some? then Result(dec, ops).value else []
  }

  /** How many frames the loop sets out to conceal between two packets. */
  function Concealed(last: uint16, sequence: uint16): nat {
    var gap := Wrap16(sequence - last - 1);
    if gap <= MAX_CONCEALED then gap else 0
  }

  /** Concealing up to `g` frames, until a call fails. */
  function Concealing<T>(dec: Decoder<T>, ops: seq<Op>, g: nat): seq<Op>
    decreases g
  {
    if g == 0 then ops
    else
      var next := ops + [Conceal];
      if Result(dec, next).None? then next else Concealing(dec, next, g - 1)
  }

  /** Every decoder call for a packet sequence, in order: a gap is concealed, then the packet decoded,
      whether or not earlier calls failed. */
  function Ops<T>(dec: Decoder<T>, packets: seq<Packet>): seq<Op> {
    var n := |packets|;
    if n == 0 then []
    else if n == 1 then [Decode(packets[0].payload)]
    else
      Concealing(dec, Ops(dec, packets[..n - 1]), Concealed(packets[n - 2].sequence, packets[n - 1].sequence))
      + [Decode(packets[n - 1].payload)]
  }

  lemma {:induction false} StartOf<T>(dec: Decoder<T>)
    ensures Stream(dec, []) == [] && Ops(dec, []) == []
  {
  }

  lemma {:induction false} OpsSnoc<T>(dec: Decoder<T>, packets: seq<Packet>, i: nat)
    requires i < |packets|
    ensures Ops(dec, packets[..i + 1]) ==
      (if i == 0 then []
       else Concealing(dec, Ops(dec, packets[..i]), Concealed(packets[i - 1].sequence, packets[i].sequence)))
      + [Decode(packets[i].payload)]
  {
    hide Concealed, Concealing;
    assert packets[..i + 1][..i] == packets[..i];
  }

  /** One decoder call, decoding or concealing, and what follows it. */
  method Advance<T>(m: MatrixToWA<T>, dec: Decoder<T>, ops: seq<Op>, op: Op, frames: seq<seq<T>>)
    returns (ok: bool, more: seq<seq<T>>)
    requires m.Carries(Stream(dec, ops), frames) && Divisible(dec)
    modifies m.filter.history, m.framer
    ensures ok == Result(dec, ops + [op]).Some?
    ensures m.Carries(Stream(dec, ops + [op]), more)
  {
    var decoded := Result(dec, ops + [op]);
    assert (ops + [op])[..|ops|] == ops;
    if decoded.None? {
      assert Stream(dec, ops + [op]) == Stream(dec, ops);
      return false, frames;
    }
    var out := m.Feed(decoded.value, Stream(dec, ops), frames);
    return true, frames + out;
  }

  /** Fills a gap of up to nine frames; a longer one is a reordering or a restart and is left. */
  method ConcealGap<T>(m: MatrixToWA<T>, last: uint16, sequence: uint16, dec: Decoder<T>, before: seq<Op>,
                       emitted: seq<seq<T>>) returns (frames: seq<seq<T>>, ops: seq<Op>)
    requires m.Carries(Stream(dec, before), emitted) && Divisible(dec)
    modifies m.filter.history, m.framer
    ensures m.Carries(Stream(dec, ops), frames)
    ensures ops == Concealing(dec, before, Concealed(last, sequence))
  {
    hide MatrixToWA<T>.Carries, Stream, Divisible;
    frames, ops := emitted, before;
    var gap: uint16 := Wrap16(sequence - last - 1);
    ghost var all := Concealing(dec, before, Concealed(last, sequence));
    while gap > 0 && gap < 10
      invariant m.Carries(Stream(dec, ops), frames)
      invariant all == Concealing(dec, ops, if gap <= MAX_CONCEALED then gap else 0)
      decreases gap
    {
      var ok;
      ok, frames := Advance(m, dec, ops, Conceal, frames);
      ops := ops + [Conceal];
      if !ok { break; }
      gap := gap - 1;
    }
  }

  /** The receive loop. A failed concealment ends the concealing of that gap, a failed decode skips
      that packet, and the loop goes on with the next: the calls are exactly those the packets ask
      for, and everything the decoder put out is in the frames or the remainder. */
  method PumpMatrixToWA<T>(m: MatrixToWA<T>, packets: seq<Packet>, dec: Decoder<T>)
    returns (frames: seq<seq<T>>, ops: seq<Op>)
    requires m.Carries([], []) && Divisible(dec)
    modifies m.filter.history, m.framer
    ensures ops == Ops(dec, packets)
    ensures m.Carries(Stream(dec, ops), frames)
  {
    hide MatrixToWA<T>.Carries, Concealed, Stream, Divisible, Ops, Concealing;
    frames, ops := [], [];
    StartOf(dec);
    var lastSequence: uint16, started := 0, false;
    assert packets[..0] == [];
    for i := 0 to |packets|
      invariant m.Carries(Stream(dec, ops), frames)
      invariant started <==> i > 0
      invariant started ==> lastSequence == packets[i - 1].sequence
      invariant ops == Ops(dec, packets[..i])
    {
      OpsSnoc(dec, packets, i);
      if started {
        frames, ops := ConcealGap(m, lastSequence, packets[i].sequence, dec, ops, frames);
      }
      lastSequence, started := packets[i].sequence, true;
      var _, more := Advance(m, dec, ops, Decode(packets[i].payload), frames);
      frames, ops := more, ops + [Decode(packets[i].payload)];
    }
    assert packets[..|packets|] == packets;
  }

  // ----- What the decoder is asked -----

  /** The payloads decoded, in order. */
  function Decoded(ops: seq<Op>): seq<seq<byte>> {
    if ops == [] then []
    else
      var last := ops[|ops| - 1];
      Decoded(ops[..|ops| - 1]) + if last.Decode? then [last.payload] else []
  }

  lemma {:induction false} DecodedSnoc(ops: seq<Op>, op: Op)
    ensures Decoded(ops + [op]) == Decoded(ops) + if op.Decode? then [op.payload] else []
  {
    assert (ops + [op])[..|ops|] == ops;
  }

  lemma {:induction false} ConcealingAdds<T>(dec: Decoder<T>, ops: seq<Op>, g: nat)
    ensures var all := Concealing(dec, ops, g);
      && |ops| <= |all| <= |ops| + g && ops <= all && Decoded(all) == Decoded(ops)
      && (forall i :: |ops| <= i < |all| ==> all[i] == Conceal)
      && (NoFailure(dec, all) ==> |all| == |ops| + g)
    decreases g
  {
    if g > 0 {
      var next := ops + [Conceal];
      DecodedSnoc(ops, Conceal);
      if Result(dec, next).Some? {
        ConcealingAdds(dec, next, g - 1);
      } else {
        assert next[..|next|] == next;
      }
    }
  }

  /** Not one of the calls fails. */
  ghost predicate NoFailure<T>(dec: Decoder<T>, ops: seq<Op>) {
    forall i :: 0 < i <= |ops| ==> Result(dec, ops[..i]).Some?
  }

  /** Decoder calls for a packet sequence on which no call fails. */
  function Calls(sequences: seq<uint16>): nat {
    var n := |sequences|;
    if n <= 1 then n
    else Calls(sequences[..n - 1]) + Concealed(sequences[n - 2], sequences[n - 1]) + 1
  }

  function Sequences(packets: seq<Packet>): (s: seq<uint16>)
    ensures |s| == |packets|
  {
    seq(|packets|, i requires 0 <= i < |packets| => packets[i].sequence)
  }

  function Payloads(packets: seq<Packet>): (s: seq<seq<byte>>)
    ensures |s| == |packets|
  {
    seq(|packets|, i requires 0 <= i < |packets| => packets[i].payload)
  }

  /** What the last of several packets adds. */
  lemma {:induction false} LastPacket<T>(dec: Decoder<T>, packets: seq<Packet>)
    requires |packets| > 1
    ensures var n := |packets|; var front := packets[..n - 1];
      var g := Concealed(packets[n - 2].sequence, packets[n - 1].sequence);
      && Ops(dec, packets) == Concealing(dec, Ops(dec, front), g) + [Decode(packets[n - 1].payload)]
      && Calls(Sequences(packets)) == Calls(Sequences(front)) + g + 1
      && Payloads(packets) == Payloads(front) + [packets[n - 1].payload]
  {
    hide Concealed, Concealing;
    var n := |packets|;
    assert Sequences(packets)[..n - 1] == Sequences(packets[..n - 1]);
  }

  lemma {:induction false} OnlyPacket<T>(dec: Decoder<T>, packets: seq<Packet>)
    requires |packets| <= 1
    ensures Decoded(Ops(dec, packets)) == Payloads(packets)
    ensures |Ops(dec, packets)| == |packets| == Calls(Sequences(packets))
  {
    if |packets| == 1 {
      DecodedSnoc([], Decode(packets[0].payload));
      assert [] + [Decode(packets[0].payload)] == [Decode(packets[0].payload)];
    }
  }

  /** Whatever fails, every packet is decoded once and in order, and no more is concealed than the gaps
      ask for; if nothing fails, all of it. */
  lemma {:induction false} EveryPacketDecoded<T>(dec: Decoder<T>, packets: seq<Packet>)
    ensures var ops := Ops(dec, packets);
      && Decoded(ops) == Payloads(packets)
      && |packets| <= |ops| <= Calls(Sequences(packets))
      && (NoFailure(dec, ops) ==> |ops| == Calls(Sequences(packets)))
  {
    hide Concealed, Concealing, Ops, Calls, Decoded, Payloads, Sequences, NoFailure;
    var n := |packets|;
    if n <= 1 {
      OnlyPacket(dec, packets);
    } else {
      var front := packets[..n - 1];
      EveryPacketDecoded(dec, front);
      LastPacket(dec, packets);
      var g := Concealed(packets[n - 2].sequence, packets[n - 1].sequence);
      var all := Concealing(dec, Ops(dec, front), g);
      ConcealingAdds(dec, Ops(dec, front), g);
      DecodedSnoc(all, Decode(packets[n - 1].payload));
      NoFailurePrefix(dec, all, Ops(dec, packets));
      NoFailurePrefix(dec, Ops(dec, front), all);
    }
  }

  lemma {:induction false} NoFailurePrefix<T>(dec: Decoder<T>, a: seq<Op>, b: seq<Op>)
    requires a <= b
    ensures NoFailure(dec, b) ==> NoFailure(dec, a)
  {
    assert forall i :: 0 <= i <= |a| ==> a[..i] == b[..i];
  }

  // ----- The timeline -----

  function Wrapped(us: seq<int>): (s: seq<uint16>)
    ensures |s| == |us|
  {
    seq(|us|, i requires 0 <= i < |us| => Wrap16(us[i]))
  }

  predicate Increasing(us: seq<int>) { forall i :: 0 <= i < |us| - 1 ==> us[i] < us[i + 1] }

  predicate SmallLosses(us: seq<int>) { forall i :: 0 <= i < |us| - 1 ==> us[i + 1] - us[i] - 1 <= MAX_CONCEALED }

  lemma {:induction false} ConcealedIs(last: int, next: int)
    requires last < next
    ensures Concealed(Wrap16(last), Wrap16(next)) <= next - last - 1
    ensures Concealed(Wrap16(last), Wrap16(next)) == next - last - 1 <==> next - last - 1 <= MAX_CONCEALED
  {
    var a, b := next / 0x1_0000, last / 0x1_0000;
    assert next == Wrap16(next) + 0x1_0000 * a && last == Wrap16(last) + 0x1_0000 * b;
    Turns16(Wrap16(next) - Wrap16(last) - 1, a - b);
    AtMostItself(next - last - 1);
  }

  lemma {:induction false} AtMostItself(x: nat)
    ensures Wrap16(x) <= x && (x < 0x1_0000 ==> Wrap16(x) == x)
  {
  }

  /** Exact condition: over packets in order, with sequence numbers that wrap at sixteen bits, decoded
      and concealed frames together cover the span if and only if no loss exceeds nine packets. */
  lemma {:induction false} TimelineIff(us: seq<int>)
    requires us != [] && Increasing(us)
    ensures Calls(Wrapped(us)) <= us[|us| - 1] - us[0] + 1
    ensures Calls(Wrapped(us)) == us[|us| - 1] - us[0] + 1 <==> SmallLosses(us)
  {
    hide Concealed, Wrap16, Calls, SmallLosses, Wrapped;
    if |us| == 1 {
      OnePacket(us);
    } else {
      TimelineIff(us[..|us| - 1]);
      OneMore(us);
      ConcealedIs(us[|us| - 2], us[|us| - 1]);
    }
  }

  lemma {:induction false} OnePacket(us: seq<int>)
    requires |us| == 1
    ensures Calls(Wrapped(us)) == 1 && SmallLosses(us)
  {
  }

  lemma {:induction false} OneMore(us: seq<int>)
    requires |us| > 1
    ensures var front := us[..|us| - 1]; var a, b := us[|us| - 2], us[|us| - 1];
      && Calls(Wrapped(us)) == Calls(Wrapped(front)) + Concealed(Wrap16(a), Wrap16(b)) + 1
      && (SmallLosses(us) <==> SmallLosses(front) && b - a - 1 <= MAX_CONCEALED)
  {
    hide Concealed, Wrap16;
    assert Wrapped(us)[..|us| - 1] == Wrapped(us[..|us| - 1]);
  }

  /** Each of these calls succeeds and puts out 20 ms. */
  ghost predicate TwentyMs<T>(dec: Decoder<T>, ops: seq<Op>) {
    forall i :: 0 < i <= |ops| ==> Result(dec, ops[..i]).Some? && |Result(dec, ops[..i]).value| == MX_FRAME
  }

  lemma {:induction false} StreamLength<T>(dec: Decoder<T>, ops: seq<Op>)
    requires TwentyMs(dec, ops)
    ensures |Stream(dec, ops)| == |ops| * MX_FRAME && NoFailure(dec, ops)
  {
    if ops != [] {
      var front := ops[..|ops| - 1];
      assert forall i :: 0 <= i <= |front| ==> front[..i] == ops[..i];
      StreamLength(dec, front);
      assert ops[..|ops|] == ops;
      AddOne(|front|, MX_FRAME);
    }
  }

  /** With 20 ms frames, three make one: `n` of them give n / 3 WhatsApp frames. */
  lemma {:induction false} FramesOut<T>(m: MatrixToWA<T>, dec: Decoder<T>, ops: seq<Op>, frames: seq<seq<T>>)
    requires m.Carries(Stream(dec, ops), frames) && TwentyMs(dec, ops)
    ensures |frames| == |ops| / 3
    ensures |m.framer.buf| == (|ops| % 3) * 320
  {
    hide Stream, Filtered, Flatten;
    StreamLength(dec, ops);
    FlattenLength(frames, WA_FRAME);
  }

  /** The calls for the first packets are the first calls, and the last of them decodes the last
      packet. */
  lemma {:induction false} OpsGrow<T>(dec: Decoder<T>, packets: seq<Packet>, i: nat)
    requires i < |packets|
    ensures Ops(dec, packets[..i + 1]) <= Ops(dec, packets)
    ensures var ops := Ops(dec, packets[..i + 1]); ops != [] && ops[|ops| - 1] == Decode(packets[i].payload)
    decreases |packets|
  {
    hide Concealed, Concealing, Decoded, NoFailure;
    OpsSnoc(dec, packets, i);
    if i + 1 < |packets| {
      var front := packets[..|packets| - 1];
      OpsGrow(dec, front, i);
      assert front[..i + 1] == packets[..i + 1];
      LastPacket(dec, packets);
      var n := |packets|;
      ConcealingAdds(dec, Ops(dec, front), Concealed(packets[n - 2].sequence, packets[n - 1].sequence));
    } else {
      assert packets[..i + 1] == packets;
    }
  }

  function Numbered(us: seq<int>, payloads: seq<seq<byte>>): (r: seq<Packet>)
    requires |us| == |payloads|
    ensures |r| == |us|
  {
    seq(|us|, i requires 0 <= i < |us| => Packet(Wrap16(us[i]), payloads[i]))
  }

  /** On the timeline of an in-order stream with small losses, on which no call fails, every packet is
      decoded at its own place, its distance from the first. */
  lemma {:induction false} DecodedInPlace<T>(dec: Decoder<T>, us: seq<int>, payloads: seq<seq<byte>>, i: nat)
    requires |us| == |payloads| && Increasing(us) && SmallLosses(us) && i < |us|
    requires NoFailure(dec, Ops(dec, Numbered(us, payloads)))
    ensures var ops := Ops(dec, Numbered(us, payloads));
      0 <= us[i] - us[0] < |ops| && ops[us[i] - us[0]] == Decode(payloads[i])
  {
    hide Calls, Concealed, Ops, Decoded, NoFailure, Wrap16, Concealing;
    var packets, first := Numbered(us, payloads), us[..i + 1];
    var some := packets[..i + 1];
    OpsGrow(dec, packets, i);
    NoFailurePrefix(dec, Ops(dec, some), Ops(dec, packets));
    EveryPacketDecoded(dec, some);
    assert Sequences(some) == Wrapped(first);
    TimelineIff(first);
    assert first[|first| - 1] == us[i] && first[0] == us[0];
  }

  /** And everywhere else the gap is concealed. */
  lemma {:induction false} ConcealedElsewhere<T>(dec: Decoder<T>, us: seq<int>, payloads: seq<seq<byte>>, p: nat)
    requires |us| == |payloads| && us != [] && Increasing(us) && SmallLosses(us)
    requires NoFailure(dec, Ops(dec, Numbered(us, payloads))) && p < |Ops(dec, Numbered(us, payloads))|
    requires forall i :: 0 <= i < |us| ==> us[i] - us[0] != p
    ensures Ops(dec, Numbered(us, payloads))[p] == Conceal
    decreases |us|
  {
    hide Calls, Concealed, Ops, Decoded, NoFailure, Wrap16, Concealing;
    var packets, n := Numbered(us, payloads), |us|;
    var ops := Ops(dec, packets);
    EveryPacketDecoded(dec, packets);
    assert Sequences(packets) == Wrapped(us);
    TimelineIff(us);
    if n > 1 {
      var front := packets[..n - 1];
      assert front == Numbered(us[..n - 1], payloads[..n - 1]);
      LastPacket(dec, packets);
      var g := Concealed(packets[n - 2].sequence, packets[n - 1].sequence);
      ConcealingAdds(dec, Ops(dec, front), g);
      if p < |Ops(dec, front)| {
        NoFailurePrefix(dec, Ops(dec, front), ops);
        ConcealedElsewhere(dec, us[..n - 1], payloads[..n - 1], p);
      }
    }
  }

  /** A call's worth of packets, in order and with small losses, none of which fails: exactly the
      span's frames are decoded or concealed, a third as many go to WhatsApp, and these with what is
      held back are the decoder's output, downsampled as a whole. */
  method PumpInOrder<T>(design: Design<T>, us: seq<int>, payloads: seq<seq<byte>>, dec: Decoder<T>)
    returns (frames: seq<seq<T>>, held: seq<T>)
    requires |design.kernel| == TAPS && us != [] && Increasing(us) && SmallLosses(us)
    requires |us| == |payloads| && Divisible(dec) && TwentyMs(dec, Ops(dec, Numbered(us, payloads)))
    ensures var span := us[|us| - 1] - us[0] + 1; var ops := Ops(dec, Numbered(us, payloads));
      && |ops| == span && Decoded(ops) == payloads
      && |frames| == span / 3 && (forall f :: f in frames ==> |f| == WA_FRAME) && |held| == (span % 3) * 320
      && Flatten(frames) + held == Decimated(Filtered(design, Silence(design), Stream(dec, ops)))
  {
    hide Calls, Stream, Filtered, Decimated, Flatten, Concealed, Ops, Decoded;
    var m := new MatrixToWA(design);
    var packets := Numbered(us, payloads);
    var ops;
    frames, ops := PumpMatrixToWA(m, packets, dec);
    held := m.framer.buf;
    TimelineIff(us);
    assert Sequences(packets) == Wrapped(us);
    EveryPacketDecoded(dec, packets);
    assert Payloads(packets) == payloads;
    StreamLength(dec, ops);
    FramesOut(m, dec, ops, frames);
  }

  // ----- The pipe -----

  /** A bounded queue between two clocks. `pushed` is everything offered while open and `read` how
      many frames were taken. */
  class PcmPipe<T> {
    const silence: T
    var frames: seq<seq<T>>
    var closed: bool
    var dropped: nat
    ghost var pushed: seq<seq<T>>
    ghost var read: nat

    /** What is held is the newest part of what was pushed, never more than the depth, and every
        frame pushed was read, dropped or is held. */
    ghost predicate Valid()
      reads this
    {
      && |frames| <= PIPE_DEPTH
      && (closed ==> frames == [])
      && (!closed ==> read + dropped + |frames| == |pushed| && frames == pushed[read + dropped..])
    }

    constructor (zero: T)
      ensures Valid() && !closed && pushed == [] && read == 0 && dropped == 0
    {
      silence, frames, closed, dropped, pushed, read := zero, [], false, 0, [], 0;
    }

    method Push(frame: seq<T>)
      requires Valid()
      modifies this
      ensures Valid() && closed == old(closed) && read == old(read)
      ensures !closed ==> pushed == old(pushed) + [frame]
      ensures closed ==> pushed == old(pushed) && dropped == old(dropped)
      ensures !closed ==> dropped == old(dropped) + if |old(frames)| == PIPE_DEPTH then 1 else 0
    {
      if closed { return; }
      if |frames| >= PIPE_DEPTH {
        frames := frames[1..];
        dropped := dropped + 1;
      }
      frames := frames + [frame];
      pushed := pushed + [frame];
    }

    /** The oldest frame still held, silence if there is none, or end of file. */
    method ReadFrame() returns (r: Option<seq<T>>)
      requires Valid()
      modifies this
      ensures Valid() && closed == old(closed) && pushed == old(pushed) && dropped == old(dropped)
      ensures r.None? <==> closed
      ensures !closed && old(frames) == [] ==> r == Some(seq(WA_FRAME, _ => silence)) && read == old(read)
      ensures !closed && old(frames) != [] ==> r == Some(pushed[old(read) + dropped]) && read == old(read) + 1
    {
      if closed { return None; }
      if frames == [] { return Some(seq(WA_FRAME, _ => silence)); }
      r := Some(frames[0]);
      frames := frames[1..];
      read := read + 1;
    }

    method Close()
      requires Valid()
      modifies this
      ensures Valid() && closed
    {
      closed, frames := true, [];
    }
  }
}
