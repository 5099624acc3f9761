/** From WhatsApp to Matrix (pkg/connector/callpump.go, pkg/connector/callopus.go): upsample, encode
    into a shared buffer, number as RTP. */
module CallOutbound {
  import opened Prelude
  import opened Binary
  import opened CallAudio

  const MAX_PACKET := 1276

  /** A Go slice from the start of a buffer: it sees later writes to that buffer. */
  datatype Slice = Slice(data: array<byte>, len: nat)

  datatype Packet = Packet(sequence: uint16, timestamp: uint32, marker: bool, payload: Slice)

  /** A packet as it goes on the wire. */
  datatype Sent = Sent(sequence: uint16, timestamp: uint32, marker: bool, payload: seq<byte>)

  /** Where a stream starts. */
  datatype Origin = Origin(sequence: uint16, timestamp: uint32)

  /** The packet for encoded frame `k`: sequence numbers count frames modulo 2^16 (section 5.1 of
      RFC 3550), timestamps count 48 kHz samples modulo 2^32 (section 4.1 of RFC 7587). */
  function Numbered(o: Origin, k: nat, payload: seq<byte>): Sent {
    Sent((o.sequence + k) % 0x1_0000, (o.timestamp + MX_FRAME * k) % 0x1_0000_0000, k == 0, payload)
  }

  /** The packets for consecutively encoded frames, starting with frame `k`; silent frames are
      counted but not sent. */
  function Expected(o: Origin, k: nat, payloads: seq<seq<byte>>): seq<Sent>
    decreases |payloads|
  {
    if payloads == [] then []
    else (if payloads[0] == [] then [] else [Numbered(o, k, payloads[0])]) + Expected(o, k + 1, payloads[1..])
  }

  lemma {:induction false} ExpectedAppend(o: Origin, k: nat, a: seq<seq<byte>>, b: seq<seq<byte>>)
    ensures Expected(o, k, a + b) == Expected(o, k, a) + Expected(o, k + |a|, b)
    decreases |a|
  {
    hide Numbered;
    if a == [] {
      assert a + b == b;
    } else {
      ExpectedAppend(o, k + 1, a[1..], b);
      assert (a + b)[1..] == a[1..] + b;
    }
  }

  /** What the codec makes of a frame, given every frame it was fed so far, this one last; None is an
      error. */
  type Codec<!T> = seq<seq<T>> -> Option<seq<byte>>

  function Code<T>(codec: Codec<T>, fed: seq<seq<T>>): Option<seq<byte>> { codec(fed) }

  ghost predicate Fits<T(!new)>(codec: Codec<T>) {
    forall fed: seq<seq<T>> :: Code(codec, fed).Some? ==> |Code(codec, fed).value| <= MAX_PACKET
  }

  class Encoder<T(!new)> {
    const buf: array<byte>
    const codec: Codec<T>
    /** Stands for the codec's state. */
    var fed: seq<seq<T>>

    ghost predicate Valid()
      reads this
    {
      buf.Length == MAX_PACKET && Fits(codec)
    }

    constructor (c: Codec<T>)
      requires Fits(c)
      ensures Valid() && fresh(buf) && codec == c && fed == []
    {
      buf := new byte[MAX_PACKET](_ => 0);
      codec, fed := c, [];
    }

    /** Encodes one frame into the shared buffer and returns a slice of it. */
    method Encode(pcm: seq<T>) returns (r: Option<Slice>)
      requires Valid() && |pcm| == MX_FRAME
      modifies this, buf
      ensures Valid() && fed == old(fed) + [pcm]
      ensures r.Some? <==> Code(codec, fed).Some?
      ensures r.Some? ==> var bytes := Code(codec, fed).value;
        r.value == Slice(buf, |bytes|) && |bytes| <= buf.Length && buf[..|bytes|] == bytes
    {
      fed := fed + [pcm];
      var c := Code(codec, fed);
      if c.None? { return None; }
      for i := 0 to |c.value|
        invariant Valid() && fed == old(fed) + [pcm]
        invariant forall j :: 0 <= j < i ==> buf[j] == c.value[j]
      {
        buf[i] := c.value[i];
      }
      assert buf[..|c.value|] == c.value;
      return Some(Slice(buf, |c.value|));
    }
  }

  /** Counting on wraps as the numbering does. */
  lemma {:induction false} CountOn(o: Origin, k: nat)
    ensures var n, m := Numbered(o, k, []), Numbered(o, k + 1, []);
      m.sequence == (n.sequence + 1) % 0x1_0000 && m.timestamp == (n.timestamp + MX_FRAME) % 0x1_0000_0000
  {
    var a, b := o.sequence + k, o.timestamp + MX_FRAME * k;
    assert a == a % 0x1_0000 + 0x1_0000 * (a / 0x1_0000);
    Turns16(a % 0x1_0000 + 1, a / 0x1_0000);
    assert b == b % 0x1_0000_0000 + 0x1_0000_0000 * (b / 0x1_0000_0000);
    Turns32(b % 0x1_0000_0000 + MX_FRAME, b / 0x1_0000_0000);
  }

  class Packetiser {
    var sequence: uint16
    var timestamp: uint32
    var started: bool
    ghost const origin: Origin
    ghost var frames: nat

    /** After `frames` frames the counters are where the numbering says. */
    ghost predicate Valid()
      reads this
    {
      var n := Numbered(origin, frames, []);
      sequence == n.sequence && timestamp == n.timestamp && started == (frames > 0)
    }

    constructor (o: Origin)
      ensures Valid() && origin == o && frames == 0
    {
      sequence, timestamp, started := o.sequence, o.timestamp, false;
      origin, frames := o, 0;
    }

    method Next(payload: Slice) returns (p: Packet)
      requires Valid()
      modifies this
      ensures Valid() && frames == old(frames) + 1
      ensures var n := Numbered(origin, old(frames), []);
        p == Packet(n.sequence, n.timestamp, n.marker, payload)
    {
      CountOn(origin, frames);
      p := Packet(sequence, timestamp, !started, payload);
      started := true;
      sequence := (sequence + 1) % 0x1_0000;
      timestamp := (timestamp + MX_FRAME) % 0x1_0000_0000;
      frames := frames + 1;
    }
  }

  /** A packet's contents as the buffers stand now. */
  ghost function View(ps: seq<Packet>): (r: seq<Sent>)
    requires Owned(ps)
    reads set p | p in ps :: p.payload.data
    ensures |r| == |ps|
  {
    if ps == [] then []
    else
      var p := ps[|ps| - 1];
      View(ps[..|ps| - 1]) + [Sent(p.sequence, p.timestamp, p.marker, p.payload.data[..p.payload.len])]
  }

  /** The whole 20 ms frames in a stretch of samples. */
  function Chunks<T>(wide: seq<T>): (r: seq<seq<T>>)
    ensures |r| == |wide| / MX_FRAME && forall c :: c in r ==> |c| == MX_FRAME
  {
    if |wide| < MX_FRAME then [] else [wide[..MX_FRAME]] + Chunks(wide[MX_FRAME..])
  }

  /** What encoding some frames came to: the payloads, what the codec has been fed by then, and
      whether it got through all of them. */
  datatype Encoded<T> = Encoded(payloads: seq<seq<byte>>, fed: seq<seq<T>>, ok: bool)

  /** Encodes frame after frame until the codec fails. */
  function EncodeAll<T>(codec: Codec<T>, fed: seq<seq<T>>, chunks: seq<seq<T>>): Encoded<T>
    decreases |chunks|
  {
    if chunks == [] then Encoded([], fed, true)
    else
      var next := fed + [chunks[0]];
      var c := Code(codec, next);
      if c.None? then Encoded([], next, false)
      else
        var rest := EncodeAll(codec, next, chunks[1..]);
        Encoded([c.value] + rest.payloads, rest.fed, rest.ok)
  }

  /** What one frame from WhatsApp comes to. */
  function EncodeFrame<T>(d: Design<T>, codec: Codec<T>, history: seq<T>, fed: seq<seq<T>>, pcm: seq<T>): Encoded<T>
    requires |history| + 1 == |d.kernel|
  {
    EncodeAll(codec, fed, Chunks(Filtered(d, history, Stuffed(d, pcm))))
  }

  /** Having encoded `done` and got to `fed`, encoding the rest of the samples makes `whole`. */
  ghost predicate Encodes<T>(
      codec: Codec<T>, fed: seq<seq<T>>, rest: seq<T>, done: seq<seq<byte>>, whole: Encoded<T>)
  {
    var e := EncodeAll(codec, fed, Chunks(rest));
    whole == Encoded(done + e.payloads, e.fed, e.ok)
  }

  lemma {:induction false} EncodeStep<T>(
      codec: Codec<T>, fed: seq<seq<T>>, rest: seq<T>, done: seq<seq<byte>>, whole: Encoded<T>)
    requires |rest| >= MX_FRAME && Encodes(codec, fed, rest, done, whole)
    ensures var next := fed + [rest[..MX_FRAME]]; var c := Code(codec, next);
      if c.None? then whole == Encoded(done, next, false)
      else Encodes(codec, next, rest[MX_FRAME..], done + [c.value], whole)
  {
    assert Chunks(rest)[1..] == Chunks(rest[MX_FRAME..]);
    var next := fed + [rest[..MX_FRAME]];
    var c := Code(codec, next);
    assert done + [] == done;
    if c.Some? {
      var e := EncodeAll(codec, next, Chunks(rest[MX_FRAME..]));
      assert done + ([c.value] + e.payloads) == (done + [c.value]) + e.payloads;
    }
  }

  class WAToMatrix<T(!new)> {
    const filter: LowPass<T>
    const encoder: Encoder<T>
    const packetiser: Packetiser

    ghost predicate Valid()
      reads this, filter, encoder, packetiser
    {
      && filter.Valid() && encoder.Valid() && packetiser.Valid()
      && (filter.history as object) != (encoder.buf as object)
    }

    constructor (design: Design<T>, codec: Codec<T>, o: Origin)
      requires |design.kernel| == TAPS && Fits(codec)
      ensures Valid() && packetiser.origin == o && packetiser.frames == 0 && encoder.codec == codec
      ensures filter.d == design && filter.history[..] == seq(TAPS - 1, _ => design.zero) && encoder.fed == []
      ensures fresh(filter) && fresh(filter.history) && fresh(encoder) && fresh(encoder.buf) && fresh(packetiser)
    {
      filter := new LowPass(design);
      encoder := new Encoder(codec);
      packetiser := new Packetiser(o);
    }

    /** Encodes and numbers 20 ms. A silent frame takes a number but makes no packet; a packet gets
        its own copy of the payload, which the next frame would overwrite. */
    method EncodeOne(pcm: seq<T>) returns (ok: bool, packet: Option<Packet>)
      requires Valid() && |pcm| == MX_FRAME
      modifies encoder, encoder.buf, packetiser
      ensures Valid() && encoder.fed == old(encoder.fed) + [pcm]
      ensures ok <==> Code(encoder.codec, encoder.fed).Some?
      ensures packetiser.frames == old(packetiser.frames) + if ok then 1 else 0
      ensures ok ==> (packet.None? <==> Code(encoder.codec, encoder.fed).value == [])
      ensures ok && packet.Some? ==>
        && fresh(packet.value.payload.data) && packet.value.payload.len == packet.value.payload.data.Length
        && View([packet.value])
           == [Numbered(packetiser.origin, old(packetiser.frames), Code(encoder.codec, encoder.fed).value)]
    {
      var payload := encoder.Encode(pcm);
      if payload.None? { return false, None; }
      var n := payload.value.len;
      ghost var bytes := encoder.buf[..n];
      var p := packetiser.Next(payload.value);
      if n == 0 { return true, None; }
      var copied := new byte[n](i requires 0 <= i < n <= encoder.buf.Length reads encoder.buf => encoder.buf[i]);
      assert copied[..] == bytes;
      p := p.(payload := Slice(copied, n));
      assert copied[..p.payload.len] == bytes;
      assert View([p][..0]) == [];
      return true, Some(p);
    }

    /** Encodes 48 kHz samples 20 ms at a time. */
    method EncodeWide(wide: seq<T>) returns (packets: Option<seq<Packet>>)
      requires Valid()
      modifies encoder, encoder.buf, packetiser
      ensures Valid()
      ensures var e := EncodeAll(encoder.codec, old(encoder.fed), Chunks(wide));
        && encoder.fed == e.fed && packetiser.frames == old(packetiser.frames) + |e.payloads|
        && (packets.Some? <==> e.ok)
        && (packets.Some? ==>
              && Owned(packets.value) && (forall p :: p in packets.value ==> fresh(p.payload.data))
              && View(packets.value) == Expected(packetiser.origin, old(packetiser.frames), e.payloads))
    {
      hide Expected, Numbered, View, EncodeAll, Chunks, Fits, LowPass<T>.Valid;
      ghost var o, first := packetiser.origin, packetiser.frames;
      ghost var whole := EncodeAll(encoder.codec, encoder.fed, Chunks(wide));
      var out: seq<Packet> := [];
      ghost var done: seq<seq<byte>> := [];
      var offset := 0;
      StartEmpty(o, first);
      assert wide[0..] == wide;
      while offset + MX_FRAME <= |wide|
        invariant Valid() && offset <= |wide|
        invariant packetiser.frames == first + |done|
        invariant Encodes(encoder.codec, encoder.fed, wide[offset..], done, whole)
        invariant Owned(out) && forall p :: p in out ==> fresh(p.payload.data)
        invariant View(out) == Expected(o, first, done)
        decreases |wide| - offset
      {
        EncodeStep(encoder.codec, encoder.fed, wide[offset..], done, whole);
        assert wide[offset..][..MX_FRAME] == wide[offset..offset + MX_FRAME];
        assert wide[offset..][MX_FRAME..] == wide[offset + MX_FRAME..];
        var ok, packet := EncodeOne(wide[offset..offset + MX_FRAME]);
        if !ok { return None; }
        ghost var bytes := Code(encoder.codec, encoder.fed).value;
        ExpectedSnoc(o, first, done, bytes);
        done := done + [bytes];
        offset := offset + MX_FRAME;
        if packet.Some? {
          ViewAppend(out, [packet.value]);
          out := out + [packet.value];
        }
      }
      EncodeNone(encoder.codec, encoder.fed, wide[offset..], done, whole);
      return Some(out);
    }

    /** Converts one frame into packets. If the codec fails, nothing is returned, but the frames
        encoded before keep their numbers. */
    method Frame(pcm: seq<T>) returns (packets: Option<seq<Packet>>)
      requires Valid()
      modifies filter.history, encoder, encoder.buf, packetiser
      ensures Valid()
      ensures filter.history[..] == Tail(old(filter.history[..]), Stuffed(filter.d, pcm))
      ensures var e := EncodeFrame(filter.d, encoder.codec, old(filter.history[..]), old(encoder.fed), pcm);
        && encoder.fed == e.fed && packetiser.frames == old(packetiser.frames) + |e.payloads|
        && (packets.Some? <==> e.ok)
        && (packets.Some? ==>
              && Owned(packets.value) && (forall p :: p in packets.value ==> fresh(p.payload.data))
              && View(packets.value) == Expected(packetiser.origin, old(packetiser.frames), e.payloads))
    {
      hide Expected, Numbered, View, EncodeAll, Chunks, Filtered, Stuffed, Fits;
      var wide := UpFrame(filter, pcm);
      packets := EncodeWide(wide);
    }
  }

  lemma {:induction false} EncodeNone<T>(
      codec: Codec<T>, fed: seq<seq<T>>, wide: seq<T>, done: seq<seq<byte>>, whole: Encoded<T>)
    requires |wide| < MX_FRAME && Encodes(codec, fed, wide, done, whole)
    ensures whole == Encoded(done, fed, true)
  {
    assert done + [] == done;
  }

  ghost predicate Owned(ps: seq<Packet>) {
    forall p :: p in ps ==> p.payload.len <= p.payload.data.Length
  }

  lemma {:induction false} StartEmpty(o: Origin, k: nat)
    ensures View([]) == [] && Expected(o, k, []) == []
  {
  }

  lemma {:induction false} ExpectedSnoc(o: Origin, k: nat, payloads: seq<seq<byte>>, bytes: seq<byte>)
    ensures Expected(o, k, payloads + [bytes])
         == Expected(o, k, payloads) + if bytes == [] then [] else [Numbered(o, k + |payloads|, bytes)]
  {
    ExpectedAppend(o, k, payloads, [bytes]);
    var none: seq<seq<byte>> := [bytes][1..];
    assert none == [];
  }

  /** What every frame of a call comes to, each starting from the filter's history and the codec's
      state the one before left. */
  function EncodeCall<T>(
      d: Design<T>, codec: Codec<T>, history: seq<T>, fed: seq<seq<T>>, frames: seq<seq<T>>): (r: seq<Encoded<T>>)
    requires |history| + 1 == |d.kernel|
    ensures |r| == |frames|
    decreases |frames|
  {
    if frames == [] then []
    else
      var e := EncodeFrame(d, codec, history, fed, frames[0]);
      [e] + EncodeCall(d, codec, Tail(history, Stuffed(d, frames[0])), e.fed, frames[1..])
  }

  /** What a call sends: the packets of a frame go out if the codec got through it. */
  function StreamSends<T>(o: Origin, k: nat, es: seq<Encoded<T>>): seq<Sent>
    decreases |es|
  {
    if es == [] then []
    else (if es[0].ok then Expected(o, k, es[0].payloads) else []) + StreamSends(o, k + |es[0].payloads|, es[1..])
  }

  function Total<T>(es: seq<Encoded<T>>): nat {
    if es == [] then 0 else |es[0].payloads| + Total(es[1..])
  }

  function FedAfter<T>(fed: seq<seq<T>>, es: seq<Encoded<T>>): seq<seq<T>> {
    if es == [] then fed else es[|es| - 1].fed
  }

  lemma {:induction false} CallStep<T>(
      d: Design<T>, codec: Codec<T>, o: Origin, k: nat, history: seq<T>, fed: seq<seq<T>>, frames: seq<seq<T>>)
    requires |history| + 1 == |d.kernel| && frames != []
    ensures var es := EncodeCall(d, codec, history, fed, frames);
      var e := EncodeFrame(d, codec, history, fed, frames[0]);
      var rest := EncodeCall(d, codec, Tail(history, Stuffed(d, frames[0])), e.fed, frames[1..]);
      && StreamSends(o, k, es)
         == (if e.ok then Expected(o, k, e.payloads) else []) + StreamSends(o, k + |e.payloads|, rest)
      && FedAfter(fed, es) == FedAfter(e.fed, rest)
  {
    hide Expected, EncodeFrame, Stuffed;
    var e := EncodeFrame(d, codec, history, fed, frames[0]);
    var rest := EncodeCall(d, codec, Tail(history, Stuffed(d, frames[0])), e.fed, frames[1..]);
    assert ([e] + rest)[1..] == rest;
  }

  lemma {:induction false} NoCall<T>(
      d: Design<T>, codec: Codec<T>, o: Origin, k: nat, history: seq<T>, fed: seq<seq<T>>)
    requires |history| + 1 == |d.kernel|
    ensures var es := EncodeCall(d, codec, history, fed, []); StreamSends(o, k, es) == [] && FedAfter(fed, es) == fed
  {
  }

  lemma {:induction false} ViewAppend(a: seq<Packet>, b: seq<Packet>)
    requires Owned(a) && Owned(b)
    ensures Owned(a + b)
    ensures View(a + b) == View(a) + View(b)
    decreases |b|
  {
    if b == [] {
      assert a + b == a;
    } else {
      ViewAppend(a, b[..|b| - 1]);
      assert (a + b)[..|a + b| - 1] == a + b[..|b| - 1];
    }
  }

  /** A whole call's audio. Read at the end, when every later frame has gone through the shared
      buffer, the packets still hold what the codec made of their samples. */
  method SendAll<T(!new)>(w: WAToMatrix<T>, frames: seq<seq<T>>) returns (sent: seq<Packet>)
    requires w.Valid()
    modifies w.filter.history, w.encoder, w.encoder.buf, w.packetiser
    ensures w.Valid() && Owned(sent) && forall p :: p in sent ==> fresh(p.payload.data)
    ensures var es := EncodeCall(w.filter.d, w.encoder.codec, old(w.filter.history[..]), old(w.encoder.fed), frames);
      && View(sent) == StreamSends(w.packetiser.origin, old(w.packetiser.frames), es)
      && w.encoder.fed == FedAfter(old(w.encoder.fed), es)
  {
    hide Expected, Numbered, View, StreamSends, EncodeCall, EncodeFrame, FedAfter, Stuffed, Fits;
    sent := [];
    ghost var d, codec, o := w.filter.d, w.encoder.codec, w.packetiser.origin;
    ghost var all := EncodeCall(d, codec, w.filter.history[..], w.encoder.fed, frames);
    StartEmpty(o, w.packetiser.frames);
    assert frames[0..] == frames;
    for i := 0 to |frames|
      invariant w.Valid() && Owned(sent) && forall p :: p in sent ==> fresh(p.payload.data)
      invariant var rest := EncodeCall(d, codec, w.filter.history[..], w.encoder.fed, frames[i..]);
        && View(sent) + StreamSends(o, w.packetiser.frames, rest) == StreamSends(o, old(w.packetiser.frames), all)
        && FedAfter(w.encoder.fed, rest) == FedAfter(old(w.encoder.fed), all)
    {
      CallStep(d, codec, o, w.packetiser.frames, w.filter.history[..], w.encoder.fed, frames[i..]);
      assert frames[i..][1..] == frames[i + 1..];
      var packets := w.Frame(frames[i]);
      if packets.Some? {
        ViewAppend(sent, packets.value);
        sent := sent + packets.value;
      }
    }
    assert frames[|frames|..] == [];
    NoCall(d, codec, o, w.packetiser.frames, w.filter.history[..], w.encoder.fed);
  }

  // ----- What the codec is fed -----

  /** Every payload is the codec's answer to the frames up to its own, and the codec sees one frame
      after the other up to the one it fails on. */
  lemma {:induction false} EncodeAllReads<T>(codec: Codec<T>, fed: seq<seq<T>>, chunks: seq<seq<T>>)
    ensures var e := EncodeAll(codec, fed, chunks); var n := |e.payloads|;
      && n <= |chunks| && (e.ok <==> n == |chunks|)
      && e.fed == fed + chunks[..if e.ok then n else n + 1]
      && (forall j :: 0 <= j < n ==> Code(codec, fed + chunks[..j + 1]) == Some(e.payloads[j]))
      && (!e.ok ==> Code(codec, fed + chunks[..n + 1]).None?)
    decreases |chunks|
  {
    if chunks != [] {
      var next := fed + [chunks[0]];
      EncodeAllReads(codec, next, chunks[1..]);
      var e := EncodeAll(codec, fed, chunks);
      var n := |e.payloads|;
      var upTo := if e.ok then n else n + 1;
      Onward(fed, chunks, upTo - 1);
      Onward(fed, chunks, if n < |chunks| then n else 0);
      forall j | 0 <= j < n ensures Code(codec, fed + chunks[..j + 1]) == Some(e.payloads[j]) {
        Onward(fed, chunks, j);
        if j == 0 {
          assert next + chunks[1..][..0] == next;
        } else {
          var rest := EncodeAll(codec, next, chunks[1..]);
          assert Code(codec, next + chunks[1..][..(j - 1) + 1]) == Some(rest.payloads[j - 1]);
        }
      }
    }
  }

  lemma {:induction false} Onward<T>(fed: seq<seq<T>>, chunks: seq<seq<T>>, j: nat)
    requires j < |chunks|
    ensures (fed + [chunks[0]]) + chunks[1..][..j] == fed + chunks[..j + 1]
  {
  }

  lemma {:induction false} ChunksJoin<T>(wide: seq<T>)
    requires |wide| % MX_FRAME == 0
    ensures Flatten(Chunks(wide)) == wide
    decreases |wide|
  {
    if |wide| >= MX_FRAME {
      ChunksJoin(wide[MX_FRAME..]);
      assert Chunks(wide)[1..] == Chunks(wide[MX_FRAME..]);
    }
  }

  lemma {:induction false} FedOneFrame<T>(d: Design<T>, codec: Codec<T>, history: seq<T>, fed: seq<seq<T>>, f: seq<T>)
    requires |history| + 1 == |d.kernel| && RATIO * |f| % MX_FRAME == 0
    requires EncodeFrame(d, codec, history, fed, f).ok
    ensures Flatten(EncodeFrame(d, codec, history, fed, f).fed)
         == Flatten(fed) + Filtered(d, history, Stuffed(d, f))
  {
    hide EncodeAll, Chunks, Filtered, Stuffed, Flatten;
    var wide := Filtered(d, history, Stuffed(d, f));
    EncodeAllReads(codec, fed, Chunks(wide));
    assert Chunks(wide)[..|Chunks(wide)|] == Chunks(wide);
    ChunksJoin(wide);
    FlattenAppend(fed, Chunks(wide));
  }

  /** Over a call whose frames are whole multiples of 20 ms and which the codec gets through, it is fed
      the whole stream, stuffed and filtered as one, in order and without a gap. */
  lemma {:induction false} FedIsStream<T>(
      d: Design<T>, codec: Codec<T>, history: seq<T>, fed: seq<seq<T>>, frames: seq<seq<T>>)
    requires |history| + 1 == |d.kernel|
    requires forall f :: f in frames ==> RATIO * |f| % MX_FRAME == 0
    requires forall e :: e in EncodeCall(d, codec, history, fed, frames) ==> e.ok
    ensures Flatten(FedAfter(fed, EncodeCall(d, codec, history, fed, frames)))
         == Flatten(fed) + Filtered(d, history, Stuffed(d, Flatten(frames)))
    decreases |frames|
  {
    hide EncodeFrame, Filtered, Stuffed, Tail, StreamSends, Expected, EncodeCall, FedAfter, Flatten;
    if frames == [] {
      NoCall(d, codec, Origin(0, 0), 0, history, fed);
      FlattenNone<T>();
      assert Filtered(d, history, Stuffed(d, [])) == [];
    } else {
      var f, later := frames[0], Flatten(frames[1..]);
      var h := Tail(history, Stuffed(d, f));
      var e := EncodeFrame(d, codec, history, fed, f);
      CallOk(d, codec, history, fed, frames);
      FedOneFrame(d, codec, history, fed, f);
      FedIsStream(d, codec, h, e.fed, frames[1..]);
      CallStep(d, codec, Origin(0, 0), 0, history, fed, frames);
      StuffSplit(d, f, later);
      FilterSplit(d, history, Stuffed(d, f), Stuffed(d, later));
      var a, b := Filtered(d, history, Stuffed(d, f)), Filtered(d, h, Stuffed(d, later));
      assert (Flatten(fed) + a) + b == Flatten(fed) + (a + b);
    }
  }

  lemma {:induction false} CallOk<T>(
      d: Design<T>, codec: Codec<T>, history: seq<T>, fed: seq<seq<T>>, frames: seq<seq<T>>)
    requires |history| + 1 == |d.kernel| && frames != []
    requires forall e :: e in EncodeCall(d, codec, history, fed, frames) ==> e.ok
    ensures var e := EncodeFrame(d, codec, history, fed, frames[0]);
      && e.ok
      && forall x :: x in EncodeCall(d, codec, Tail(history, Stuffed(d, frames[0])), e.fed, frames[1..]) ==> x.ok
    ensures Flatten(frames) == frames[0] + Flatten(frames[1..]) && frames[0] in frames
  {
    hide EncodeFrame, Stuffed, Tail;
    var e := EncodeFrame(d, codec, history, fed, frames[0]);
    var rest := EncodeCall(d, codec, Tail(history, Stuffed(d, frames[0])), e.fed, frames[1..]);
    assert e in [e] + rest && forall x :: x in rest ==> x in [e] + rest;
  }

  lemma {:induction false} StuffSplit<T>(d: Design<T>, a: seq<T>, b: seq<T>)
    ensures Stuffed(d, a + b) == Stuffed(d, a) + Stuffed(d, b)
  {
  }

  // ----- What the numbering promises -----

  /** The encoded frames a stream sends, as (number, payload). */
  function Kept(k: nat, payloads: seq<seq<byte>>): seq<(nat, seq<byte>)>
    decreases |payloads|
  {
    if payloads == [] then []
    else (if payloads[0] == [] then [] else [(k, payloads[0])]) + Kept(k + 1, payloads[1..])
  }

  function KeptStream<T>(k: nat, es: seq<Encoded<T>>): seq<(nat, seq<byte>)>
    decreases |es|
  {
    if es == [] then []
    else (if es[0].ok then Kept(k, es[0].payloads) else []) + KeptStream(k + |es[0].payloads|, es[1..])
  }

  predicate Rising(ks: seq<(nat, seq<byte>)>, lo: nat, hi: nat) {
    && (forall i, j :: 0 <= i < j < |ks| ==> ks[i].0 < ks[j].0)
    && (forall i :: 0 <= i < |ks| ==> lo <= ks[i].0 < hi)
  }

  ghost predicate NumberedAs(o: Origin, sent: seq<Sent>, ks: seq<(nat, seq<byte>)>) {
    |sent| == |ks| && forall i :: 0 <= i < |sent| ==> sent[i] == Numbered(o, ks[i].0, ks[i].1)
  }

  lemma {:induction false} ExpectedNumbered(o: Origin, k: nat, payloads: seq<seq<byte>>)
    ensures NumberedAs(o, Expected(o, k, payloads), Kept(k, payloads)) && Rising(Kept(k, payloads), k, k + |payloads|)
    decreases |payloads|
  {
    if payloads != [] { ExpectedNumbered(o, k + 1, payloads[1..]); }
  }

  /** Every packet of a stream carries the number of its frame, frames go out in order, and at most
      one packet is marked, the one for frame zero; whatever was silent or lost to a codec error. */
  lemma {:induction false} StreamNumbered<T>(o: Origin, k: nat, es: seq<Encoded<T>>)
    ensures var sent := StreamSends(o, k, es); var ks := KeptStream(k, es);
      && NumberedAs(o, sent, ks) && Rising(ks, k, k + Total(es))
      && (forall i, j :: 0 <= i < j < |sent| ==> !(sent[i].marker && sent[j].marker))
    decreases |es|
  {
    if es != [] {
      ExpectedNumbered(o, k, es[0].payloads);
      StreamNumbered(o, k + |es[0].payloads|, es[1..]);
    }
  }

  // ----- Which packet carries which frame -----

  /** The payloads of all encoded frames, in order. */
  function AllPayloads<T>(es: seq<Encoded<T>>): seq<seq<byte>> {
    if es == [] then [] else es[0].payloads + AllPayloads(es[1..])
  }

  /** For each of them, whether the packets of its call went out. */
  function Returned<T>(es: seq<Encoded<T>>): (r: seq<bool>)
    ensures |r| == |AllPayloads(es)|
  {
    if es == [] then [] else seq(|es[0].payloads|, _ => es[0].ok) + Returned(es[1..])
  }

  /** Packet `p` carries frame number `n` with this payload, where sequence numbers count every frame
      modulo 2^16 and timestamps its 960 samples modulo 2^32, and the first of all is marked. */
  predicate IsPacket(o: Origin, p: Sent, n: nat, payload: seq<byte>) {
    p == Sent((o.sequence + n) % 65536, (o.timestamp + 960 * n) % 4294967296, n == 0, payload)
  }

  predicate InOrder(fs: seq<nat>) { forall i, j :: 0 <= i < j < |fs| ==> fs[i] < fs[j] }

  ghost predicate EachCarries(
      o: Origin, sent: seq<Sent>, k: nat, all: seq<seq<byte>>, out: seq<bool>, fs: seq<nat>)
    requires |all| == |out|
  {
    |fs| == |sent| && forall i :: 0 <= i < |fs| ==>
      fs[i] < |all| && out[fs[i]] && all[fs[i]] != [] && IsPacket(o, sent[i], k + fs[i], all[fs[i]])
  }

  ghost predicate NoneMissing(all: seq<seq<byte>>, out: seq<bool>, fs: seq<nat>)
    requires |all| == |out|
  {
    forall f: nat :: f < |all| && out[f] && all[f] != [] ==> f in fs
  }

  /** The packets carry exactly the frames that are not silent and whose call went out, in order; `fs`
      says which. */
  ghost predicate Carry(o: Origin, sent: seq<Sent>, k: nat, all: seq<seq<byte>>, out: seq<bool>, fs: seq<nat>)
    requires |all| == |out|
  {
    InOrder(fs) && EachCarries(o, sent, k, all, out, fs) && NoneMissing(all, out, fs)
  }

  function Later(fs: seq<nat>, n: nat): (r: seq<nat>)
    ensures |r| == |fs| && forall i :: 0 <= i < |r| ==> r[i] == fs[i] + n
  {
    seq(|fs|, i requires 0 <= i < |fs| => fs[i] + n)
  }

  lemma {:induction false} CarryJoin(
      o: Origin, k: nat, a: seq<Sent>, all: seq<seq<byte>>, out: seq<bool>, fs: seq<nat>,
      b: seq<Sent>, all2: seq<seq<byte>>, out2: seq<bool>, fs2: seq<nat>)
    requires |all| == |out| && |all2| == |out2|
    requires Carry(o, a, k, all, out, fs) && Carry(o, b, k + |all|, all2, out2, fs2)
    ensures Carry(o, a + b, k, all + all2, out + out2, fs + Later(fs2, |all|))
  {
    hide InOrder, NoneMissing, IsPacket;
    OrderJoin(fs, fs2, |all|);
    EachJoin(o, k, a, all, out, fs, b, all2, out2, fs2);
    MissingJoin(all, out, fs, all2, out2, fs2);
  }

  lemma {:induction false} OrderJoin(fs: seq<nat>, fs2: seq<nat>, n: nat)
    requires InOrder(fs) && InOrder(fs2) && forall i :: 0 <= i < |fs| ==> fs[i] < n
    ensures InOrder(fs + Later(fs2, n))
  {
  }

  lemma {:induction false} EachJoin(
      o: Origin, k: nat, a: seq<Sent>, all: seq<seq<byte>>, out: seq<bool>, fs: seq<nat>,
      b: seq<Sent>, all2: seq<seq<byte>>, out2: seq<bool>, fs2: seq<nat>)
    requires |all| == |out| && |all2| == |out2|
    requires EachCarries(o, a, k, all, out, fs) && EachCarries(o, b, k + |all|, all2, out2, fs2)
    ensures EachCarries(o, a + b, k, all + all2, out + out2, fs + Later(fs2, |all|))
  {
    hide IsPacket, Later;
    var n := |all|;
    var sent, whole, went, gs := a + b, all + all2, out + out2, fs + Later(fs2, n);
    forall i | 0 <= i < |gs|
      ensures gs[i] < |whole| && went[gs[i]] && whole[gs[i]] != [] && IsPacket(o, sent[i], k + gs[i], whole[gs[i]])
    {
      if i < |fs| {
        assert gs[i] == fs[i] && sent[i] == a[i];
      } else {
        assert gs[i] == fs2[i - |fs|] + n && sent[i] == b[i - |fs|];
      }
    }
  }

  lemma {:induction false} MissingJoin(
      all: seq<seq<byte>>, out: seq<bool>, fs: seq<nat>, all2: seq<seq<byte>>, out2: seq<bool>, fs2: seq<nat>)
    requires |all| == |out| && |all2| == |out2| && NoneMissing(all, out, fs) && NoneMissing(all2, out2, fs2)
    ensures NoneMissing(all + all2, out + out2, fs + Later(fs2, |all|))
  {
    hide Later;
    var n := |all|;
    var whole, went, gs := all + all2, out + out2, fs + Later(fs2, n);
    forall f: nat | f < |whole| && went[f] && whole[f] != [] ensures f in gs {
      if f < n {
        assert f in fs;
      } else {
        var g: nat := f - n;
        assert g in fs2;
        var i :| 0 <= i < |fs2| && fs2[i] == g;
        assert gs[|fs| + i] == f;
      }
    }
  }

  lemma {:induction false} CarryOne(o: Origin, k: nat, payload: seq<byte>)
    ensures payload == [] ==> Carry(o, [], k, [payload], [true], [])
    ensures payload != [] ==> Carry(o, [Numbered(o, k, payload)], k, [payload], [true], [0])
  {
  }

  /** A call that went out. */
  lemma {:induction false} CallCarried(o: Origin, k: nat, payloads: seq<seq<byte>>) returns (fs: seq<nat>)
    ensures Carry(o, Expected(o, k, payloads), k, payloads, seq(|payloads|, _ => true), fs)
    decreases |payloads|
  {
    hide Carry, Numbered;
    if payloads == [] {
      fs := [];
      CarryNothing(o, k, [], []);
    } else {
      var p, rest := payloads[0], payloads[1..];
      var later := CallCarried(o, k + 1, rest);
      var one, at := if p == [] then [] else [Numbered(o, k, p)], if p == [] then [] else [0];
      CarryOne(o, k, p);
      CarryJoin(o, k, one, [p], [true], at, Expected(o, k + 1, rest), rest, seq(|rest|, _ => true), later);
      fs := at + Later(later, 1);
      assert [p] + rest == payloads && [true] + seq(|rest|, _ => true) == seq(|payloads|, _ => true);
    }
  }

  /** A call that did not. */
  lemma {:induction false} CarryNothing(o: Origin, k: nat, all: seq<seq<byte>>, out: seq<bool>)
    requires |all| == |out| && forall i :: 0 <= i < |out| ==> !out[i]
    ensures Carry(o, [], k, all, out, [])
  {
  }

  /** Over a whole stream: silent frames and frames lost to a codec error take their numbers, and every
      other frame goes out once, in order, under its own number. */
  lemma {:induction false} FramesNumbered<T>(o: Origin, k: nat, es: seq<Encoded<T>>) returns (fs: seq<nat>)
    ensures Carry(o, StreamSends(o, k, es), k, AllPayloads(es), Returned(es), fs)
    decreases |es|
  {
    hide Carry, Expected;
    if es == [] {
      fs := [];
      CarryNothing(o, k, [], []);
    } else {
      var e, rest := es[0], es[1..];
      var n := |e.payloads|;
      var later := FramesNumbered(o, k + n, rest);
      var first: seq<nat> := [];
      if e.ok {
        first := CallCarried(o, k, e.payloads);
      } else {
        CarryNothing(o, k, e.payloads, seq(n, _ => false));
      }
      assert seq(n, _ => true) == seq(n, _ => e.ok) || seq(n, _ => false) == seq(n, _ => e.ok);
      CarryJoin(o, k, if e.ok then Expected(o, k, e.payloads) else [], e.payloads, seq(n, _ => e.ok), first,
                StreamSends(o, k + n, rest), AllPayloads(rest), Returned(rest), later);
      fs := first + Later(later, n);
    }
  }

  /** The frames fed to the codec are consecutive stretches of 960 samples. */
  lemma {:induction false} ChunkAt<T>(wide: seq<T>, i: nat)
    requires 960 * (i + 1) <= |wide|
    ensures i < |Chunks(wide)| && Chunks(wide)[i] == wide[960 * i..960 * (i + 1)]
    decreases i
  {
    if i > 0 {
      ChunkAt(wide[960..], i - 1);
      assert wide[960..][960 * (i - 1)..960 * i] == wide[960 * i..960 * (i + 1)];
    }
  }
}
