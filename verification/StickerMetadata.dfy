/** Looking up sticker metadata in a WebP file (pkg/msgconv/wa-sticker.go): a walk over RIFF chunks
    and one over a TIFF directory, against writers that lay such files out. */
module StickerMetadata {
  import opened Prelude
  import opened Binary

  const STICKER_TAG := 0x5741

  datatype Error =
    | NotWebP | ChunkPastEnd | ChunkNotFound
    | ExifTooShort | BadByteOrder | BadMagic | DirectoryOutOfRange | EntriesOutOfRange | ValueOutOfRange | TagNotFound

  /** A subslice: where it starts and ends. */
  datatype Range = Range(start: nat, end: nat)

  predicate InRange(r: Result<Range, Error>, data: Bytes) { r.Ok? ==> r.value.start <= r.value.end <= |data| }

  const RIFF: Bytes := [82, 73, 70, 70]
  const WEBP: Bytes := [87, 69, 66, 80]
  const EXIF: Bytes := [69, 88, 73, 70]

  // ----- RIFF chunks -----

  /** The walk from position `pos` on. */
  function Walk(data: Bytes, pos: nat, kind: Bytes): (r: Result<Range, Error>)
    ensures InRange(r, data)
    decreases |data| + 8 - pos
  {
    if pos + 8 > |data| then Err(ChunkNotFound)
    else
      var start := pos + 8;
      var end := start + FromLittleEndian(data[pos + 4..pos + 8]);
      if end > |data| then Err(ChunkPastEnd)
      else if data[pos..pos + 4] == kind then Ok(Range(start, end))
      else Walk(data, if end % 2 != 0 then end + 1 else end, kind)
  }

  predicate IsWebP(data: Bytes) { |data| >= 12 && data[0..4] == RIFF && data[8..12] == WEBP }

  method FindWebPChunk(data: Bytes, kind: Bytes) returns (r: Result<Range, Error>)
    ensures InRange(r, data)
    ensures r == if IsWebP(data) then Walk(data, 12, kind) else Err(NotWebP)
  {
    if |data| < 12 || data[0..4] != RIFF || data[8..12] != WEBP {
      return Err(NotWebP);
    }
    var pos := 12;
    while pos + 8 <= |data|
      invariant Walk(data, pos, kind) == Walk(data, 12, kind)
      decreases |data| + 8 - pos
    {
      var size := FromLittleEndian(data[pos + 4..pos + 8]);
      var start := pos + 8;
      var end := start + size;
      if end > |data| {
        return Err(ChunkPastEnd);
      }
      if data[pos..pos + 4] == kind {
        return Ok(Range(start, end));
      }
      pos := end;
      if pos % 2 != 0 {
        pos := pos + 1;
      }
    }
    return Err(ChunkNotFound);
  }

  /** A WebP file starts with "RIFF", any four bytes, and "WEBP". */
  lemma {:induction false} HeaderReads(data: Bytes)
    ensures IsWebP(data) <==>
      exists size: Bytes, rest: Bytes :: |size| == 4 && data == [82, 73, 70, 70] + size + [87, 69, 66, 80] + rest
  {
    if IsWebP(data) {
      assert data == data[0..4] + data[4..8] + data[8..12] + data[12..];
    }
    if size: Bytes, rest: Bytes :| |size| == 4 && data == [82, 73, 70, 70] + size + [87, 69, 66, 80] + rest {
      assert data[0..4] == RIFF && data[8..12] == WEBP;
    }
  }

  datatype Chunk = Chunk(kind: Bytes, payload: Bytes)

  predicate ValidChunk(c: Chunk) { |c.kind| == 4 && |c.payload| < 0x1_0000_0000 }

  /** A chunk with its size and even padding (section 2.3 of RFC 9649). */
  function WriteChunk(c: Chunk): Bytes {
    c.kind + LittleEndian(|c.payload|, 4) + c.payload + if |c.payload| % 2 != 0 then [0] else []
  }

  function WriteChunks(cs: seq<Chunk>): Bytes {
    if cs == [] then [] else WriteChunk(cs[0]) + WriteChunks(cs[1..])
  }

  /** The size in the file header is not looked at. */
  function WriteWebP(cs: seq<Chunk>, size: uint32): Bytes {
    RIFF + LittleEndian(size, 4) + WEBP + WriteChunks(cs)
  }

  function FirstChunk(cs: seq<Chunk>, kind: Bytes): Option<Bytes> {
    if cs == [] then None else if cs[0].kind == kind then Some(cs[0].payload) else FirstChunk(cs[1..], kind)
  }

  /** The walk found the payload, or that there is none. */
  ghost predicate Finds(data: Bytes, r: Result<Range, Error>, wanted: Option<Bytes>, missing: Error)
    requires InRange(r, data)
  {
    if wanted.Some? then r.Ok? && data[r.value.start..r.value.end] == wanted.value else r == Err(missing)
  }

  lemma {:induction false} WalkStep(data: Bytes, pos: nat, kind: Bytes)
    ensures pos + 8 > |data| ==> Walk(data, pos, kind) == Err(ChunkNotFound)
    ensures pos + 8 <= |data| ==>
      var end := pos + 8 + FromLittleEndian(data[pos + 4..pos + 8]);
      Walk(data, pos, kind)
        == if end > |data| then Err(ChunkPastEnd)
           else if data[pos..pos + 4] == kind then Ok(Range(pos + 8, end))
           else Walk(data, if end % 2 != 0 then end + 1 else end, kind)
  {
    hide FromLittleEndian;
  }

  lemma {:induction false} WalkWritten(pre: Bytes, cs: seq<Chunk>, kind: Bytes)
    requires |pre| % 2 == 0 && forall c :: c in cs ==> ValidChunk(c)
    ensures Finds(pre + WriteChunks(cs), Walk(pre + WriteChunks(cs), |pre|, kind), FirstChunk(cs, kind), ChunkNotFound)
    decreases |cs|
  {
    hide WriteChunk, FromLittleEndian, Walk;
    var data := pre + WriteChunks(cs);
    WalkStep(data, |pre|, kind);
    if cs != [] {
      var c := cs[0];
      assert c in cs;
      ChunkHeader(pre, c, WriteChunks(cs[1..]));
      assert data == pre + WriteChunk(c) + WriteChunks(cs[1..]);
      if c.kind != kind {
        WalkWritten(pre + WriteChunk(c), cs[1..], kind);
      }
    }
  }

  lemma {:induction false} ChunkHeader(pre: Bytes, c: Chunk, rest: Bytes)
    requires ValidChunk(c)
    ensures var data := pre + WriteChunk(c) + rest; var p := |pre|;
      && |WriteChunk(c)| == 8 + |c.payload| + |c.payload| % 2 && |data| >= p + 8 + |c.payload|
      && data[p..p + 4] == c.kind && FromLittleEndian(data[p + 4..p + 8]) == |c.payload|
      && data[p + 8..p + 8 + |c.payload|] == c.payload
  {
    var data, p := pre + WriteChunk(c) + rest, |pre|;
    assert data[p..p + 4] == c.kind;
    assert data[p + 4..p + 8] == LittleEndian(|c.payload|, 4);
    assert data[p + 8..p + 8 + |c.payload|] == c.payload;
    Powers();
    RoundTrips(|c.payload|, 4);
  }

  /** For any written file, the first payload of the wanted type comes back, or an error if there is
      none. */
  lemma {:induction false} ChunkLookup(cs: seq<Chunk>, size: uint32, kind: Bytes)
    requires forall c :: c in cs ==> ValidChunk(c)
    ensures IsWebP(WriteWebP(cs, size))
    ensures Finds(WriteWebP(cs, size), Walk(WriteWebP(cs, size), 12, kind), FirstChunk(cs, kind), ChunkNotFound)
  {
    var pre := RIFF + LittleEndian(size, 4) + WEBP;
    WalkWritten(pre, cs, kind);
    assert WriteWebP(cs, size)[0..4] == RIFF && WriteWebP(cs, size)[8..12] == WEBP;
  }

  // ----- TIFF directories -----

  datatype Order = II | MM

  function Mark(o: Order): Bytes { if o == II then [73, 73] else [77, 77] }

  function Get(o: Order, s: Bytes): nat { if o == II then FromLittleEndian(s) else FromBigEndian(s) }

  function Put(o: Order, n: nat, k: nat): (s: Bytes)
    ensures |s| == k
  {
    if o == II then LittleEndian(n, k) else BigEndian(n, k)
  }

  lemma {:induction false} GetPut(o: Order, n: nat, k: nat)
    requires n < Pow256(k)
    ensures Get(o, Put(o, n, k)) == n
  {
    RoundTrips(n, k);
  }

  /** What the entry at `at` points to. The value's type is not looked at: its count is taken as a
      number of bytes. */
  function EntryValue(exif: Bytes, o: Order, at: nat): (r: Result<Range, Error>)
    requires at + 12 <= |exif|
    ensures InRange(r, exif)
  {
    var size := Get(o, exif[at + 4..at + 8]);
    if size <= 4 then Ok(Range(at + 8, at + 8 + size))
    else
      var offset := Get(o, exif[at + 8..at + 12]);
      if offset + size > |exif| then Err(ValueOutOfRange) else Ok(Range(offset, offset + size))
  }

  /** The directory walk from entry `i` on. */
  function Entries(exif: Bytes, o: Order, base: nat, count: nat, i: nat, tag: nat): (r: Result<Range, Error>)
    requires i <= count && base + count * 12 <= |exif|
    ensures InRange(r, exif)
    decreases count - i
  {
    if i == count then Err(TagNotFound)
    else if Get(o, exif[base + i * 12..base + i * 12 + 2]) != tag then Entries(exif, o, base, count, i + 1, tag)
    else EntryValue(exif, o, base + i * 12)
  }

  function TagValue(exif: Bytes, tag: nat): (r: Result<Range, Error>)
    ensures InRange(r, exif)
  {
    if |exif| < 8 then Err(ExifTooShort)
    else if exif[0..2] != Mark(II) && exif[0..2] != Mark(MM) then Err(BadByteOrder)
    else
      var o := if exif[0..2] == Mark(II) then II else MM;
      if Get(o, exif[2..4]) != 0x2A then Err(BadMagic)
      else
        var ifd := Get(o, exif[4..8]);
        if ifd + 2 > |exif| then Err(DirectoryOutOfRange)
        else
          var count := Get(o, exif[ifd..ifd + 2]);
          if ifd + 2 + count * 12 > |exif| then Err(EntriesOutOfRange)
          else Entries(exif, o, ifd + 2, count, 0, tag)
  }

  /** "II" means least significant byte first, "MM" most significant first. */
  lemma {:induction false} OrderReads(n: nat, k: nat)
    requires k > 0
    ensures Mark(II) == [73, 73] && Mark(MM) == [77, 77]
    ensures Put(II, n, k)[0] == n % 256 && Put(MM, n, k)[k - 1] == n % 256
  {
    ByteOrders(n, k);
  }

  /** What is refused before any entry is looked at: too little data, another byte order mark, another
      magic number, a directory or its entries past the end. */
  lemma {:induction false} RefusedIff(exif: Bytes, tag: nat)
    ensures |exif| < 8 ==> TagValue(exif, tag) == Err(ExifTooShort)
    ensures |exif| >= 8 ==> (TagValue(exif, tag) == Err(BadByteOrder) <==>
      !(exif[0] == 73 && exif[1] == 73) && !(exif[0] == 77 && exif[1] == 77))
    ensures |exif| >= 8 && exif[0] == 73 && exif[1] == 73 ==>
      (TagValue(exif, tag) == Err(BadMagic) <==> FromLittleEndian(exif[2..4]) != 42)
    ensures |exif| >= 8 && exif[0] == 77 && exif[1] == 77 ==>
      (TagValue(exif, tag) == Err(BadMagic) <==> FromBigEndian(exif[2..4]) != 42)
  {
    hide FromLittleEndian, FromBigEndian;
    if |exif| >= 8 {
      assert exif[0..2] == [exif[0], exif[1]];
      EntriesErrors(exif, tag);
    }
  }

  /** The directory walk has its own errors. */
  lemma {:induction false} EntriesErrors(exif: Bytes, tag: nat)
    ensures forall o, base: nat, count: nat, i: nat :: i <= count && base + count * 12 <= |exif| ==>
      Entries(exif, o, base, count, i, tag) !in {Err(BadByteOrder), Err(BadMagic)}
  {
    forall o, base: nat, count: nat, i: nat | i <= count && base + count * 12 <= |exif|
      ensures Entries(exif, o, base, count, i, tag) !in {Err(BadByteOrder), Err(BadMagic)}
    {
      EntriesError(exif, o, base, count, i, tag);
    }
  }

  lemma {:induction false} EntriesError(exif: Bytes, o: Order, base: nat, count: nat, i: nat, tag: nat)
    requires i <= count && base + count * 12 <= |exif|
    ensures Entries(exif, o, base, count, i, tag) !in {Err(BadByteOrder), Err(BadMagic)}
    decreases count - i
  {
    hide Get;
    if i < count { EntriesError(exif, o, base, count, i + 1, tag); }
  }

  lemma {:induction false} SubSlice(s: Bytes, at: nat, n: nat, lo: nat, hi: nat)
    requires at + n <= |s| && lo <= hi <= n
    ensures s[at..at + n][lo..hi] == s[at + lo..at + hi]
  {
    var whole := s[at..at + n];
    var x, y := whole[lo..hi], s[at + lo..at + hi];
    forall i | 0 <= i < hi - lo ensures x[i] == y[i] {
      assert x[i] == whole[lo + i] && y[i] == s[at + lo + i];
    }
  }

  lemma {:induction false} SubSlices(s: Bytes, at: nat)
    requires at + 12 <= |s|
    ensures var e := s[at..at + 12];
      e[0..2] == s[at..at + 2] && e[4..8] == s[at + 4..at + 8] && e[8..12] == s[at + 8..at + 12]
  {
    SubSlice(s, at, 12, 0, 2);
    SubSlice(s, at, 12, 4, 8);
    SubSlice(s, at, 12, 8, 12);
  }

  method FindEXIFTagValue(exif: Bytes, tag: nat) returns (r: Result<Range, Error>)
    ensures InRange(r, exif) && r == TagValue(exif, tag)
  {
    hide Get;
    if |exif| < 8 { return Err(ExifTooShort); }
    var o: Order;
    if exif[0..2] == Mark(II) {
      o := II;
    } else if exif[0..2] == Mark(MM) {
      o := MM;
    } else {
      return Err(BadByteOrder);
    }
    if Get(o, exif[2..4]) != 0x2A { return Err(BadMagic); }
    var ifd := Get(o, exif[4..8]);
    if ifd + 2 > |exif| { return Err(DirectoryOutOfRange); }
    var count := Get(o, exif[ifd..ifd + 2]);
    var entries := ifd + 2;
    if entries + count * 12 > |exif| { return Err(EntriesOutOfRange); }
    for i := 0 to count
      invariant Entries(exif, o, entries, count, i, tag) == TagValue(exif, tag)
    {
      var at := entries + i * 12;
      var entry := exif[at..at + 12];
      SubSlices(exif, at);
      if Get(o, entry[0..2]) != tag { continue; }
      var size := Get(o, entry[4..8]);
      if size <= 4 {
        return Ok(Range(at + 8, at + 8 + size));
      }
      var offset := Get(o, entry[8..12]);
      if offset + size > |exif| { return Err(ValueOutOfRange); }
      return Ok(Range(offset, offset + size));
    }
    return Err(TagNotFound);
  }

  /** A directory entry of type 7 (UNDEFINED), whose count is its length. */
  datatype Tag = Tag(tag: uint16, value: Bytes)

  function FirstTag(es: seq<Tag>, tag: nat): Option<Bytes> {
    if es == [] then None else if es[0].tag == tag then Some(es[0].value) else FirstTag(es[1..], tag)
  }

  /** `exif` holds entry `e` at `at`: its tag and length, and its value inline or at an offset. */
  ghost predicate HoldsEntry(exif: Bytes, o: Order, at: nat, e: Tag) {
    && at + 12 <= |exif|
    && Get(o, exif[at..at + 2]) == e.tag
    && Get(o, exif[at + 4..at + 8]) == |e.value|
    && if |e.value| <= 4 then exif[at + 8..at + 8 + |e.value|] == e.value
       else
         var offset := Get(o, exif[at + 8..at + 12]);
         offset + |e.value| <= |exif| && exif[offset..offset + |e.value|] == e.value
  }

  ghost predicate HoldsEntries(exif: Bytes, o: Order, base: nat, es: seq<Tag>) {
    forall i :: 0 <= i < |es| ==> HoldsEntry(exif, o, base + i * 12, es[i])
  }

  /** However the values are laid out, the first entry with the tag is found. */
  lemma {:induction false} EntriesLookup(exif: Bytes, o: Order, base: nat, es: seq<Tag>, i: nat, tag: nat)
    requires HoldsEntries(exif, o, base, es) && i <= |es| && base + |es| * 12 <= |exif|
    ensures Finds(exif, Entries(exif, o, base, |es|, i, tag), FirstTag(es[i..], tag), TagNotFound)
    decreases |es| - i
  {
    if i < |es| {
      assert HoldsEntry(exif, o, base + i * 12, es[i]);
      assert es[i..][0] == es[i] && es[i..][1..] == es[i + 1..];
      EntriesLookup(exif, o, base, es, i + 1, tag);
    }
  }

  // A writer: header, directory, then the values that do not fit their entries.

  predicate Inline(v: Bytes) { |v| <= 4 }

  function WriteEntry(o: Order, e: Tag, offset: nat): (s: Bytes)
    ensures |s| == 12
  {
    Put(o, e.tag, 2) + Put(o, 7, 2) + Put(o, |e.value|, 4)
      + if Inline(e.value) then e.value + seq(4 - |e.value|, _ => 0) else Put(o, offset, 4)
  }

  function After(e: Tag, offset: nat): nat { if Inline(e.value) then offset else offset + |e.value| }

  function WriteEntries(o: Order, es: seq<Tag>, offset: nat): (s: Bytes)
    ensures |s| == 12 * |es|
    decreases |es|
  {
    if es == [] then [] else WriteEntry(o, es[0], offset) + WriteEntries(o, es[1..], After(es[0], offset))
  }

  function Values(es: seq<Tag>): Bytes {
    if es == [] then [] else (if Inline(es[0].value) then [] else es[0].value) + Values(es[1..])
  }

  function ValuesStart(es: seq<Tag>): nat { 14 + 12 * |es| }

  function WriteTIFF(o: Order, es: seq<Tag>): Bytes {
    Mark(o) + Put(o, 0x2A, 2) + Put(o, 8, 4) + Put(o, |es|, 2)
    + WriteEntries(o, es, ValuesStart(es)) + Put(o, 0, 4) + Values(es)
  }

  lemma {:induction false} EntryFields(o: Order, e: Tag, offset: nat)
    requires |e.value| < 0x1_0000_0000 && offset < 0x1_0000_0000
    ensures var s := WriteEntry(o, e, offset);
      && Get(o, s[0..2]) == e.tag && Get(o, s[4..8]) == |e.value|
      && (Inline(e.value) ==> s[8..8 + |e.value|] == e.value)
      && (!Inline(e.value) ==> Get(o, s[8..12]) == offset)
  {
    hide Put, Get;
    var s := WriteEntry(o, e, offset);
    Powers();
    assert s[0..2] == Put(o, e.tag, 2) && s[4..8] == Put(o, |e.value|, 4);
    if !Inline(e.value) { assert s[8..12] == Put(o, offset, 4); }
    GetPut(o, e.tag, 2);
    GetPut(o, |e.value|, 4);
    GetPut(o, offset, 4);
  }

  lemma {:induction false} EntryHeld(exif: Bytes, o: Order, pre: Bytes, e: Tag, offset: nat, tail: Bytes)
    requires exif == pre + WriteEntry(o, e, offset) + tail && |exif| < 0x1_0000_0000
    requires !Inline(e.value) ==> offset + |e.value| <= |exif| && exif[offset..offset + |e.value|] == e.value
    requires Inline(e.value) ==> offset <= |exif|
    ensures HoldsEntry(exif, o, |pre|, e)
  {
    hide Get, WriteEntry;
    EntryFields(o, e, offset);
    assert exif[|pre|..|pre| + 12] == WriteEntry(o, e, offset);
    SubSlices(exif, |pre|);
    if Inline(e.value) { SubSlice(exif, |pre|, 12, 8, 8 + |e.value|); }
  }

  lemma {:induction false} Regroup(a: Bytes, b: Bytes, c: Bytes, d: Bytes, e: Bytes, f: Bytes, g: Bytes)
    ensures a + (b + c) + d + e + (f + g) == (a + b) + c + d + (e + f) + g
    ensures a + (b + c) + d + e + (f + g) == a + b + (c + d + e + (f + g))
    ensures a + (b + c) + d + e + (f + g) == (a + (b + c) + d + e) + f + g
  {
  }

  /** Entries written at `|pre|`, with their values further on at `offset`. */
  lemma {:induction false} WrittenEntries(
      o: Order, pre: Bytes, es: seq<Tag>, mid: Bytes, offset: nat, done: Bytes, exif: Bytes)
    requires exif == pre + WriteEntries(o, es, offset) + mid + done + Values(es)
    requires offset == |pre| + 12 * |es| + |mid| + |done| && |exif| < 0x1_0000_0000
    ensures HoldsEntries(exif, o, |pre|, es)
    decreases |es|
  {
    hide Get, WriteEntry, HoldsEntry;
    if es != [] {
      var e, rest := es[0], es[1..];
      var first, more := WriteEntry(o, e, offset), WriteEntries(o, rest, After(e, offset));
      var v := if Inline(e.value) then [] else e.value;
      Regroup(pre, first, more, mid, done, v, Values(rest));
      if !Inline(e.value) {
        var before := pre + (first + more) + mid + done;
        assert |before| == offset && (before + v + Values(rest))[offset..offset + |v|] == v;
      }
      EntryHeld(exif, o, pre, e, offset, more + mid + done + (v + Values(rest)));
      WrittenEntries(o, pre + first, rest, mid, After(e, offset), done + v, exif);
      forall i | 0 <= i < |es| ensures HoldsEntry(exif, o, |pre| + i * 12, es[i]) {
        if i > 0 { assert HoldsEntry(exif, o, |pre + first| + (i - 1) * 12, rest[i - 1]); }
      }
    }
  }

  /** For any written directory, in either byte order, the first entry with the tag comes back, be it
      stored inline or by offset, or an error if there is none. */
  lemma {:induction false} TagLookup(o: Order, es: seq<Tag>, tag: nat)
    requires |es| < 0x1_0000 && |WriteTIFF(o, es)| < 0x1_0000_0000
    ensures Finds(WriteTIFF(o, es), TagValue(WriteTIFF(o, es), tag), FirstTag(es, tag), TagNotFound)
  {
    hide Get, Put, WriteEntries, Values, Entries, FirstTag;
    var exif := WriteTIFF(o, es);
    var pre := Mark(o) + Put(o, 0x2A, 2) + Put(o, 8, 4) + Put(o, |es|, 2);
    Powers();
    assert exif[0..2] == Mark(o) && exif[2..4] == Put(o, 0x2A, 2) && exif[4..8] == Put(o, 8, 4)
      && exif[8..10] == Put(o, |es|, 2);
    GetPut(o, 0x2A, 2);
    GetPut(o, 8, 4);
    GetPut(o, |es|, 2);
    assert exif == pre + WriteEntries(o, es, ValuesStart(es)) + Put(o, 0, 4) + [] + Values(es);
    WrittenEntries(o, pre, es, Put(o, 0, 4), ValuesStart(es), [], exif);
    EntriesLookup(exif, o, 10, es, 0, tag);
    assert es[0..] == es;
  }

  /** The lookup as a whole: the tag's bytes in the file's EXIF chunk. */
  method ExtractStickerMetadata(data: Bytes) returns (r: Result<Bytes, Error>)
    ensures r == Extracted(data)
  {
    var exif := FindWebPChunk(data, EXIF);
    if exif.Err? { return Err(exif.error); }
    var payload := data[exif.value.start..exif.value.end];
    var raw := FindEXIFTagValue(payload, STICKER_TAG);
    if raw.Err? { return Err(raw.error); }
    return Ok(payload[raw.value.start..raw.value.end]);
  }

  function Extracted(data: Bytes): Result<Bytes, Error> {
    if !IsWebP(data) then Err(NotWebP)
    else
      match Walk(data, 12, EXIF)
      case Err(e) => Err(e)
      case Ok(c) =>
        var payload := data[c.start..c.end];
        match TagValue(payload, STICKER_TAG)
        case Err(e) => Err(e)
        case Ok(v) => Ok(payload[v.start..v.end])
  }

  /** Metadata written under the sticker tag, into the first EXIF chunk of a file with any other
      chunks around it, is what the lookup returns. */
  lemma {:induction false} StickerRoundTrip(cs: seq<Chunk>, size: uint32, o: Order, es: seq<Tag>)
    requires forall c :: c in cs ==> ValidChunk(c)
    requires |es| < 0x1_0000 && |WriteTIFF(o, es)| < 0x1_0000_0000
    requires FirstChunk(cs, EXIF) == Some(WriteTIFF(o, es))
    ensures Extracted(WriteWebP(cs, size))
         == (match FirstTag(es, STICKER_TAG) case Some(v) => Ok(v) case None => Err(TagNotFound))
  {
    hide Walk, TagValue, WriteTIFF, WriteWebP;
    ChunkLookup(cs, size, EXIF);
    TagLookup(o, es, STICKER_TAG);
  }
}
