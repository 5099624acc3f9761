/** WhatsApp markup to HTML (pkg/msgconv/wa-text.go): code fences first, then lists line by line. The
    inline formatter is not part of this model: a token that carries a line's text stands for that
    text formatted. */
module WaText {
  import opened Prelude

  // ----- Lines -----

  /** strings.Split(text, "\n") */
  function Lines(text: string): (ls: seq<string>)
    ensures ls != []
  {
    if text == "" then [""]
    else
      var rest := Lines(text[1..]);
      if text[0] == '\n' then [""] + rest else [[text[0]] + rest[0]] + rest[1..]
  }

  function Joined(ls: seq<string>): string
    requires ls != []
  {
    if |ls| == 1 then ls[0] else ls[0] + "\n" + Joined(ls[1..])
  }

  /** Splitting keeps the text, and no line holds a line break. */
  lemma {:induction false} LinesJoin(text: string)
    ensures Joined(Lines(text)) == text
    ensures forall i :: 0 <= i < |Lines(text)| ==> '\n' !in Lines(text)[i]
  {
    if text != "" {
      LinesJoin(text[1..]);
      var rest := Lines(text[1..]);
      if text[0] == '\n' {
        assert Lines(text)[1..] == rest;
      } else {
        assert Lines(text)[1..] == rest[1..];
      }
    }
  }

  /** What a line is, by its first characters. */
  datatype Line = Bullet(text: string) | Item(digits: string, text: string) | Quote(text: string) | Plain(text: string)

  predicate IsDigit(c: char) { '0' <= c <= '9' }

  predicate StartsWith(s: string, prefix: string) { |prefix| <= |s| && s[..|prefix|] == prefix }

  /** How many digits open an ordered list item: one or two, then a dot and a space. */
  function ItemDigits(line: string): nat {
    if |line| >= 4 && IsDigit(line[0]) && IsDigit(line[1]) && line[2] == '.' && line[3] == ' ' then 2
    else if |line| >= 3 && IsDigit(line[0]) && line[1] == '.' && line[2] == ' ' then 1
    else 0
  }

  function Classify(line: string): Line {
    if StartsWith(line, "* ") || StartsWith(line, "- ") then Bullet(line[2..])
    else if ItemDigits(line) > 0 then Item(line[..ItemDigits(line)], line[ItemDigits(line) + 2..])
    else if StartsWith(line, "> ") then Quote(line[2..])
    else Plain(line)
  }

  /** A line of each kind, as it is typed. */
  predicate Writes(l: Line, line: string) {
    match l
    case Bullet(text) => line == "* " + text || line == "- " + text
    case Item(digits, text) => line == digits + ". " + text && 1 <= |digits| <= 2 && AllDigits(digits)
    case Quote(text) => line == "> " + text
    case Plain(text) => line == text
  }

  predicate AllDigits(s: string) { forall i :: 0 <= i < |s| ==> '0' <= s[i] <= '9' }

  /** A line is a bullet, item or quote exactly when it is typed as one, and plain, whole as it is,
      exactly when it is typed as none of them. */
  lemma {:induction false} ClassifyIff(line: string)
    ensures forall l: Line :: !l.Plain? ==> (Writes(l, line) <==> Classify(line) == l)
    ensures Classify(line) == Plain(line) <==> forall l :: Writes(l, line) ==> l.Plain?
  {
    hide Classify, Writes;
    WritesClassified(line);
    forall l: Line | !l.Plain? && Writes(l, line) ensures Classify(line) == l {
      WrittenIs(line, l);
    }
    PlainWrites(line);
  }

  lemma {:induction false} PlainWrites(line: string)
    ensures forall text :: Writes(Plain(text), line) <==> text == line
  {
  }

  lemma {:induction false} WrittenIs(line: string, l: Line)
    requires !l.Plain? && Writes(l, line)
    ensures Classify(line) == l
  {
    match l
    case Bullet(text) => assert line[2..] == text && (line[..2] == "* " || line[..2] == "- ");
    case Item(digits, text) =>
      var n := |digits|;
      assert line[..n] == digits && line[n] == '.' && line[n + 1] == ' ' && line[n + 2..] == text;
      assert line[0] == digits[0] && (n == 2 ==> line[1] == digits[1]);
      assert IsDigit(line[0]) && (n == 2 ==> IsDigit(line[1])) && line[..2][0] == line[0];
      assert ItemDigits(line) == n;
    case Quote(text) => assert line[2..] == text && line[..2] == "> ";
  }

  lemma {:induction false} WritesClassified(line: string)
    ensures Writes(Classify(line), line)
  {
    hide ItemDigits;
    match Classify(line)
    case Bullet(text) => assert line == line[..2] + line[2..];
    case Item(digits, text) => ItemWritten(line);
    case Quote(text) => assert line == line[..2] + line[2..];
    case Plain(text) =>
  }

  lemma {:induction false} ItemWritten(line: string)
    requires ItemDigits(line) > 0
    ensures var n := ItemDigits(line); n + 2 <= |line| && Writes(Item(line[..n], line[n + 2..]), line)
  {
    var n := ItemDigits(line);
    assert line == line[..n] + line[n..n + 2] + line[n + 2..] && line[n..n + 2] == ". ";
  }

  /** Decimal digits as a number, both for Atoi and for an HTML reader of start and value. */
  function Number(digits: string): nat {
    if digits == "" then 0
    else
      var last := digits[|digits| - 1];
      10 * Number(digits[..|digits| - 1]) + if IsDigit(last) then last as int - '0' as int else 0
  }

  /** The number of an item of one or two digits. */
  lemma {:induction false} NumberReads(digits: string)
    requires 1 <= |digits| <= 2 && AllDigits(digits)
    ensures |digits| == 1 ==> Number(digits) == digits[0] as int - '0' as int
    ensures |digits| == 2 ==> Number(digits) == 10 * (digits[0] as int - '0' as int) + (digits[1] as int - '0' as int)
  {
    assert Number(digits[..|digits| - 1][..0]) == 0;
    if |digits| == 1 {
      assert digits[..0] == "";
    } else {
      assert digits[..1][..0] == "" && digits[..1][0] == digits[0];
    }
  }

  // ----- Output -----

  datatype Token =
    | Br
    | Ul
    | EndUl
    | Ol(start: Option<string>)
    | EndOl
    | Li(value: Option<string>, text: string)
    | BlockQuote(text: string)
    | Inline(text: string)
    | Code(content: string, block: bool)

  /** The variables of the line loop. */
  datatype ListState = ListState(ordered: int, bulleted: bool, quoted: bool)

  const START := ListState(-1, false, false)

  /** One turn of the line loop. */
  function Turn(st: ListState, first: bool, line: string): (ListState, seq<Token>) {
    var br := if !first && st.ordered < 0 && !st.bulleted && !st.quoted then [Br] else [];
    match Classify(line)
    case Bullet(text) =>
      (ListState(-1, true, false),
       br + (if st.ordered >= 0 then [EndOl] else []) + (if !st.bulleted then [Ul] else []) + [Li(None, text)])
    case Item(digits, text) =>
      var n := Number(digits);
      var previous := if st.ordered < 0 then n - 1 else st.ordered;
      (ListState(n, false, false),
       br + (if st.bulleted then [EndUl] else [])
          + (if st.ordered < 0 then [Ol(if n != 1 then Some(digits) else None)] else [])
          + [Li(if previous + 1 != n then Some(digits) else None, text)])
    case Quote(text) =>
      (ListState(-1, if st.ordered >= 0 then st.bulleted else false, true), br + Closing(st) + [BlockQuote(text)])
    case Plain(text) =>
      (ListState(-1, if st.ordered >= 0 then st.bulleted else false, false), br + Closing(st) + [Inline(text)])
  }

  function Closing(st: ListState): seq<Token> {
    if st.ordered >= 0 then [EndOl] else if st.bulleted then [EndUl] else []
  }

  function Turns(st: ListState, first: bool, lines: seq<string>): seq<Token>
    decreases |lines|
  {
    if lines == [] then Closing(st)
    else var (next, out) := Turn(st, first, lines[0]); out + Turns(next, false, lines[1..])
  }

  /** The body of the line loop. */
  method FormatLine(line: string, first: bool, st: ListState) returns (next: ListState, output: seq<Token>)
    requires st.ordered >= -1
    ensures (next, output) == Turn(st, first, line) && next.ordered >= -1
  {
    hide Number, ItemDigits, StartsWith;
    var ordered, bulleted, quoted := st.ordered, st.bulleted, st.quoted;
    output := [];
    if !first && ordered < 0 && !bulleted && !quoted {
      output := output + [Br];
    }
    quoted := false;
    match Classify(line) {
      case Bullet(text) =>
        if ordered >= 0 {
          ordered := -1;
          output := output + [EndOl];
        }
        if !bulleted {
          output := output + [Ul];
          bulleted := true;
        }
        output := output + [Li(None, text)];
      case Item(digits, text) =>
        if bulleted {
          output := output + [EndUl];
          bulleted := false;
        }
        var newIndex: int := Number(digits);
        if ordered < 0 {
          output := output + [Ol(if newIndex != 1 then Some(digits) else None)];
          ordered := newIndex - 1;
        }
        output := output + [Li(if ordered + 1 != newIndex then Some(digits) else None, text)];
        ordered := newIndex;
      case Quote(text) =>
        if ordered >= 0 {
          ordered := -1;
          output := output + [EndOl];
        } else if bulleted {
          output := output + [EndUl];
          bulleted := false;
        }
        output := output + [BlockQuote(text)];
        quoted := true;
      case Plain(text) =>
        if ordered >= 0 {
          ordered := -1;
          output := output + [EndOl];
        } else if bulleted {
          output := output + [EndUl];
          bulleted := false;
        }
        output := output + [Inline(text)];
    }
    next := ListState(ordered, bulleted, quoted);
    assert output == Turn(st, first, line).1;
  }

  /** Formats one run of text outside code fences. */
  method FormatRun(text: string) returns (output: seq<Token>)
    ensures output == Turns(START, true, Lines(text))
  {
    hide Turn;
    var lines := Lines(text);
    var st := START;
    output := [];
    ghost var all := Turns(START, true, lines);
    assert lines[0..] == lines;
    for i := 0 to |lines|
      invariant st.ordered >= -1
      invariant output + Turns(st, i == 0, lines[i..]) == all
    {
      var next, out := FormatLine(lines[i], i == 0, st);
      assert lines[i..][1..] == lines[i + 1..];
      st := next;
      output := output + out;
    }
    if st.ordered >= 0 {
      output := output + [EndOl];
    } else if st.bulleted {
      output := output + [EndUl];
    }
  }

  // ----- What a browser makes of it -----

  datatype Shown =
    | ShownBullet(text: string)
    | ShownItem(ordinal: int, text: string)
    | ShownQuote(text: string)
    | ShownText(text: string)
    | ShownCode(content: string)

  /** Where the reader is: outside lists, in an unordered list, or in an ordered one whose next item
      has ordinal `next`. `mid` says that a line of text has not been ended. */
  datatype Reading = Outside(mid: bool) | InUl | InOl(next: int)

  datatype Step = Bad | Good(shown: seq<Shown>, at: Reading)

  /** Reads one token: lists must not nest, items belong in lists of their kind, text in lists is an
      error. A line of text must be ended before anything but code follows, and a line break ends one;
      numbers that count on anyway must not be spelled out, and code is a block when it has lines.
      Ordinals follow sections 4.4.5 and 4.4.8 of the HTML Standard: an item without value counts on
      from the one before, the first from the list's start. */
  function ReadToken(t: Token, at: Reading): Step {
    match (at, t)
    case (Outside(mid), Br) => if mid then Good([], Outside(false)) else Bad
    case (Outside(mid), Ul) => if mid then Bad else Good([], InUl)
    case (Outside(mid), Ol(start)) =>
      if mid || (start.Some? && Number(start.value) == 1) then Bad
      else Good([], InOl(if start.Some? then Number(start.value) else 1))
    case (Outside(mid), BlockQuote(text)) => if mid then Bad else Good([ShownQuote(text)], Outside(false))
    case (Outside(mid), Inline(text)) => if mid then Bad else Good([ShownText(text)], Outside(true))
    case (Outside(_), Code(content, block)) =>
      if block == ('\n' in content) then Good([ShownCode(content)], Outside(false)) else Bad
    case (InUl, Li(None, text)) => Good([ShownBullet(text)], InUl)
    case (InUl, EndUl) => Good([], Outside(false))
    case (InOl(next), Li(value, text)) =>
      if value.Some? && Number(value.value) == next then Bad
      else
        var n := if value.Some? then Number(value.value) else next;
        Good([ShownItem(n, text)], InOl(n + 1))
    case (InOl(_), EndOl) => Good([], Outside(false))
    case _ => Bad
  }

  function Read(ts: seq<Token>, at: Reading): Step
    decreases |ts|
  {
    if ts == [] then Good([], at)
    else
      match ReadToken(ts[0], at)
      case Bad => Bad
      case Good(shown, next) =>
        match Read(ts[1..], next)
        case Bad => Bad
        case Good(more, end) => Good(shown + more, end)
  }

  lemma {:induction false} ReadAppend(a: seq<Token>, b: seq<Token>, at: Reading)
    requires Read(a, at).Good?
    ensures Read(a + b, at) == (match Read(b, Read(a, at).at)
                                case Bad => Bad
                                case Good(more, end) => Good(Read(a, at).shown + more, end))
    decreases |a|
  {
    if a == [] {
      assert a + b == b;
    } else {
      assert (a + b)[1..] == a[1..] + b;
      ReadAppend(a[1..], b, ReadToken(a[0], at).at);
    }
  }

  /** What the user typed. */
  function Typed(line: string): Shown {
    match Classify(line)
    case Bullet(text) => ShownBullet(text)
    case Item(digits, text) => ShownItem(Number(digits), text)
    case Quote(text) => ShownQuote(text)
    case Plain(text) => ShownText(text)
  }

  function TypedAll(lines: seq<string>): seq<Shown> {
    if lines == [] then [] else [Typed(lines[0])] + TypedAll(lines[1..])
  }

  /** The loop's variables describe the reader's position. */
  predicate Agrees(st: ListState, first: bool, at: Reading) {
    && !(st.ordered >= 0 && st.bulleted)
    && (st.ordered >= 0 ==> at == InOl(st.ordered + 1))
    && (st.bulleted ==> at == InUl)
    && (st.ordered < 0 && !st.bulleted ==> at.Outside? && (at.mid <==> !first && !st.quoted))
  }

  function Then(a: Step, b: Token): Step {
    match a
    case Bad => Bad
    case Good(s, n) =>
      match ReadToken(b, n)
      case Bad => Bad
      case Good(more, end) => Good(s + more, end)
  }

  lemma {:induction false} ReadShort(a: Token, b: Token, c: Token, at: Reading)
    ensures Read([a], at) == ReadToken(a, at)
    ensures Read([a, b], at) == Then(ReadToken(a, at), b)
    ensures Read([a, b, c], at) == Then(Then(ReadToken(a, at), b), c)
  {
    hide ReadToken;
    ReadOne(a, at);
    ReadThen([a], b, at);
    ReadThen([a, b], c, at);
    assert [a] + [b] == [a, b] && [a, b] + [c] == [a, b, c];
  }

  lemma {:induction false} ReadThen(ts: seq<Token>, t: Token, at: Reading)
    ensures Read(ts + [t], at) == Then(Read(ts, at), t)
    decreases |ts|
  {
    hide ReadToken;
    if ts == [] {
      assert ts + [t] == [t];
      ReadOne(t, at);
    } else {
      assert (ts + [t])[1..] == ts[1..] + [t];
      if ReadToken(ts[0], at).Good? { ReadThen(ts[1..], t, ReadToken(ts[0], at).at); }
    }
  }

  lemma {:induction false} ReadOne(a: Token, at: Reading)
    ensures Read([a], at) == ReadToken(a, at)
  {
    hide ReadToken;
    assert [a][1..] == [];
  }

  /** Every turn leaves the reader where the variables say, having shown what was typed. */
  lemma {:induction false} TurnReads(st: ListState, first: bool, at: Reading, line: string)
    requires Agrees(st, first, at)
    ensures var (next, out) := Turn(st, first, line);
      && Read(out, at).Good? && Read(out, at).shown == [Typed(line)]
      && Agrees(next, false, Read(out, at).at)
  {
    hide Classify, Number, Read, Turn, Then;
    var (next, out) := Turn(st, first, line);
    TurnSteps(st, first, at, line);
    if |out| == 1 {
      assert out == [out[0]];
      ReadShort(out[0], Br, Br, at);
    } else if |out| == 2 {
      assert out == [out[0], out[1]];
      ReadShort(out[0], out[1], Br, at);
    } else {
      assert out == [out[0], out[1], out[2]];
      ReadShort(out[0], out[1], out[2], at);
    }
  }

  /** The tokens of a turn, spelled out. */
  function Spelled(st: ListState, first: bool, line: Line): seq<Token> {
    var last := match line
      case Bullet(text) => Li(None, text)
      case Item(digits, text) =>
        Li(if st.ordered >= 0 && st.ordered + 1 != Number(digits) then Some(digits) else None, text)
      case Quote(text) => BlockQuote(text)
      case Plain(text) => Inline(text);
    var open := match line
      case Bullet(_) => [Ul]
      case Item(digits, _) => [Ol(if Number(digits) != 1 then Some(digits) else None)]
      case _ => [];
    if (line.Bullet? && st.bulleted && st.ordered < 0) || (line.Item? && st.ordered >= 0 && !st.bulleted) then [last]
    else
      (if st.ordered >= 0 then [EndOl] else if st.bulleted then [EndUl] else if !first && !st.quoted then [Br] else [])
      + open + [last]
  }

  lemma {:induction false} TurnSpelled(st: ListState, first: bool, line: string)
    requires !(st.ordered >= 0 && st.bulleted)
    ensures Turn(st, first, line).1 == Spelled(st, first, Classify(line))
  {
    hide Classify, Number;
  }

  /** The same, token by token. */
  lemma {:induction false} TurnSteps(st: ListState, first: bool, at: Reading, line: string)
    requires Agrees(st, first, at)
    ensures var (next, out) := Turn(st, first, line);
      && 1 <= |out| <= 3
      && var r := if |out| == 1 then ReadToken(out[0], at)
                  else if |out| == 2 then Then(ReadToken(out[0], at), out[1])
                  else Then(Then(ReadToken(out[0], at), out[1]), out[2]);
      r.Good? && r.shown == [Typed(line)] && Agrees(next, false, r.at)
  {
    hide Classify, Number;
    TurnSpelled(st, first, line);
    var out := Turn(st, first, line).1;
    if st.ordered >= 0 || st.bulleted {
      match Classify(line)
      case Bullet(_) =>
      case Item(_, _) =>
      case _ => assert |out| == 2;
    } else if |out| == 3 {
      assert out[0] == Br;
    }
  }

  lemma {:induction false} TurnsRead(st: ListState, first: bool, at: Reading, lines: seq<string>)
    requires Agrees(st, first, at)
    ensures var r := Read(Turns(st, first, lines), at); r.Good? && r.at.Outside? && r.shown == TypedAll(lines)
    decreases |lines|
  {
    if lines == [] {
      var end := Closing(st);
      if end != [] { assert end[1..] == []; }
    } else {
      var (next, out) := Turn(st, first, lines[0]);
      TurnReads(st, first, at, lines[0]);
      TurnsRead(next, false, Read(out, at).at, lines[1..]);
      ReadAppend(out, Turns(next, false, lines[1..]), at);
    }
  }

  /** For every text: the lists are balanced, never nested and never left open, every item is in a
      list of its kind, and a browser shows each line as it was typed, with the number typed. */
  lemma {:induction false} RunKeepsMeaning(text: string)
    ensures var r := Read(Turns(START, true, Lines(text)), Outside(false));
      r.Good? && r.at.Outside? && r.shown == TypedAll(Lines(text))
  {
    TurnsRead(START, true, Outside(false), Lines(text));
  }

  // ----- Code fences -----

  const FENCE := "```"

  datatype Piece = Run(text: string) | Fence(content: string)

  /** Unicode white space, as strings.TrimSpace sees it. */
  predicate IsSpace(c: char) {
    c in "\t\n\r " || c == '\U{000B}' || c == '\U{000C}' || c == '\U{0085}' || c == '\U{00A0}' || c == '\U{1680}'
      || '\U{2000}' <= c <= '\U{200A}' || c == '\U{2028}' || c == '\U{2029}' || c == '\U{202F}' || c == '\U{205F}'
        || c == '\U{3000}'
  }

  /** In ASCII and Latin-1: tab to carriage return, space, next line and no-break space. */
  lemma {:induction false} SpaceReads(c: char)
    requires c < '\U{0100}'
    ensures IsSpace(c) <==> '\U{0009}' <= c <= '\U{000D}' || c == ' ' || c == '\U{0085}' || c == '\U{00A0}'
  {
  }

  predicate Blank(s: string) { forall i :: 0 <= i < |s| ==> IsSpace(s[i]) }

  predicate FenceAt(text: string, i: int) {
    0 <= i <= |text| - 3 && text[i] == '`' && text[i + 1] == '`' && text[i + 2] == '`'
  }

  predicate NoFence(text: string) { forall i :: 0 <= i <= |text| - 3 ==> !FenceAt(text, i) }

  /** strings.Index of a fence, from a position on. */
  function FindFence(text: string, from: nat): (r: Option<nat>)
    requires from <= |text|
    ensures r.Some? ==> from <= r.value <= |text| - 3
    decreases |text| - from
  {
    if FenceAt(text, from) then Some(from) else if from == |text| then None else FindFence(text, from + 1)
  }

  lemma {:induction false} FindFenceFirst(text: string, from: nat)
    requires from <= |text|
    ensures var r := FindFence(text, from);
      && (r.Some? ==> FenceAt(text, r.value) && forall i :: from <= i < r.value ==> !FenceAt(text, i))
      && (r.None? ==> forall i :: from <= i ==> !FenceAt(text, i))
    decreases |text| - from
  {
    if !FenceAt(text, from) && from < |text| { FindFenceFirst(text, from + 1); }
  }

  /** The next closed, nonblank block from `from` on: where its opening fence starts and where its
      closing fence ends. A block that would be blank may close at the fence after. */
  function NextBlock(text: string, from: nat): (r: Option<(nat, nat)>)
    requires from <= |text|
    ensures r.Some? ==> from <= r.value.0 <= r.value.1 - 6 <= |text| - 6
  {
    var start := FindFence(text, from);
    if start.None? then None else
    var end := FindFence(text, start.value + 3);
    if end.None? then None else
    if !Blank(text[start.value + 3..end.value]) then Some((start.value, end.value + 3)) else
    var again := FindFence(text, end.value + 3);
    if again.None? then None else Some((start.value, again.value + 3))
  }

  function RunPiece(text: string): seq<Piece> { if text == "" then [] else [Run(text)] }

  function Scan(text: string, from: nat): seq<Piece>
    requires from <= |text|
    decreases |text| - from
  {
    var b := NextBlock(text, from);
    if b.None? then RunPiece(text[from..])
    else RunPiece(text[from..b.value.0]) + [Fence(text[b.value.0 + 3..b.value.1 - 3])] + Scan(text, b.value.1)
  }

  function FormatPiece(p: Piece): seq<Token> {
    match p
    case Run(text) => Turns(START, true, Lines(text))
    case Fence(content) => [Code(content, '\n' in content)]
  }

  function FormatPieces(ps: seq<Piece>): seq<Token> {
    if ps == [] then [] else FormatPiece(ps[0]) + FormatPieces(ps[1..])
  }

  lemma {:induction false} FormatPiecesAppend(a: seq<Piece>, b: seq<Piece>)
    ensures FormatPieces(a + b) == FormatPieces(a) + FormatPieces(b)
    decreases |a|
  {
    if a == [] {
      assert a + b == b;
    } else {
      assert (a + b)[1..] == a[1..] + b;
      FormatPiecesAppend(a[1..], b);
    }
  }

  lemma {:induction false} FormatOne(p: Piece)
    ensures FormatPieces([p]) == FormatPiece(p)
  {
    assert [p][1..] == [];
  }

  lemma {:induction false} FormatBlock(prefix: string, content: string, rest: seq<Piece>)
    ensures FormatPieces(RunPiece(prefix) + [Fence(content)] + rest)
         == (if prefix == "" then [] else Turns(START, true, Lines(prefix))) + [Code(content, '\n' in content)]
           + FormatPieces(rest)
  {
    FormatPiecesAppend(RunPiece(prefix), [Fence(content)]);
    FormatPiecesAppend(RunPiece(prefix) + [Fence(content)], rest);
    FormatOne(Run(prefix));
    FormatOne(Fence(content));
  }

  /** The whole formatter. */
  method Format(text: string) returns (output: seq<Token>)
    ensures output == FormatPieces(Scan(text, 0))
  {
    hide Turns, Blank, FormatPieces, FenceAt, FindFence, RunPiece, Lines;
    output := [];
    var ptr: nat := 0;
    ghost var all := FormatPieces(Scan(text, 0));
    while true
      invariant ptr <= |text|
      invariant output + FormatPieces(Scan(text, ptr)) == all
      decreases |text| - ptr
    {
      var start := FindFence(text, ptr);
      if start.None? { break; }
      var end := FindFence(text, start.value + 3);
      if end.None? { break; }
      var absEnd := end.value + 3;
      if Blank(text[start.value + 3..absEnd - 3]) {
        var again := FindFence(text, absEnd);
        if again.None? { break; }
        absEnd := again.value + 3;
      }
      var prefix, content := text[ptr..start.value], text[start.value + 3..absEnd - 3];
      FormatBlock(prefix, content, Scan(text, absEnd));
      ptr := absEnd;
      if prefix != "" {
        var out := FormatRun(prefix);
        output := output + out;
      }
      output := output + [Code(content, '\n' in content)];
    }
    assert NextBlock(text, ptr).None?;
    FormatTail(text[ptr..]);
    if ptr < |text| {
      var out := FormatRun(text[ptr..]);
      output := output + out;
    }
  }

  lemma {:induction false} FormatTail(text: string)
    ensures FormatPieces(RunPiece(text)) == if text == "" then [] else Turns(START, true, Lines(text))
  {
    FormatOne(Run(text));
  }

  function Source(p: Piece): string {
    match p
    case Run(text) => text
    case Fence(content) => FENCE + content + FENCE
  }

  function Rebuilt(ps: seq<Piece>): string {
    if ps == [] then "" else Source(ps[0]) + Rebuilt(ps[1..])
  }

  /** A block's content is not blank, and is closed by the first fence that makes it so: it holds no
      fence, or it is white space, a fence, and text without one. */
  ghost predicate GoodContent(content: string) {
    && !Blank(content)
    && (NoFence(content)
        || exists i :: FenceAt(content, i) && Blank(content[..i]) && NoFence(content[i + 3..]))
  }

  ghost predicate GoodPieces(ps: seq<Piece>) {
    ps == [] ||
    (&& (ps[0].Fence? ==> GoodContent(ps[0].content))
     && (ps[0].Run? ==> ps[0].text != "" && (|ps| > 1 ==> ps[1].Fence? && NoFence(ps[0].text)))
     && GoodPieces(ps[1..]))
  }

  lemma {:induction false} SliceFence(text: string, lo: nat, hi: nat)
    requires lo <= hi <= |text| && forall i :: lo <= i <= hi - 3 ==> !FenceAt(text, i)
    ensures NoFence(text[lo..hi])
  {
    forall i | 0 <= i <= hi - lo - 3 ensures !FenceAt(text[lo..hi], i) {
      assert !FenceAt(text, lo + i);
    }
  }

  lemma {:induction false} BlockIsGood(text: string, from: nat)
    requires from <= |text| && NextBlock(text, from).Some?
    ensures var b := NextBlock(text, from).value;
      && GoodContent(text[b.0 + 3..b.1 - 3]) && NoFence(text[from..b.0])
      && FenceAt(text, b.0) && FenceAt(text, b.1 - 3)
  {
    hide IsSpace, Blank, NoFence, FenceAt, GoodContent;
    var b := NextBlock(text, from).value;
    var end := FindFence(text, b.0 + 3).value;
    FindFenceFirst(text, from);
    FindFenceFirst(text, b.0 + 3);
    FindFenceFirst(text, end + 3);
    SliceFence(text, from, b.0);
    if Blank(text[b.0 + 3..end]) {
      SliceFence(text, end + 3, b.1 - 3);
      JoinedContent(text, b.0 + 3, end, b.1 - 3);
    } else {
      SliceFence(text, b.0 + 3, end);
      PlainContent(text[b.0 + 3..end]);
    }
  }

  lemma {:induction false} PlainContent(content: string)
    requires !Blank(content) && NoFence(content)
    ensures GoodContent(content)
  {
  }

  lemma {:induction false} JoinedContent(text: string, lo: nat, mid: nat, hi: nat)
    requires lo <= mid && mid + 3 <= hi <= |text| && FenceAt(text, mid) && Blank(text[lo..mid])
      && NoFence(text[mid + 3..hi])
    ensures GoodContent(text[lo..hi])
  {
    var content, i := text[lo..hi], mid - lo;
    assert FenceAt(content, i);
    assert content[..i] == text[lo..mid];
    assert content[i + 3..] == text[mid + 3..hi];
    assert !IsSpace(content[i]);
  }

  /** For every text: the pieces put together again are the text, text before a block holds no fence,
      and every block is closed, nonblank and as short as it can be. */
  lemma {:induction false} ScanFaithful(text: string, from: nat)
    requires from <= |text|
    ensures Rebuilt(Scan(text, from)) == text[from..] && GoodPieces(Scan(text, from))
    decreases |text| - from
  {
    hide NextBlock, GoodContent, NoFence, FenceAt, Rebuilt, GoodPieces, RunPiece;
    var b := NextBlock(text, from);
    if b.None? {
      PieceAlone(text[from..]);
    } else {
      var (s, e) := b.value;
      BlockIsGood(text, from);
      ScanFaithful(text, e);
      PieceBlock(text[from..s], text[s + 3..e - 3], Scan(text, e));
      SplitAtFences(text, from, s, e);
    }
  }

  lemma {:induction false} SplitAtFences(text: string, from: nat, s: nat, e: nat)
    requires from <= s <= e - 6 <= |text| - 6 && FenceAt(text, s) && FenceAt(text, e - 3)
    ensures text[from..] == text[from..s] + (FENCE + text[s + 3..e - 3] + FENCE) + text[e..]
  {
    assert text[s..s + 3] == FENCE && text[e - 3..e] == FENCE;
    assert text[from..] == text[from..s] + (text[s..s + 3] + text[s + 3..e - 3] + text[e - 3..e]) + text[e..];
  }

  lemma {:induction false} PieceAlone(run: string)
    ensures Rebuilt(RunPiece(run)) == run && GoodPieces(RunPiece(run))
  {
    if run != "" { assert RunPiece(run)[1..] == []; }
  }

  lemma {:induction false} PieceBlock(run: string, content: string, rest: seq<Piece>)
    requires GoodContent(content) && NoFence(run) && GoodPieces(rest)
    ensures var ps := RunPiece(run) + [Fence(content)] + rest;
      Rebuilt(ps) == run + (FENCE + content + FENCE) + Rebuilt(rest) && GoodPieces(ps)
  {
    hide GoodContent, NoFence, GoodPieces, Rebuilt;
    var tail := [Fence(content)] + rest;
    FencePiece(content, rest);
    if run == "" {
      assert RunPiece(run) + [Fence(content)] + rest == tail;
    } else {
      RunFirst(run, tail);
      assert RunPiece(run) + [Fence(content)] + rest == [Run(run)] + tail;
    }
  }

  lemma {:induction false} RunFirst(run: string, tail: seq<Piece>)
    requires run != "" && NoFence(run) && GoodPieces(tail) && tail != [] && tail[0].Fence?
    ensures Rebuilt([Run(run)] + tail) == run + Rebuilt(tail) && GoodPieces([Run(run)] + tail)
  {
    hide GoodContent, NoFence;
    assert ([Run(run)] + tail)[1..] == tail;
  }

  lemma {:induction false} FencePiece(content: string, rest: seq<Piece>)
    requires GoodContent(content) && GoodPieces(rest)
    ensures var tail := [Fence(content)] + rest;
      Rebuilt(tail) == (FENCE + content + FENCE) + Rebuilt(rest) && GoodPieces(tail)
  {
    hide GoodContent, NoFence;
    assert ([Fence(content)] + rest)[1..] == rest;
  }

  function TypedPieces(ps: seq<Piece>): seq<Shown> {
    if ps == [] then []
    else
      (match ps[0] case Run(text) => TypedAll(Lines(text)) case Fence(content) => [ShownCode(content)])
      + TypedPieces(ps[1..])
  }

  lemma {:induction false} PiecesRead(ps: seq<Piece>)
    requires GoodPieces(ps)
    ensures var r := Read(FormatPieces(ps), Outside(false)); r.Good? && r.at.Outside? && r.shown == TypedPieces(ps)
    decreases |ps|
  {
    if ps != [] {
      var rest := ps[1..];
      if ps[0].Run? {
        var out := FormatPiece(ps[0]);
        RunKeepsMeaning(ps[0].text);
        ReadAppend(out, FormatPieces(rest), Outside(false));
        if rest != [] {
          assert rest[0].Fence?;
          MidForgotten(rest, Read(out, Outside(false)).at.mid);
        }
      } else {
        ReadOne(FormatPiece(ps[0])[0], Outside(false));
        ReadAppend(FormatPiece(ps[0]), FormatPieces(rest), Outside(false));
      }
      PiecesRead(rest);
    }
  }

  /** A code block ends the line of text before it. */
  lemma {:induction false} MidForgotten(ps: seq<Piece>, mid: bool)
    requires ps != [] && ps[0].Fence?
    ensures Read(FormatPieces(ps), Outside(mid)) == Read(FormatPieces(ps), Outside(false))
  {
  }

  /** For every text, code fences included, the HTML is well formed and shows what was typed. */
  lemma {:induction false} FormatKeepsMeaning(text: string)
    ensures var r := Read(FormatPieces(Scan(text, 0)), Outside(false));
      r.Good? && r.at.Outside? && r.shown == TypedPieces(Scan(text, 0))
  {
    ScanFaithful(text, 0);
    PiecesRead(Scan(text, 0));
  }
}
