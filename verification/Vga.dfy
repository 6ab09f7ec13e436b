/**
 The VGA text writer: a 25 by 80 grid that is scrolled in place, proved to show the last 25 lines of
 a transcript in which nothing is ever scrolled or lost.
 */
module Vga {
  import opened Common

  const BUFFER_HEIGHT: nat := 25
  const BUFFER_WIDTH: nat := 80
  const NEWLINE: byte := 0x0A
  const SPACE: byte := 0x20
  const PLACEHOLDER: byte := 0xFE

  type Color = c: nat | c < 16

  /** `(background << 4) | foreground`. */
  function ColorCode(foreground: Color, background: Color): (code: byte)
    ensures code % 16 == foreground && code / 16 == background
  {
    background * 16 + foreground
  }

  const WHITE_ON_BLACK: byte := 15

  datatype Cell = Cell(character: byte, color: byte)

  // ---- The transcript ----

  /**
   Everything written since the last clear: finished lines above, and the line being written.
   Under each line lies what its row showed when the line was begun: blanks in the color of that
   moment, or, for the first lines, whatever was on the screen.
   */
  datatype Line = Line(text: seq<Cell>, under: seq<Cell>)
  datatype Transcript = Transcript(above: seq<Line>, last: Line, color: byte)

  function Blanks(color: byte): seq<Cell> {
    seq(80, i => Cell(SPACE, color))
  }

  function LineBreak(t: Transcript): Transcript {
    Transcript(t.above + [t.last], Line([], Blanks(t.color)), t.color)
  }

  /** Text is wrapped when a character does not fit any more, not when the line becomes full. */
  function Written(t: Transcript, b: byte): Transcript {
    if b == NEWLINE then LineBreak(t)
    else
      var t1 := if |t.last.text| >= BUFFER_WIDTH then LineBreak(t) else t;
      t1.(last := t1.last.(text := t1.last.text + [Cell(b, t1.color)]))
  }

  function WrittenAll(t: Transcript, bytes: seq<byte>): Transcript {
    if bytes == [] then t else Written(WrittenAll(t, bytes[..|bytes| - 1]), bytes[|bytes| - 1])
  }

  /** Printable ASCII and newlines are written as they are, everything else as a placeholder. */
  function Shown(b: byte): byte {
    if 0x20 <= b <= 0x7E || b == NEWLINE then b else PLACEHOLDER
  }

  function ShownAll(s: seq<byte>): seq<byte> {
    seq(|s|, i requires 0 <= i < |s| => Shown(s[i]))
  }

  /** A cleared screen: 24 blank lines above a blank line. */
  function Blank(color: byte): Transcript {
    Transcript(seq(24, i => Line([], Blanks(color))), Line([], Blanks(color)), color)
  }

  datatype Command = Write(bytes: seq<byte>) | SetColor(color: byte) | Clear

  function Execute(t: Transcript, c: Command): Transcript {
    match c
    case Write(bytes) => WrittenAll(t, ShownAll(bytes))
    case SetColor(color) => t.(color := color)
    case Clear => Blank(t.color)
  }

  /** What a line shows in column `col`. */
  function Shows(l: Line, col: nat): Cell
    requires |l.under| == BUFFER_WIDTH && col < BUFFER_WIDTH
  {
    if col < |l.text| then l.text[col] else l.under[col]
  }

  /** The lines of a transcript, oldest first. */
  function Lines(t: Transcript): seq<Line> {
    t.above + [t.last]
  }

  predicate Wf(t: Transcript) {
    && |t.above| >= BUFFER_HEIGHT - 1
    && forall l | l in Lines(t) :: |l.text| <= BUFFER_WIDTH == |l.under|
  }

  /** Row `row` of the screen shows line `row` of the last 25. */
  function RowLine(t: Transcript, row: nat): (l: Line)
    requires Wf(t) && row < BUFFER_HEIGHT
    ensures |l.text| <= BUFFER_WIDTH == |l.under|
  {
    var n := |Lines(t)| - BUFFER_HEIGHT + row;
    assert Lines(t)[n] in Lines(t);
    Lines(t)[n]
  }

  // ---- Facts about transcripts ----

  /** Spaces to tildes and newlines are shown as they are, every other byte as the block 0xFE. */
  lemma {:induction false} ShownExact(bytes: seq<byte>, i: nat)
    requires i < |bytes|
    ensures |ShownAll(bytes)| == |bytes|
    ensures 0x20 <= bytes[i] <= 0x7E || bytes[i] == 0x0A ==> ShownAll(bytes)[i] == bytes[i]
    ensures !(0x20 <= bytes[i] <= 0x7E) && bytes[i] != 0x0A ==> ShownAll(bytes)[i] == 0xFE
  {
  }

  /** Line by line: all lines of a wrapped piece of text but its last are full, and together they are the text. */
  lemma {:induction false} ChunksExact(text: seq<Cell>, i: nat)
    requires i < |Chunks(text)|
    ensures |Chunks(text)| == (if |text| == 0 then 1 else (|text| + 79) / 80)
    ensures 80 * i <= |text|
    ensures Chunks(text)[i] == text[80 * i..if 80 * i + 80 <= |text| then 80 * i + 80 else |text|]
    decreases |text|
  {
    if |text| > 80 {
      ChunksExact(text[80..], if i > 0 then i - 1 else 0);
      if i > 0 {
        var end := if 80 * i + 80 <= |text| then 80 * i + 80 else |text|;
        var inner, outer := text[80..][80 * (i - 1)..end - 80], text[80 * i..end];
        assert |inner| == |outer| && forall j | 0 <= j < |inner| :: inner[j] == outer[j];
      }
    } else {
      assert text[0..|text|] == text;
    }
  }

  /** A newline right after the 80th character moves on one line, just as after any shorter line. */
  lemma {:induction false} FullLineThenNewline(t: Transcript, text: seq<byte>)
    requires t.last.text == [] && |text| <= BUFFER_WIDTH && NEWLINE !in text
    ensures var t' := Written(WrittenAll(t, text), NEWLINE);
            && |t'.above| == |t.above| + 1
            && t'.last.text == []
            && |t'.above[|t.above|].text| == |text|
  {
    OneLine(t, text);
  }

  /** Text without newlines that fits stays on one line, character by character. */
  lemma {:induction false} OneLine(t: Transcript, text: seq<byte>)
    requires t.last.text == [] && |text| <= BUFFER_WIDTH && NEWLINE !in text
    ensures var t' := WrittenAll(t, text);
            && t'.above == t.above && t'.color == t.color && |t'.last.text| == |text|
            && forall i | 0 <= i < |text| :: t'.last.text[i] == Cell(text[i], t.color)
    decreases |text|
  {
    if text != [] {
      OneLine(t, text[..|text| - 1]);
    }
  }

  lemma WrittenKeepsWf(t: Transcript, b: byte)
    requires Wf(t)
    ensures Wf(Written(t, b))
  {
    var t1 := if b == NEWLINE || |t.last.text| >= BUFFER_WIDTH then LineBreak(t) else t;
    assert forall l | l in Lines(t1) :: l in Lines(t) || l == Line([], Blanks(t.color));
    assert t1.last in Lines(t1);
    forall l | l in Lines(Written(t, b))
      ensures |l.text| <= BUFFER_WIDTH == |l.under|
    {
      assert l in t1.above || l == Written(t, b).last;
      assert l in t1.above ==> l in Lines(t1);
    }
  }

  /** A new line scrolls: every row shows what the row below it showed, and the last row is blank. */
  lemma NewLineScrolls(t: Transcript, row: nat)
    requires Wf(t) && row < BUFFER_HEIGHT
    ensures Wf(LineBreak(t))
    ensures RowLine(LineBreak(t), row) ==
            if row + 1 < BUFFER_HEIGHT then RowLine(t, row + 1) else Line([], Blanks(t.color))
  {
    WrittenKeepsWf(t, NEWLINE);
  }

  // ---- The transcript is the text, wrapped ----

  /** Pieces of at most 80 characters; the empty text is one empty piece. */
  function Chunks(text: seq<Cell>): (pieces: seq<seq<Cell>>)
    ensures |pieces| >= 1
  {
    if |text| <= BUFFER_WIDTH then [text] else [text[..80]] + Chunks(text[80..])
  }

  function UntilNewline(tape: seq<Cell>): (n: nat)
    ensures n <= |tape| && (n < |tape| ==> tape[n].character == NEWLINE)
  {
    if tape == [] || tape[0].character == NEWLINE then 0 else 1 + UntilNewline(tape[1..])
  }

  /** The tape cut at its newlines, and every part cut into pieces of at most 80. */
  function Wrapped(tape: seq<Cell>): (lines: seq<seq<Cell>>)
    ensures |lines| >= 1
  {
    var n := UntilNewline(tape);
    if n == |tape| then Chunks(tape) else Chunks(tape[..n]) + Wrapped(tape[n + 1..])
  }

  function Texts(lines: seq<Line>): seq<seq<Cell>> {
    seq(|lines|, i requires 0 <= i < |lines| => lines[i].text)
  }

  /** What one more character does to a list of lines. */
  function Extended(lines: seq<seq<Cell>>, cell: Cell): (lines': seq<seq<Cell>>)
    requires lines != []
    ensures lines' != []
  {
    var n := |lines| - 1;
    if cell.character == NEWLINE then lines + [[]]
    else if |lines[n]| >= BUFFER_WIDTH then lines + [[cell]]
    else lines[..n] + [lines[n] + [cell]]
  }

  function ExtendedAll(lines: seq<seq<Cell>>, tape: seq<Cell>): (lines': seq<seq<Cell>>)
    requires lines != []
    ensures lines' != []
  {
    if tape == [] then lines else Extended(ExtendedAll(lines, tape[..|tape| - 1]), tape[|tape| - 1])
  }

  lemma {:induction false} ChunksExtend(text: seq<Cell>, cell: Cell)
    requires cell.character != NEWLINE
    ensures Chunks(text + [cell]) == Extended(Chunks(text), cell)
    decreases |text|
  {
    if |text| < BUFFER_WIDTH {
    } else if |text| == BUFFER_WIDTH {
      assert (text + [cell])[..80] == text && (text + [cell])[80..] == [cell];
    } else {
      assert (text + [cell])[..80] == text[..80] && (text + [cell])[80..] == text[80..] + [cell];
      ChunksExtend(text[80..], cell);
      ExtendedBehind([text[..80]], Chunks(text[80..]), cell);
    }
  }

  lemma ExtendedBehind(front: seq<seq<Cell>>, lines: seq<seq<Cell>>, cell: Cell)
    requires lines != []
    ensures Extended(front + lines, cell) == front + Extended(lines, cell)
  {
    var n := |lines| - 1;
    assert (front + lines)[..|front| + n] == front + lines[..n];
  }

  lemma {:induction false} UntilNewlineExtends(tape: seq<Cell>, cell: Cell)
    ensures UntilNewline(tape + [cell]) ==
            if UntilNewline(tape) == |tape| && cell.character != NEWLINE then |tape| + 1 else UntilNewline(tape)
    decreases |tape|
  {
    if tape != [] {
      assert (tape + [cell])[1..] == tape[1..] + [cell];
      UntilNewlineExtends(tape[1..], cell);
    } else {
      assert (tape + [cell])[1..] == [];
    }
  }

  lemma {:induction false} WrappedExtends(tape: seq<Cell>, cell: Cell)
    ensures Wrapped(tape + [cell]) == Extended(Wrapped(tape), cell)
    decreases |tape|
  {
    var n, longer := UntilNewline(tape), tape + [cell];
    UntilNewlineExtends(tape, cell);
    if n < |tape| {
      assert longer[..n] == tape[..n] && longer[n + 1..] == tape[n + 1..] + [cell];
      WrappedExtends(tape[n + 1..], cell);
      ExtendedBehind(Chunks(tape[..n]), Wrapped(tape[n + 1..]), cell);
    } else if cell.character == NEWLINE {
      assert longer[..n] == tape && longer[n + 1..] == [];
      assert Wrapped([]) == [[]];
    } else {
      ChunksExtend(tape, cell);
    }
  }

  /** Character by character or all at once: the lines are the same. */
  lemma {:induction false} ExtendedAllWraps(front: seq<seq<Cell>>, tape: seq<Cell>)
    ensures ExtendedAll(front + [[]], tape) == front + Wrapped(tape)
    decreases |tape|
  {
    if tape == [] {
      assert Wrapped(tape) == [[]];
    } else {
      var shorter, cell := tape[..|tape| - 1], tape[|tape| - 1];
      assert tape == shorter + [cell];
      ExtendedAllWraps(front, shorter);
      WrappedExtends(shorter, cell);
      ExtendedBehind(front, Wrapped(shorter), cell);
    }
  }

  /** Each character with the color in force when it was written. */
  function Painted(bytes: seq<byte>, color: byte): seq<Cell> {
    seq(|bytes|, i requires 0 <= i < |bytes| => Cell(bytes[i], color))
  }

  function ExecuteAll(t: Transcript, cs: seq<Command>): Transcript {
    if cs == [] then t else Execute(ExecuteAll(t, cs[..|cs| - 1]), cs[|cs| - 1])
  }

  /** The color in force after commands, and everything they write. */
  function ColorAfter(color: byte, cs: seq<Command>): byte {
    if cs == [] then color
    else
      var c := cs[|cs| - 1];
      if c.SetColor? then c.color else ColorAfter(color, cs[..|cs| - 1])
  }

  function Tape(color: byte, cs: seq<Command>): seq<Cell> {
    if cs == [] then []
    else
      var before, c := cs[..|cs| - 1], cs[|cs| - 1];
      Tape(color, before) + if c.Write? then Painted(ShownAll(c.bytes), ColorAfter(color, before)) else []
  }

  lemma WrittenExtends(t: Transcript, b: byte)
    ensures Texts(Lines(Written(t, b))) == Extended(Texts(Lines(t)), Cell(b, t.color))
    ensures Written(t, b).color == t.color
  {
    var before, after, cell := Texts(Lines(t)), Texts(Lines(Written(t, b))), Cell(b, t.color);
    if b == NEWLINE {
      assert after == before + [[]];
    } else if |t.last.text| >= BUFFER_WIDTH {
      var t' := Written(t, b);
      assert t'.above == Lines(t) && t'.last.text == [] + [cell] == [cell];
      assert after == before + [[cell]];
    } else {
      assert after[..|t.above|] == before[..|t.above|];
      assert after == before[..|t.above|] + [t.last.text + [cell]];
    }
  }

  lemma {:induction false} ExtendedAllConcat(lines: seq<seq<Cell>>, a: seq<Cell>, b: seq<Cell>)
    requires lines != []
    ensures ExtendedAll(lines, a + b) == ExtendedAll(ExtendedAll(lines, a), b)
    decreases |b|
  {
    if b == [] {
      assert a + b == a;
    } else {
      assert (a + b)[..|a + b| - 1] == a + b[..|b| - 1];
      ExtendedAllConcat(lines, a, b[..|b| - 1]);
    }
  }

  lemma {:induction false} WrittenAllExtends(t: Transcript, bytes: seq<byte>)
    ensures Texts(Lines(WrittenAll(t, bytes))) == ExtendedAll(Texts(Lines(t)), Painted(bytes, t.color))
    ensures WrittenAll(t, bytes).color == t.color
    decreases |bytes|
  {
    var tape := Painted(bytes, t.color);
    if bytes != [] {
      var shorter := bytes[..|bytes| - 1];
      assert tape[..|tape| - 1] == Painted(shorter, t.color);
      WrittenAllExtends(t, shorter);
      WrittenExtends(WrittenAll(t, shorter), bytes[|bytes| - 1]);
    }
  }

  lemma {:induction false} ExecuteAllExtends(t: Transcript, cs: seq<Command>)
    requires Clear !in cs
    ensures ExecuteAll(t, cs).color == ColorAfter(t.color, cs)
    ensures Texts(Lines(ExecuteAll(t, cs))) == ExtendedAll(Texts(Lines(t)), Tape(t.color, cs))
    decreases |cs|
  {
    if cs != [] {
      var before, c := cs[..|cs| - 1], cs[|cs| - 1];
      var t1 := ExecuteAll(t, before);
      assert c in cs && forall d | d in before :: d in cs;
      ExecuteAllExtends(t, before);
      if c.Write? {
        var painted := Painted(ShownAll(c.bytes), t1.color);
        WrittenAllExtends(t1, ShownAll(c.bytes));
        ExtendedAllConcat(Texts(Lines(t)), Tape(t.color, before), painted);
      } else {
        assert Lines(Execute(t1, c)) == Lines(t1);
        assert Tape(t.color, cs) == Tape(t.color, before);
      }
    }
  }

  /** 25 lines with nothing written on them: the state of a new writer, and of any writer after a clear. */
  ghost predicate NothingWritten(t: Transcript) {
    |t.above| == 24 && forall l | l in Lines(t) :: l.text == []
  }

  /** The commands after the last clear, and the color in force at that point. */
  function SinceClear(cs: seq<Command>): (since: seq<Command>)
    ensures Clear !in since && |since| <= |cs|
  {
    if cs == [] || cs[|cs| - 1].Clear? then [] else SinceClear(cs[..|cs| - 1]) + [cs[|cs| - 1]]
  }

  lemma {:induction false} BlankTexts(t: Transcript)
    requires NothingWritten(t)
    ensures Texts(Lines(t)) == seq(24, i => []) + [[]]
  {
    assert forall i | 0 <= i < 25 :: Lines(t)[i] in Lines(t);
  }

  lemma {:induction false} ClearForgets(t: Transcript)
    ensures NothingWritten(Execute(t, Clear)) && Execute(t, Clear).color == t.color
  {
  }

  lemma {:induction false} WrappedSinceBlank(t: Transcript, cs: seq<Command>)
    requires NothingWritten(t) && Clear !in cs
    ensures Texts(Lines(ExecuteAll(t, cs))) == seq(24, i => []) + Wrapped(Tape(t.color, cs))
  {
    ExecuteAllExtends(t, cs);
    BlankTexts(t);
    ExtendedAllWraps(seq(24, i => []), Tape(t.color, cs));
  }

  /** The last clear in a list of commands, seen from there. */
  lemma {:induction false} FromLastClear(t: Transcript, cs: seq<Command>) returns (t1: Transcript)
    requires NothingWritten(t)
    ensures NothingWritten(t1) && ExecuteAll(t, cs) == ExecuteAll(t1, SinceClear(cs))
    ensures t1.color == ColorAfter(t.color, cs[..|cs| - |SinceClear(cs)|])
    decreases |cs|
  {
    if cs == [] {
      t1 := t;
    } else {
      var before, c := cs[..|cs| - 1], cs[|cs| - 1];
      if c.Clear? {
        t1 := ExecuteAll(t, cs);
        ClearForgets(ExecuteAll(t, before));
        ColorOfAll(t, cs);
        assert cs[..|cs|] == cs;
      } else {
        t1 := FromLastClear(t, before);
        var since := SinceClear(before);
        assert SinceClear(cs)[..|since|] == since;
        assert cs[..|cs| - |SinceClear(cs)|] == before[..|before| - |since|];
      }
    }
  }

  lemma {:induction false} ColorOfAll(t: Transcript, cs: seq<Command>)
    ensures ExecuteAll(t, cs).color == ColorAfter(t.color, cs)
    decreases |cs|
  {
    if cs != [] {
      var before := cs[..|cs| - 1];
      ColorOfAll(t, before);
      if cs[|cs| - 1].Write? {
        WrittenAllExtends(ExecuteAll(t, before), ShownAll(cs[|cs| - 1].bytes));
      }
    }
  }

  /**
   Whatever is written to a new writer, with the color changed and the screen cleared at any time: the
   lines are 24 empty ones and then the text written since the last clear (or since the start), cut at its
   newlines and wrapped at 80 columns, every character in the color in force when it was written.
   */
  lemma {:induction false} TranscriptIsWrappedText(t: Transcript, cs: seq<Command>)
    requires NothingWritten(t)
    ensures var since := SinceClear(cs);
            var color := ColorAfter(t.color, cs[..|cs| - |since|]);
            Texts(Lines(ExecuteAll(t, cs))) == seq(24, i => []) + Wrapped(Tape(color, since))
  {
    var t1 := FromLastClear(t, cs);
    WrappedSinceBlank(t1, SinceClear(cs));
  }

  // ---- The writer ----

  class Writer {
    var columnPosition: nat
    var colorCode: byte
    const buffer: array2<Cell>

    ghost var transcript: Transcript

    ghost predicate Valid()
      reads this, buffer
    {
      && buffer.Length0 == BUFFER_HEIGHT && buffer.Length1 == BUFFER_WIDTH
      && Wf(transcript)
      && columnPosition == |transcript.last.text|
      && colorCode == transcript.color
      && forall row, col | 0 <= row < BUFFER_HEIGHT && 0 <= col < BUFFER_WIDTH ::
           buffer[row, col] == Shows(RowLine(transcript, row), col)
    }

    /** The writer starts on a screen that may show anything: 25 lines with nothing written on them. */
    constructor (screen: array2<Cell>)
      requires screen.Length0 == 25 && screen.Length1 == 80
      ensures Valid() && buffer == screen && transcript.color == 0x0F
      ensures NothingWritten(transcript)
    {
      columnPosition := 0;
      colorCode := WHITE_ON_BLACK;
      buffer := screen;
      ghost var rows := seq(25, r requires 0 <= r < 25 reads screen =>
        Line([], seq(80, c requires 0 <= c < 80 reads screen => screen[r, c])));
      transcript := Transcript(rows[..24], rows[24], WHITE_ON_BLACK);
      assert rows[..24] + [rows[24]] == rows;
    }

    method SetColor(foreground: Color, background: Color)
      requires Valid()
      modifies this
      ensures Valid() && transcript == Execute(old(transcript), Command.SetColor(ColorCode(foreground, background)))
    {
      colorCode := ColorCode(foreground, background);
      transcript := transcript.(color := colorCode);
      assert forall row | 0 <= row < BUFFER_HEIGHT :: RowLine(transcript, row) == old(RowLine(transcript, row));
    }

    method ClearRow(row: nat)
      requires buffer.Length0 == BUFFER_HEIGHT && buffer.Length1 == BUFFER_WIDTH && row < BUFFER_HEIGHT
      modifies buffer
      ensures forall r, c | 0 <= r < BUFFER_HEIGHT && 0 <= c < BUFFER_WIDTH ::
                buffer[r, c] == if r == row then Cell(0x20, colorCode) else old(buffer[r, c])
    {
      for col := 0 to BUFFER_WIDTH
        invariant forall r, c | 0 <= r < BUFFER_HEIGHT && 0 <= c < BUFFER_WIDTH ::
                    buffer[r, c] == if r == row && c < col then Cell(SPACE, colorCode) else old(buffer[r, c])
      {
        buffer[row, col] := Cell(SPACE, colorCode);
      }
    }

    /** The nested loops that move every row up by one, top row first. */
    method ScrollUp()
      requires buffer.Length0 == BUFFER_HEIGHT && buffer.Length1 == BUFFER_WIDTH
      modifies buffer
      ensures forall r, c | 0 <= r < BUFFER_HEIGHT && 0 <= c < BUFFER_WIDTH ::
                buffer[r, c] == old(buffer[if r + 1 < BUFFER_HEIGHT then r + 1 else r, c])
    {
      for row := 1 to BUFFER_HEIGHT
        invariant forall r, c | 0 <= r < BUFFER_HEIGHT && 0 <= c < BUFFER_WIDTH ::
                    buffer[r, c] == old(buffer[if r + 1 < row then r + 1 else r, c])
      {
        for col := 0 to BUFFER_WIDTH
          invariant forall r, c | 0 <= r < BUFFER_HEIGHT && 0 <= c < BUFFER_WIDTH ::
                      buffer[r, c] == old(buffer[if r + 1 < row || (r + 1 == row && c < col) then r + 1 else r, c])
        {
          buffer[row - 1, col] := buffer[row, col];
        }
      }
    }

    method NewLine()
      requires Valid()
      modifies this`columnPosition, this`transcript, buffer
      ensures Valid() && transcript == LineBreak(old(transcript))
    {
      ScrollUp();
      ClearRow(BUFFER_HEIGHT - 1);
      columnPosition := 0;
      transcript := LineBreak(transcript);
      forall row | 0 <= row < BUFFER_HEIGHT
        ensures RowLine(transcript, row) ==
                if row + 1 < BUFFER_HEIGHT then RowLine(old(transcript), row + 1)
                else Line([], Blanks(colorCode))
      {
        NewLineScrolls(old(transcript), row);
      }
      WrittenKeepsWf(old(transcript), NEWLINE);
    }

    /** Writes a character in the free column of the last row. */
    method PutCell(b: byte)
      requires Valid() && columnPosition < BUFFER_WIDTH && b != NEWLINE
      modifies this`columnPosition, this`transcript, buffer
      ensures Valid() && transcript == Written(old(transcript), b)
    {
      buffer[BUFFER_HEIGHT - 1, columnPosition] := Cell(b, colorCode);
      columnPosition := columnPosition + 1;
      transcript := Written(transcript, b);
      WrittenKeepsWf(old(transcript), b);
      assert forall row | 0 <= row < BUFFER_HEIGHT - 1 :: RowLine(transcript, row) == RowLine(old(transcript), row);
      assert RowLine(transcript, BUFFER_HEIGHT - 1) == transcript.last;
      assert RowLine(old(transcript), BUFFER_HEIGHT - 1) == old(transcript.last);
    }

    method WriteByte(b: byte)
      requires Valid()
      modifies this`columnPosition, this`transcript, buffer
      ensures Valid() && transcript == Written(old(transcript), b)
    {
      if b == NEWLINE {
        NewLine();
      } else {
        if columnPosition >= BUFFER_WIDTH {
          NewLine();
        }
        PutCell(b);
      }
    }

    method WriteStr(s: seq<byte>)
      requires Valid()
      modifies this`columnPosition, this`transcript, buffer
      ensures Valid() && transcript == Execute(old(transcript), Write(s))
    {
      for n := 0 to |s|
        invariant Valid() && transcript == WrittenAll(old(transcript), ShownAll(s)[..n])
      {
        assert ShownAll(s)[..n + 1][..n] == ShownAll(s)[..n];
        WriteByte(Shown(s[n]));
      }
      assert ShownAll(s)[..|s|] == ShownAll(s);
    }

    method ClearScreen()
      requires Valid()
      modifies this`columnPosition, this`transcript, buffer
      ensures Valid() && transcript == Execute(old(transcript), Clear)
    {
      for row := 0 to BUFFER_HEIGHT
        invariant forall r, c | 0 <= r < row && 0 <= c < BUFFER_WIDTH :: buffer[r, c] == Cell(SPACE, colorCode)
      {
        ClearRow(row);
      }
      columnPosition := 0;
      transcript := Blank(colorCode);
      assert forall l | l in Lines(transcript) :: l == Line([], Blanks(colorCode));
    }
  }
}
