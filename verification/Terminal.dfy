/**
 The scrolling text terminal.  On values it is an unbounded transcript that only grows; the driver keeps
 the last 25 rows of it in the video buffer.
 */
module Terminal {
  import opened Basics

  const WIDTH := 80
  const HEIGHT := 25

  type Cell = x: int | 0 <= x < 0x1_0000

  const NEWLINE: Byte := 10
  const SPACE: Byte := 32

  /** vga_entry */
  function Entry(c: Byte, colour: Byte): Cell { c + 256 * colour }

  // ---- the transcript -----------------------------------------------------------------------------

  /** All rows written since the screen was cleared, the cursor among them, and the current colour. */
  datatype Text = Text(rows: seq<seq<Cell>>, row: nat, col: nat, colour: Byte)

  function Blank(colour: Byte): (r: seq<Cell>)
    ensures |r| == WIDTH
  {
    seq(WIDTH, _ => Entry(SPACE, colour))
  }

  predicate WellFormed(t: Text) {
    && |t.rows| >= HEIGHT && (forall r :: 0 <= r < |t.rows| ==> |t.rows[r]| == WIDTH)
    && t.row < |t.rows| && t.col < WIDTH && (|t.rows| > HEIGHT ==> t.row == |t.rows| - 1)
  }

  function Cleared(colour: Byte): (t: Text)
    ensures WellFormed(t)
  {
    Text(seq(HEIGHT, _ => Blank(colour)), 0, 0, colour)
  }

  /** The cell under the cursor replaced. */
  function Typed(t: Text, e: Cell): (t': Text)
    requires WellFormed(t)
    ensures WellFormed(t')
  {
    var line: seq<Cell> := t.rows[t.row][t.col := e];
    t.(rows := t.rows[t.row := line])
  }

  /** A character at the cursor; a full line or a newline moves to the next row, which is made, blank in
      the current colour, when it is not there. */
  function Put(t: Text, c: Byte): (t': Text)
    requires WellFormed(t)
    ensures WellFormed(t')
  {
    var rows := if c == NEWLINE then t.rows else Typed(t, Entry(c, t.colour)).rows;
    var wraps := c == NEWLINE || t.col + 1 == WIDTH;
    var row := if wraps then t.row + 1 else t.row;
    Text(if row == |rows| then rows + [Blank(t.colour)] else rows, row, if wraps then 0 else t.col + 1, t.colour)
  }

  /** What one character does: a newline goes to column 0 of the next row; any other character takes the cell
      under the cursor, in the current colour, and goes to the next cell, after column 79 to column 0 of the
      next row. A row there was not yet is made of spaces in the current colour; no other cell changes. */
  lemma PutMoves(t: Text, c: Byte)
    requires WellFormed(t)
    ensures var t' := Put(t, c); var wraps := c == 10 || t.col == 79;
      && t'.row == (if wraps then t.row + 1 else t.row) && t'.col == (if wraps then 0 else t.col + 1) && t'.colour == t.colour
      && |t'.rows| == (if t'.row == |t.rows| then |t.rows| + 1 else |t.rows|)
      && (forall r, x :: 0 <= r < |t.rows| && 0 <= x < 80 ==>
            t'.rows[r][x] == if c != 10 && r == t.row && x == t.col then c + 256 * t.colour else t.rows[r][x])
      && (|t'.rows| > |t.rows| ==> forall x :: 0 <= x < 80 ==> t'.rows[|t.rows|][x] == 32 + 256 * t.colour)
  {
  }

  /** A cleared screen: 25 rows of 80 spaces in the current colour, the cursor in the top left corner. */
  lemma ClearedIs(colour: Byte)
    ensures var t := Cleared(colour);
      && |t.rows| == 25 && t.row == 0 && t.col == 0 && t.colour == colour
      && forall r, x :: 0 <= r < 25 && 0 <= x < 80 ==> t.rows[r][x] == 32 + 256 * colour
  {
  }

  datatype Event = Colour(colour: Byte) | Char(c: Byte)

  function Step(t: Text, e: Event): (t': Text)
    requires WellFormed(t)
    ensures WellFormed(t')
  {
    match e
    case Colour(colour) => t.(colour := colour)
    case Char(c) => Put(t, c)
  }

  /** The transcript after the first n events since the screen was cleared. */
  function Run(colour: Byte, es: seq<Event>, n: nat): (t: Text)
    requires n <= |es|
    ensures WellFormed(t)
    decreases n
  {
    if n == 0 then Cleared(colour) else Step(Run(colour, es, n - 1), es[n - 1])
  }

  // ---- what the transcript says -------------------------------------------------------------------

  /** Event k puts a character at row r, column x. */
  predicate PlacedAt(colour: Byte, es: seq<Event>, k: nat, r: nat, x: nat)
    requires k < |es|
  {
    es[k].Char? && es[k].c != NEWLINE && Run(colour, es, k).row == r && Run(colour, es, k).col == x
  }

  predicate BeforeCursor(t: Text, r: nat, x: nat) { r < t.row || (r == t.row && x < t.col) }

  lemma {:induction false} CursorAdvances(colour: Byte, es: seq<Event>, k: nat, n: nat)
    requires k < n <= |es| && es[k].Char?
    ensures BeforeCursor(Run(colour, es, n), Run(colour, es, k).row, Run(colour, es, k).col)
    decreases n
  {
    if k + 1 < n {
      CursorAdvances(colour, es, k, n - 1);
    }
  }

  /** No character is ever overwritten: it stays where it was put, in the colour of that moment. */
  lemma {:induction false} NeverOverwritten(colour: Byte, es: seq<Event>, k: nat, n: nat)
    requires k < n <= |es| && es[k].Char? && es[k].c != NEWLINE
    ensures var t, t' := Run(colour, es, k), Run(colour, es, n);
      t.row < |t'.rows| && t'.rows[t.row][t.col] == es[k].c + 256 * t.colour
    decreases n
  {
    if k + 1 < n {
      NeverOverwritten(colour, es, k, n - 1);
      CursorAdvances(colour, es, k, n - 1);
      StepKeeps(Run(colour, es, n - 1), es[n - 1], Run(colour, es, k).row, Run(colour, es, k).col);
    }
  }

  lemma StepKeeps(t: Text, e: Event, r: nat, x: nat)
    requires WellFormed(t) && BeforeCursor(t, r, x) && x < WIDTH
    ensures r < |Step(t, e).rows| && Step(t, e).rows[r][x] == t.rows[r][x]
  {
  }

  /** Where nothing was put there is a space. */
  lemma {:induction false} ElseBlank(colour: Byte, es: seq<Event>, n: nat, r: nat, x: nat)
    requires n <= |es| && r < |Run(colour, es, n).rows| && x < WIDTH
    requires forall k: nat {:trigger PlacedAt(colour, es, k, r, x)} :: k < n ==> !PlacedAt(colour, es, k, r, x)
    ensures Run(colour, es, n).rows[r][x] % 256 == 32
    decreases n
  {
    if n > 0 {
      assert !PlacedAt(colour, es, n - 1, r, x);
      if r < |Run(colour, es, n - 1).rows| {
        ElseBlank(colour, es, n - 1, r, x);
      }
    }
  }

  // ---- strings --------------------------------------------------------------------------------------

  /** The first n characters of a string. */
  function PutAll(t: Text, s: seq<Byte>, n: nat): (t': Text)
    requires WellFormed(t) && n <= |s|
    ensures WellFormed(t')
    decreases n
  {
    if n == 0 then t else Put(PutAll(t, s, n - 1), s[n - 1])
  }

  /** screen_write: all up to the terminator. */
  function Write(t: Text, s: seq<Byte>): (t': Text)
    requires WellFormed(t) && 0 in s
    ensures WellFormed(t')
  {
    PutAll(t, s, IndexOf(s, 0))
  }

  /** The first n characters of a string as events. */
  function Chars(s: seq<Byte>, n: nat): (es: seq<Event>)
    requires n <= |s|
    ensures |es| == n && forall i :: 0 <= i < n ==> es[i] == Char(s[i])
  {
    seq(n, i requires 0 <= i < n => Char(s[i]))
  }

  /** Writing a string is the run that goes on with its characters, one event each, in order. */
  lemma {:induction false} PutAllRuns(colour: Byte, es: seq<Event>, s: seq<Byte>, n: nat, k: nat)
    requires n <= |s| && k == |es| + n
    ensures PutAll(Run(colour, es, |es|), s, n) == Run(colour, es + Chars(s, n), k)
    decreases n
  {
    if n == 0 {
      assert es + Chars(s, n) == es;
    } else {
      var m, j := n - 1, k - 1;
      PutAllRuns(colour, es, s, m, j);
      var a, b, t := es + Chars(s, m), es + Chars(s, n), Run(colour, es, |es|);
      WriteNext(colour, t, a, b, s, m, n, j, k);
    }
  }

  lemma WriteNext(colour: Byte, t: Text, es: seq<Event>, es': seq<Event>, s: seq<Byte>, m: nat, n: nat, j: nat, k: nat)
    requires WellFormed(t) && n == m + 1 <= |s| && k == j + 1 == |es'| && j == |es|
    requires PutAll(t, s, m) == Run(colour, es, j) && es'[j] == Char(s[m]) && forall i :: 0 <= i < j ==> es[i] == es'[i]
    ensures PutAll(t, s, n) == Run(colour, es', k)
  {
    RunPrefix(colour, es, es', j);
    RunNext(colour, es', j, k);
  }

  lemma RunNext(colour: Byte, es: seq<Event>, m: nat, n: nat)
    requires n == m + 1 <= |es|
    ensures Run(colour, es, n) == Step(Run(colour, es, m), es[m])
  {
  }

  lemma {:induction false} RunPrefix(colour: Byte, es: seq<Event>, es': seq<Event>, n: nat)
    requires n <= |es| && n <= |es'| && forall k :: 0 <= k < n ==> es[k] == es'[k]
    ensures Run(colour, es, n) == Run(colour, es', n)
    decreases n
  {
    if n > 0 {
      RunPrefix(colour, es, es', n - 1);
    }
  }

  // ---- the driver -----------------------------------------------------------------------------------

  /** The row of the transcript at the top of the screen. */
  function Top(t: Text): nat
    requires WellFormed(t)
  {
    |t.rows| - HEIGHT
  }

  predicate ShowsAt(cells: seq<Cell>, t: Text, y: nat, x: nat)
    requires |cells| == WIDTH * HEIGHT && WellFormed(t) && y < HEIGHT && x < WIDTH
  {
    cells[y * WIDTH + x] == t.rows[Top(t) + y][x]
  }

  /** The buffer holds the last 25 rows of the transcript. */
  predicate Shows(cells: seq<Cell>, t: Text) {
    && |cells| == WIDTH * HEIGHT && WellFormed(t)
    && forall y: nat, x: nat {:trigger ShowsAt(cells, t, y, x)} :: y < HEIGHT && x < WIDTH ==> ShowsAt(cells, t, y, x)
  }

  lemma ShowsBlank(cells: seq<Cell>, colour: Byte)
    requires |cells| == WIDTH * HEIGHT && forall k :: 0 <= k < |cells| ==> cells[k] == Entry(SPACE, colour)
    ensures Shows(cells, Cleared(colour))
  {
  }

  /** A character in place, with no new row. */
  lemma ShowsTyped(cells: seq<Cell>, t: Text, y: nat, e: Cell)
    requires Shows(cells, t) && y < HEIGHT && t.row == Top(t) + y
    ensures Shows(cells[y * WIDTH + t.col := e], Typed(t, e))
  {
    var cells' := cells[y * WIDTH + t.col := e];
    forall y': nat, x': nat | y' < HEIGHT && x' < WIDTH ensures ShowsAt(cells', Typed(t, e), y', x') {
      assert ShowsAt(cells, t, y', x');
    }
  }

  lemma ShowsSame(cells: seq<Cell>, t: Text, t': Text)
    requires Shows(cells, t) && WellFormed(t') && t'.rows == t.rows
    ensures Shows(cells, t')
  {
    forall y: nat, x: nat | y < HEIGHT && x < WIDTH ensures ShowsAt(cells, t', y, x) {
      assert ShowsAt(cells, t, y, x);
    }
  }

  /** A new row at the bottom, and the screen moved up. */
  lemma ShowsScrolled(cells: seq<Cell>, cells': seq<Cell>, t: Text, t': Text)
    requires Shows(cells, t) && |cells'| == |cells| && WellFormed(t') && t'.rows == t.rows + [Blank(t.colour)]
    requires forall k :: 0 <= k < |cells'| ==>
      cells'[k] == if k < (HEIGHT - 1) * WIDTH then cells[k + WIDTH] else Entry(SPACE, t.colour)
    ensures Shows(cells', t')
  {
    forall y: nat, x: nat | y < HEIGHT && x < WIDTH ensures ShowsAt(cells', t', y, x) {
      if y + 1 < HEIGHT {
        assert ShowsAt(cells, t, y + 1, x);
      }
    }
  }

  class Screen {
    const buffer: array<Cell>
    var row: nat
    var col: nat
    var colour: Byte
    ghost var text: Text

    /** The cursor is on the screen, and the buffer shows the end of the transcript. */
    ghost predicate Valid()
      reads this, buffer
    {
      && buffer.Length == WIDTH * HEIGHT && row < HEIGHT && col < WIDTH
      && Shows(buffer[..], text) && text.row == Top(text) + row && text.col == col && text.colour == colour
    }

    /** The statically initialised driver. */
    constructor (buffer: array<Cell>)
      ensures this.buffer == buffer && row == 0 && col == 0 && colour == 7
    {
      this.buffer, row, col, colour, text := buffer, 0, 0, 7, Cleared(7);
    }

    /** screen_clear */
    method Clear()
      requires buffer.Length == WIDTH * HEIGHT
      modifies this, buffer
      ensures Valid() && text == Cleared(old(colour))
    {
      for y: nat := 0 to HEIGHT
        invariant colour == old(colour)
        invariant forall k :: 0 <= k < y * WIDTH ==> buffer[k] == Entry(SPACE, colour)
      {
        for x: nat := 0 to WIDTH
          invariant colour == old(colour)
          invariant forall k :: 0 <= k < y * WIDTH + x ==> buffer[k] == Entry(SPACE, colour)
        {
          buffer[y * WIDTH + x] := Entry(SPACE, colour);
        }
      }
      row, col := 0, 0;
      text := Cleared(colour);
      ShowsBlank(buffer[..], colour);
    }

    /** screen_set_color, for the sixteen colours there are. */
    method SetColor(fg: nat, bg: nat)
      requires Valid() && fg < 16 && bg < 16
      modifies this
      ensures Valid() && text == Step(old(text), Colour(fg + 16 * bg))
    {
      ghost var t := text;
      colour := fg + 16 * bg;
      text := text.(colour := colour);
      ShowsSame(buffer[..], t, text);
    }

    /** screen_scroll */
    method Scroll()
      requires buffer.Length == WIDTH * HEIGHT
      modifies this`row, buffer
      ensures row == HEIGHT - 1
      ensures forall k :: 0 <= k < buffer.Length ==>
        buffer[k] == if k < (HEIGHT - 1) * WIDTH then old(buffer[k + WIDTH]) else Entry(SPACE, colour)
    {
      for y: nat := 0 to HEIGHT - 1
        invariant forall k :: 0 <= k < buffer.Length ==> buffer[k] == old(buffer[if k < y * WIDTH then k + WIDTH else k])
      {
        for x: nat := 0 to WIDTH
          invariant forall k :: 0 <= k < buffer.Length ==> buffer[k] == old(buffer[if k < y * WIDTH + x then k + WIDTH else k])
        {
          buffer[y * WIDTH + x] := buffer[(y + 1) * WIDTH + x];
        }
      }
      for x: nat := 0 to WIDTH
        invariant forall k :: 0 <= k < buffer.Length ==>
          buffer[k] == if k < (HEIGHT - 1) * WIDTH then old(buffer[k + WIDTH])
                       else if k < (HEIGHT - 1) * WIDTH + x then Entry(SPACE, colour) else old(buffer[k])
      {
        buffer[(HEIGHT - 1) * WIDTH + x] := Entry(SPACE, colour);
      }
      row := HEIGHT - 1;
    }

    /** screen_putchar */
    method PutChar(c: Byte)
      requires Valid()
      modifies this, buffer
      ensures Valid() && text == Put(old(text), c)
    {
      ghost var t := text;
      if c == NEWLINE {
        col := 0;
        row := row + 1;
      } else {
        ShowsTyped(buffer[..], t, row, Entry(c, colour));
        t := Typed(t, Entry(c, colour));
        buffer[row * WIDTH + col] := Entry(c, colour);
        col := col + 1;
      }
      if col >= WIDTH {
        col := 0;
        row := row + 1;
      }
      text := Put(text, c);
      ghost var cells := buffer[..];
      if row >= HEIGHT {
        Scroll();
        ShowsScrolled(cells, buffer[..], t, text);
      } else {
        ShowsSame(cells, t, text);
      }
    }

    /** screen_write; nothing for a null pointer. */
    method WriteString(str: Option<seq<Byte>>)
      requires Valid() && (str.Some? ==> 0 in str.value)
      modifies this, buffer
      ensures Valid() && text == if str.None? then old(text) else Write(old(text), str.value)
    {
      if str.None? { return; }
      var s, i := str.value, 0;
      while s[i] != 0
        invariant i <= IndexOf(s, 0) && Valid() && text == PutAll(old(text), s, i)
        decreases |s| - i
      {
        PutChar(s[i]);
        i := i + 1;
      }
    }

    /** screen_writeln */
    method WriteLine(str: Option<seq<Byte>>)
      requires Valid() && (str.Some? ==> 0 in str.value)
      modifies this, buffer
      ensures Valid() && text == Put(if str.None? then old(text) else Write(old(text), str.value), NEWLINE)
    {
      WriteString(str);
      PutChar(NEWLINE);
    }
  }
}
