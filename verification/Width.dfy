// Columns a text takes on a terminal, and where the cursor of the command window goes
// (dcptool/console.c).

module Width {
  // A decoded character: how many bytes it took, and what it is. Decoding the end of the
  // text takes no byte; it is not a character.
  datatype Kind = Tab | Control | Printed(columns: int)
  datatype Character = Character(bytes: nat, kind: Kind)

  type Text = s: seq<Character> | forall i :: 0 <= i < |s| ==> s[i].bytes > 0

  const CMDWIN_LINES := 4
  const SIZE_MAX := 0xFFFF_FFFF_FFFF_FFFF

  function Max(a: int, b: int): int { if a > b then a else b }

  // What one character adds to a line that is col columns wide already. The library gives
  // -1 columns to what it cannot print.
  function Advance(kind: Kind, col: nat): (w: nat)
    ensures kind.Tab? ==> 0 < w <= 8 && (col + w) % 8 == 0
  {
    match kind
    case Tab => 8 - col % 8
    case Control => 2
    case Printed(columns) => Max(0, columns)
  }

  // The column after a text that starts at column col.
  function ColumnAfter(s: seq<Character>, col: nat): (c: nat)
    ensures c >= col
    decreases |s|
  {
    if s == [] then col else ColumnAfter(s[1..], col + Advance(s[0].kind, col))
  }

  function Bytes(s: seq<Character>): nat {
    if s == [] then 0 else s[0].bytes + Bytes(s[1..])
  }

  // The characters that start within the first n bytes.
  function Within(s: seq<Character>, n: int): (r: seq<Character>)
    ensures r <= s
    decreases |s|
  {
    if s == [] || n <= 0 then [] else [s[0]] + Within(s[1..], n - s[0].bytes)
  }

  // Rounding up to the next tab stop, as the bits of the width say it.
  function ClearLow3(x: nat): nat { x - x % 8 }

  method StrnWidth(s: Text, n: nat, offset: nat) returns (width: nat)
    ensures offset + width == ColumnAfter(Within(s, n), offset)
  {
    hide ColumnAfter, Within, Bytes;
    width := 0;
    var i, k := 0, 0;
    assert s[0..] == s;
    while i < n
      invariant 0 <= i && 0 <= k <= |s|
      invariant ColumnAfter(Within(s[k..], n - i), offset + width) == ColumnAfter(Within(s, n), offset)
      decreases |s| - k, n - i
    {
      NextColumn(s, k, n - i, offset + width);
      if k == |s| {
        break;
      }
      var wc := s[k];
      if wc.kind.Tab? {
        width := ClearLow3(width + offset + 8) - offset;
      } else {
        width := width + if wc.kind.Control? then 2 else Max(0, wc.kind.columns);
      }
      i := i + wc.bytes;
      k := k + 1;
    }
    NextColumn(s, k, n - i, offset + width);
  }

  lemma NextColumn(s: Text, k: nat, left: int, col: nat)
    requires k <= |s|
    ensures ColumnAfter(Within(s[k..], left), col) ==
            if k == |s| || left <= 0 then col
            else ColumnAfter(Within(s[k + 1..], left - s[k].bytes), col + Advance(s[k].kind, col))
  {
    if k < |s| {
      assert s[k..][1..] == s[k + 1..];
    }
  }

  // Every text in memory has fewer bytes than the largest size.
  method StrWidth(s: Text, offset: nat) returns (width: nat)
    requires Bytes(s) <= SIZE_MAX
    ensures offset + width == ColumnAfter(s, offset)
  {
    WithinAll(s, SIZE_MAX);
    width := StrnWidth(s, SIZE_MAX, offset);
  }

  // Where the command window puts its cursor: prompt and line up to the editing point are
  // measured as one text, tab stops included. A position beyond the window scrolls the
  // line so that the cursor stands in the middle; start is then the byte shown first.
  method CursorCell(prompt: Text, text: Text, point: nat, cols: nat) returns (row: int, col: int, start: int)
    requires cols > 0 && Bytes(prompt) <= SIZE_MAX
    ensures var position, middle := ColumnAfter(prompt + Within(text, point), 0), 2 * cols - cols / 2;
            if position < cols * CMDWIN_LINES then CellAt(row, col, cols, position) && start == 0
            else CellAt(row, col, cols, middle) && start == point - middle
  {
    hide ColumnAfter, Within, Bytes, CellAt;
    var promptWidth := StrWidth(prompt, 0);
    var width := StrnWidth(text, point, promptWidth);
    var rlpos := promptWidth + width;
    var maxchars := cols * CMDWIN_LINES;
    ColumnsCompose(prompt, Within(text, point), 0);
    start := 0;
    if rlpos >= maxchars {
      rlpos := maxchars / 2 - cols / 2;
      start := point - rlpos;
    }
    Cell(rlpos, cols);
    if rlpos >= cols {
      row := rlpos / cols;
      col := rlpos % cols;
    } else {
      row := 0;
      col := rlpos;
    }
    if row >= CMDWIN_LINES {
      row := CMDWIN_LINES - 1;
    }
  }

  // The cell of the window, read line by line, that is a given number of cells in.
  predicate CellAt(row: int, col: int, cols: nat, position: int) {
    0 <= row < CMDWIN_LINES && 0 <= col < cols && row * cols + col == position
  }

  // A position before the end of the window lies on one of its lines.
  lemma Cell(position: int, cols: nat)
    requires 0 < cols && 0 <= position < cols * CMDWIN_LINES
    ensures position / cols < CMDWIN_LINES && CellAt(position / cols, position % cols, cols, position)
    ensures position < cols ==> CellAt(0, position, cols, position)
  {
    var q := position / cols;
    assert q >= CMDWIN_LINES ==> q * cols >= CMDWIN_LINES * cols;
  }

  // ---- composition ----

  lemma {:induction false} WithinAll(s: seq<Character>, n: int)
    requires n >= Bytes(s) && forall i :: 0 <= i < |s| ==> s[i].bytes > 0
    ensures Within(s, n) == s
  {
    if s != [] {
      WithinAll(s[1..], n - s[0].bytes);
    }
  }

  // A text in two parts is as wide as the first and then the second from where it ends.
  lemma {:induction false} ColumnsCompose(a: seq<Character>, b: seq<Character>, col: nat)
    ensures ColumnAfter(a + b, col) == ColumnAfter(b, ColumnAfter(a, col))
  {
    if a == [] {
      assert a + b == b;
    } else {
      assert (a + b)[1..] == a[1..] + b;
      ColumnsCompose(a[1..], b, col + Advance(a[0].kind, col));
    }
  }

  // Cutting at a byte position that is a character boundary.
  lemma {:induction false} WithinFront(a: seq<Character>, b: seq<Character>)
    requires forall i :: 0 <= i < |a| ==> a[i].bytes > 0
    ensures Within(a + b, Bytes(a)) == a
  {
    if a != [] {
      assert (a + b)[1..] == a[1..] + b;
      WithinFront(a[1..], b);
    }
  }

  // Columns depend on where a text starts only through the tab stops.
  lemma {:induction false} TabPeriod(s: seq<Character>, col: nat)
    ensures ColumnAfter(s, col + 8) == ColumnAfter(s, col) + 8
  {
    if s != [] {
      AdvancePeriod(s[0].kind, col);
      hide Advance;
      TabPeriod(s[1..], col + Advance(s[0].kind, col));
    }
  }

  lemma AdvancePeriod(kind: Kind, col: nat)
    ensures Advance(kind, col + 8) == Advance(kind, col)
  {
  }

  // What characters count: one column for each printable one, two for a control or a wide
  // character, none for one that is not printed.
  lemma {:induction false} CharactersCount(s: seq<Character>, col: nat)
    ensures (forall c <- s :: c.kind == Printed(1)) ==> ColumnAfter(s, col) == col + |s|
    ensures (forall c <- s :: c.kind == Control || c.kind == Printed(2)) ==> ColumnAfter(s, col) == col + 2 * |s|
    ensures (forall c <- s :: c.kind.Printed? && c.kind.columns <= 0) ==> ColumnAfter(s, col) == col
  {
    if s != [] {
      assert s[0] in s && forall c <- s[1..] :: c in s;
      CharactersCount(s[1..], col + Advance(s[0].kind, col));
    }
  }

  // A tab goes to the next multiple of eight.
  lemma TabStops(s: seq<Character>, col: nat)
    requires s != [] && s[|s| - 1].kind == Tab
    ensures var before := ColumnAfter(s[..|s| - 1], col);
            ColumnAfter(s, col) % 8 == 0 && before < ColumnAfter(s, col) <= before + 8
  {
    var n := |s| - 1;
    assert s == s[..n] + [s[n]];
    ColumnsCompose(s[..n], [s[n]], col);
  }
}
