// The packet listing (dcptool/dcptool.c): rows of a label, a hex column and a text column.

module DumpPacket {
  import opened DcpFrame
  import opened ParseLine

  const MAXDMP := 16

  function Hex(n: nat): (s: string)
    ensures s != "" && forall i :: 0 <= i < |s| ==> IsHex(s[i])
  {
    if n < 16 then [HexDigit(n)] else Hex(n / 16) + [HexDigit(n % 16)]
  }

  function Repeat(c: char, n: nat): string { seq(n, _ => c) }

  // "%04x".
  function Label(n: nat): (s: string)
    ensures |s| >= 4 && forall i :: 0 <= i < |s| ==> IsHex(s[i])
  {
    var h := Hex(n);
    if |h| < 4 then Repeat('0', 4 - |h|) + h else h
  }

  // What a terminal can show of an octet: its low seven bits, or a dot.
  function Shown(b: Octet): char {
    var c := b % 128;
    if c < 32 || c > 126 then '.' else c as char
  }

  function Text(p: seq<Octet>): string { seq(|p|, i requires 0 <= i < |p| => Shown(p[i])) }

  function HexColumn(p: seq<Octet>): string
    requires |p| <= MAXDMP
  {
    HexDump(p) + Repeat(' ', 3 * (MAXDMP - |p|))
  }

  function Row(p: seq<Octet>, offset: nat): string
    requires |p| <= MAXDMP
  {
    Label(offset) + "  " + HexColumn(p) + " |" + Text(p) + Repeat(' ', MAXDMP - |p|) + "|\n\r"
  }

  function Rows(p: seq<Octet>, offset: nat): seq<string>
    decreases |p|
  {
    if p == [] then []
    else if |p| <= MAXDMP then [Row(p, offset)]
    else [Row(p[..MAXDMP], offset)] + Rows(p[MAXDMP..], offset + MAXDMP)
  }

  method DumpLine(p: seq<Octet>, offset: nat) returns (row: string, taken: nat)
    ensures taken == (if |p| > MAXDMP then MAXDMP else |p|) && row == Row(p[..taken], offset)
  {
    hide HexDump, HexOctet, Label, Shown, Text, Repeat;
    var len := |p|;
    if len > MAXDMP {
      len := MAXDMP;
    }
    ghost var q := p[..len];
    Columns(q, 0);
    var column, i := "", 0;
    while i < len
      invariant 0 <= i <= len && column == HexDump(q[..i])
    {
      Columns(q, i);
      column := column + HexOctet(p[i]);
      i := i + 1;
    }
    assert q[..len] == q;
    i := 0;
    ghost var pad := "";
    while i < MAXDMP - len
      invariant 0 <= i <= MAXDMP - len && column == HexDump(q) + pad && pad == Repeat(' ', 3 * i)
    {
      Blanks(i);
      column := column + "   ";
      pad := pad + "   ";
      i := i + 1;
    }
    var text := "";
    i := 0;
    while i < len
      invariant 0 <= i <= len && text == Text(q[..i])
    {
      Columns(q, i);
      text := text + [Shown(p[i])];
      i := i + 1;
    }
    var blank := "";
    i := 0;
    Blanks(0);
    while i < MAXDMP - len
      invariant 0 <= i <= MAXDMP - len && blank == Repeat(' ', i)
    {
      Blanks(i);
      blank := blank + " ";
      i := i + 1;
    }
    row := Label(offset) + "  " + column + " |" + text + blank + "|\n\r";
    taken := len;
  }

  lemma Columns(p: seq<Octet>, i: nat)
    ensures HexDump([]) == "" && Text([]) == "" && p[..0] == [] && Repeat(' ', 0) == ""
    ensures i < |p| ==> HexDump(p[..i + 1]) == HexDump(p[..i]) + HexOctet(p[i])
    ensures i < |p| ==> Text(p[..i + 1]) == Text(p[..i]) + [Shown(p[i])]
  {
    if i < |p| {
      assert p[..i + 1][..i] == p[..i];
    }
  }

  lemma Blanks(i: nat)
    ensures Repeat(' ', 0) == "" && Repeat(' ', i + 1) == Repeat(' ', i) + " "
    ensures Repeat(' ', 3 * (i + 1)) == Repeat(' ', 3 * i) + "   "
  {
  }

  method DumpPkt(p: seq<Octet>) returns (rows: seq<string>)
    ensures rows == Rows(p, 0)
  {
    hide Rows, Row;
    rows := [];
    var offset, len := 0, |p|;
    assert p[0..] == p;
    while len > 0
      invariant 0 <= len && 0 <= offset && offset + len == |p|
      invariant rows + Rows(p[offset..], offset) == Rows(p, 0)
    {
      var row, dlen := DumpLine(p[offset..], offset);
      ghost var was, rest := rows, p[offset..];
      RowsFirst(rest, offset);
      rows := rows + [row];
      assert p[offset + dlen..] == rest[dlen..];
      len := len - dlen;
      offset := offset + dlen;
      assert rows + Rows(p[offset..], offset) == was + ([row] + Rows(p[offset..], offset));
    }
    NoRows(p[offset..], offset);
  }

  lemma NoRows(p: seq<Octet>, offset: nat)
    requires p == []
    ensures Rows(p, offset) == []
  {}

  lemma RowsFirst(p: seq<Octet>, offset: nat)
    requires p != []
    ensures var n := if |p| > MAXDMP then MAXDMP else |p|;
            Rows(p, offset) == [Row(p[..n], offset)] + Rows(p[n..], offset + n)
  {
    if |p| <= MAXDMP {
      assert p[..|p|] == p && p[|p|..] == [];
    }
  }

  // ---- what the listing says ----

  lemma {:induction false} HexIsNumber(n: nat)
    ensures HexValue(Hex(n)) == n
  {
    var s := Hex(n);
    if n < 16 {
      assert s[..0] == "";
    } else {
      HexIsNumber(n / 16);
      assert s[..|s| - 1] == Hex(n / 16);
    }
  }

  lemma {:induction false} LeadingZeros(k: nat, s: string)
    requires forall i :: 0 <= i < |s| ==> IsHex(s[i])
    ensures forall i :: 0 <= i < |Repeat('0', k) + s| ==> IsHex((Repeat('0', k) + s)[i])
    ensures HexValue(Repeat('0', k) + s) == HexValue(s)
    decreases |s|, k
  {
    var z := Repeat('0', k) + s;
    if s != "" {
      LeadingZeros(k, s[..|s| - 1]);
      assert z[..|z| - 1] == Repeat('0', k) + s[..|s| - 1];
    } else if k > 0 {
      LeadingZeros(k - 1, "");
      assert z[..k - 1] == Repeat('0', k - 1) + "";
    } else {
      assert z == "";
    }
  }

  lemma {:induction false} HexDumpWidth(p: seq<Octet>)
    ensures |HexDump(p)| == 3 * |p|
  {
    if p != [] {
      HexDumpWidth(p[..|p| - 1]);
    }
  }

  lemma {:induction false} HexDumpAt(p: seq<Octet>, i: nat)
    requires i < |p|
    ensures 3 * i + 3 <= |HexDump(p)| && HexDump(p)[3 * i..3 * i + 3] == HexOctet(p[i])
  {
    var n := |p| - 1;
    HexDumpWidth(p);
    HexDumpWidth(p[..n]);
    if i < n {
      HexDumpAt(p[..n], i);
      assert HexDump(p)[3 * i..3 * i + 3] == HexDump(p[..n])[3 * i..3 * i + 3];
    }
  }

  lemma {:induction false} BlankReadsNothing(n: nat)
    ensures Reading(Repeat(' ', n), false) == [] && Readable(Repeat(' ', n), false)
  {
    if n > 0 {
      BlankReadsNothing(n - 1);
      assert Repeat(' ', n)[1..] == Repeat(' ', n - 1);
    }
  }

  lemma RowColumn(p: seq<Octet>, offset: nat)
    requires |p| <= MAXDMP
    ensures var row, l := Row(p, offset), |Label(offset)|;
            && |row| == l + 71 && row[..l] == Label(offset) && row[l + 2..l + 50] == HexColumn(p)
            && Readable(row[l + 2..l + 50], false) && Reading(row[l + 2..l + 50], false) == p
  {
    hide HexDump, Reading, Readable, Label;
    var row, l, c := Row(p, offset), |Label(offset)|, HexColumn(p);
    HexDumpWidth(p);
    assert row[..l] == Label(offset);
    assert row[l + 2..l + 50] == c;
    RoundTrip(p, Repeat(' ', 3 * (MAXDMP - |p|)));
    BlankReadsNothing(3 * (MAXDMP - |p|));
    assert p + [] == p;
  }

  // A row shows its octets twice: the hex column, which always starts after the label and
  // is 48 wide, reads as them, and below it stand their printable forms; every row with a
  // label of the same width is equally long, and its label is the position as a number.
  lemma RowReads(p: seq<Octet>, offset: nat)
    requires |p| <= MAXDMP
    ensures var row, l := Row(p, offset), |Label(offset)|;
            && |row| == l + 71
            && HexValue(row[..l]) == offset
            && Readable(row[l + 2..l + 50], false) && Reading(row[l + 2..l + 50], false) == p
            && row[l..l + 2] == "  " && row[l + 50..l + 52] == " |" && row[l + 68..] == "|\n\r"
            && forall i :: 0 <= i < MAXDMP ==>
                 row[l + 52 + i] == (if i >= |p| then ' '
                                     else if 32 <= p[i] % 128 <= 126 then (p[i] % 128) as char else '.')
  {
    hide HexDump, HexValue, Reading, Readable, Label;
    var row, l := Row(p, offset), |Label(offset)|;
    HexDumpWidth(p);
    RowColumn(p, offset);
    LabelIsNumber(offset);
    forall i | 0 <= i < MAXDMP ensures row[l + 52 + i] == if i < |p| then Shown(p[i]) else ' ' {
      assert row[l + 52..][i] == (Text(p) + Repeat(' ', MAXDMP - |p|))[i];
    }
  }

  // Each octet stands in its three columns as two digits and a space, in lower case.
  lemma RowCell(p: seq<Octet>, offset: nat, i: nat)
    requires |p| <= MAXDMP && i < MAXDMP
    ensures var row, at := Row(p, offset), |Label(offset)| + 2 + 3 * i;
            && at + 3 <= |row|
            && row[at..at + 3] ==
               if i < |p| then ["0123456789abcdef"[p[i] / 16], "0123456789abcdef"[p[i] % 16], ' '] else "   "
  {
    hide HexDump, Label, Text, Reading, Readable, HexValue;
    var row, l, c := Row(p, offset), |Label(offset)|, HexColumn(p);
    HexDumpWidth(p);
    RowColumn(p, offset);
    assert row[l + 2 + 3 * i..l + 5 + 3 * i] == row[l + 2..l + 50][3 * i..3 * i + 3];
    if i < |p| {
      HexDumpAt(p, i);
      PrintedDigit(p[i] / 16);
      PrintedDigit(p[i] % 16);
      assert c[3 * i..3 * i + 3] == HexDump(p)[3 * i..3 * i + 3];
    }
  }

  lemma LabelIsNumber(n: nat)
    ensures HexValue(Label(n)) == n
  {
    HexIsNumber(n);
    if |Hex(n)| < 4 {
      LeadingZeros(4 - |Hex(n)|, Hex(n));
    }
  }

  // A label has four digits, or as many as the number needs and no zero in front.
  lemma {:induction false} LabelWidth(n: nat)
    ensures |Hex(n)| <= 4 <==> n < 0x1_0000
    ensures n > 0 ==> Hex(n)[0] != '0'
    ensures n < 0x1_0000 ==> |Label(n)| == 4
    ensures n >= 0x1000 ==> Label(n)[0] != '0'
  {
    HexLength(n, 4);
    HexLength(n, 3);
    if n > 0 { NoLeadingZero(n); }
  }

  function Power16(k: nat): nat { if k == 0 then 1 else 16 * Power16(k - 1) }

  lemma {:induction false} HexLength(n: nat, k: nat)
    requires k > 0
    ensures |Hex(n)| <= k <==> n < Power16(k)
    decreases k
  {
    assert Power16(1) == 16 * Power16(0);
    if k > 1 && n >= 16 {
      HexLength(n / 16, k - 1);
      assert n < 16 * Power16(k - 1) <==> n / 16 < Power16(k - 1);
    } else if k > 1 {
      Power16Grows(k);
    }
  }

  lemma {:induction false} Power16Grows(k: nat)
    requires k > 0
    ensures Power16(k) >= 16
  {
    if k > 1 { Power16Grows(k - 1); }
  }

  lemma {:induction false} NoLeadingZero(n: nat)
    requires n > 0
    ensures Hex(n)[0] != '0'
  {
    if n >= 16 { NoLeadingZero(n / 16); }
  }

  // Any number printed in hex reads back modulo 256, whatever follows.
  lemma NumberReads(n: nat, rest: string)
    ensures Reading(Hex(n) + " " + rest, false) == [n % 256] + Reading(rest, false)
  {
    var h := Hex(n);
    var s := h + " " + rest;
    HexIsNumber(n);
    WholeRun(h);
    RunStops(h, rest);
    assert s[..|h|] == h && s[|h|..] == " " + rest && (" " + rest)[1..] == rest && s[0] == h[0];
  }

  lemma {:induction false} WholeRun(h: string)
    requires forall i :: 0 <= i < |h| ==> IsHex(h[i])
    ensures RunLength(h) == |h|
  {
    if h != "" { WholeRun(h[1..]); }
  }

  // The rows of a listing are labelled 0, 16, 32, ... and between them show every octet of
  // the packet, once and in order: joining what their hex columns read as gives the packet.
  function ReadBack(rows: seq<string>, offset: nat): seq<Octet>
    requires forall k :: 0 <= k < |rows| ==> |rows[k]| >= |Label(offset + MAXDMP * k)| + 50
  {
    if rows == [] then []
    else
      var l := |Label(offset)|;
      assert forall k :: 0 <= k < |rows[1..]| ==> rows[1..][k] == rows[k + 1];
      Reading(rows[0][l + 2..l + 50], false) + ReadBack(rows[1..], offset + MAXDMP)
  }

  lemma {:induction false} ListingReadsBack(p: seq<Octet>, offset: nat)
    ensures var rows := Rows(p, offset);
            && |rows| == (|p| + MAXDMP - 1) / MAXDMP
            && (forall k :: 0 <= k < |rows| ==> |rows[k]| == |Label(offset + MAXDMP * k)| + 71)
            && ReadBack(rows, offset) == p
    decreases |p|
  {
    hide Row, Label, Reading;
    var rows := Rows(p, offset);
    if p == [] {
    } else {
      var n := if |p| > MAXDMP then MAXDMP else |p|;
      RowsFirst(p, offset);
      RowColumn(p[..n], offset);
      ListingReadsBack(p[n..], offset + n);
      assert rows[1..] == Rows(p[n..], offset + n);
      if n == MAXDMP {
        forall k | 0 <= k < |rows| ensures |rows[k]| == |Label(offset + MAXDMP * k)| + 71 {
          if k > 0 {
            assert rows[k] == rows[1..][k - 1];
            assert offset + MAXDMP + MAXDMP * (k - 1) == offset + MAXDMP * k;
          }
        }
      }
      assert p[..n] + p[n..] == p;
    }
  }
}
