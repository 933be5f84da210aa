// The command line of dcptool (dcptool/dcptool.c): hex bytes and quoted text read into a
// packet, and the "%02x " printers that it inverts.

module ParseLine {
  import opened DcpFrame

  const MAX_PACKET := 32

  predicate IsHex(c: char) { '0' <= c <= '9' || 'a' <= c <= 'f' || 'A' <= c <= 'F' }

  function DigitValue(c: char): (v: int)
    requires IsHex(c)
    ensures 0 <= v < 16
  {
    if c <= '9' then c as int - '0' as int
    else if c <= 'F' then c as int - 'A' as int + 10
    else c as int - 'a' as int + 10
  }

  // The maximal run of hex digits at the front of a text, as sscanf's %x takes it.
  function RunLength(s: string): (n: nat)
    ensures n <= |s| && forall i :: 0 <= i < n ==> IsHex(s[i])
    ensures n < |s| ==> !IsHex(s[n])
  {
    if s == "" || !IsHex(s[0]) then 0 else 1 + RunLength(s[1..])
  }

  function HexValue(s: string): (v: nat)
    requires forall i :: 0 <= i < |s| ==> IsHex(s[i])
  {
    if s == "" then 0 else HexValue(s[..|s| - 1]) * 16 + DigitValue(s[|s| - 1])
  }

  // %x also takes a 0x prefix, and is undefined beyond 32 bits: a run starts at the front
  // of this text that it reads as the plain run of digits it is.
  predicate PlainRun(s: string) {
    var n := RunLength(s);
    n <= 8 && !(n == 1 && s[0] == '0' && |s| > 1 && (s[1] == 'x' || s[1] == 'X'))
  }

  function CharOctet(c: char): Octet { c as int % 256 }

  // An unbounded reading of a line, inside or outside quotes.
  function Reading(s: string, quoted: bool): seq<Octet>
    decreases |s|
  {
    if s == "" then []
    else if quoted then
      if s[0] == '"' then Reading(s[1..], false) else [CharOctet(s[0])] + Reading(s[1..], true)
    else if IsHex(s[0]) then
      var n := RunLength(s);
      [HexValue(s[..n]) % 256] + Reading(s[n..], false)
    else Reading(s[1..], s[0] == '"')
  }

  // Every hex run the reading meets is a plain one.
  ghost predicate Readable(s: string, quoted: bool)
    decreases |s|
  {
    if s == "" then true
    else if quoted then Readable(s[1..], s[0] != '"')
    else if IsHex(s[0]) then PlainRun(s) && Readable(s[RunLength(s)..], false)
    else Readable(s[1..], s[0] == '"')
  }

  // The conversion of one plain run: its value and how many characters it took.
  method Sscanf(s: string) returns (value: nat, taken: nat)
    requires s != "" && IsHex(s[0]) && PlainRun(s)
    ensures taken == RunLength(s) && value == HexValue(s[..taken])
  {
    value, taken := 0, 0;
    while taken < |s| && IsHex(s[taken])
      invariant taken <= RunLength(s) && value == HexValue(s[..taken])
    {
      assert s[..taken + 1][..taken] == s[..taken];
      value := value * 16 + DigitValue(s[taken]);
      taken := taken + 1;
    }
  }

  // What has been stored so far, and what the rest of the line still holds.
  ghost predicate Stored(whole: seq<Octet>, done: seq<Octet>, line: string, p: nat, quoted: bool) {
    p <= |line| && Readable(line[p..], quoted) && done + Reading(line[p..], quoted) == whole
  }

  // The conversion of the run of digits at position p is the next octet.
  lemma StoreRun(whole: seq<Octet>, done: seq<Octet>, line: string, p: nat)
    requires p < |line| && IsHex(line[p]) && Stored(whole, done, line, p, false)
    ensures PlainRun(line[p..])
    ensures var n := RunLength(line[p..]);
            0 < n <= |line| - p && Stored(whole, done + [HexValue(line[p..][..n]) % 256], line, p + n, false)
  {
    hide HexValue, IsHex;
    var rest := line[p..];
    var n := RunLength(rest);
    assert rest[n..] == line[p + n..];
    assert (done + [HexValue(rest[..n]) % 256]) + Reading(rest[n..], false) == whole;
  }

  // A quotation mark, a quoted character or a character of no meaning at position p.
  lemma StoreChar(whole: seq<Octet>, done: seq<Octet>, line: string, p: nat, quoted: bool)
    requires p < |line| && (quoted || !IsHex(line[p])) && Stored(whole, done, line, p, quoted)
    ensures Stored(whole, if quoted && line[p] != '"' then done + [CharOctet(line[p])] else done,
                   line, p + 1, quoted != (line[p] == '"'))
  {
    assert line[p..][1..] == line[p + 1..];
    if quoted && line[p] != '"' {
      assert (done + [CharOctet(line[p])]) + Reading(line[p + 1..], true) == whole;
    }
  }

  lemma StoredNone(line: string)
    requires Readable(line, false)
    ensures Stored(Reading(line, false), [], line, 0, false)
  {
    assert line[0..] == line;
  }

  lemma StoredAll(whole: seq<Octet>, done: seq<Octet>, line: string, p: nat, quoted: bool)
    requires Stored(whole, done, line, p, quoted)
    ensures |done| <= |whole| && done == whole[..|done|] && (p == |line| ==> done == whole)
  {
  }

  method Parse(buf: array<Octet>, line: string) returns (blen: nat)
    requires buf.Length >= MAX_PACKET && Readable(line, false)
    modifies buf
    ensures var r := Reading(line, false);
            && blen == (if |r| < 32 then |r| else 32)
            && buf[..blen] == r[..blen]
    ensures forall i :: blen <= i < buf.Length ==> buf[i] == old(buf[i])
  {
    hide Reading, Readable, RunLength, HexValue, PlainRun, CharOctet, Stored, IsHex;
    var len := |line|;
    var p := 0;
    blen := 0;
    ghost var quoted, whole := false, Reading(line, false);
    ghost var done: seq<Octet> := [];
    StoredNone(line);
    while len > 0 && blen < MAX_PACKET
      invariant 0 <= p && 0 <= len && p + len == |line| && blen <= MAX_PACKET
      invariant Stored(whole, done, line, p, quoted) && buf[..blen] == done
      invariant quoted ==> len == 0 || blen == MAX_PACKET
      invariant forall i :: blen <= i < buf.Length ==> buf[i] == old(buf[i])
    {
      var c := line[p];
      if IsHex(c) {
        StoreRun(whole, done, line, p);
        var value, taken := Sscanf(line[p..]);
        p := p + taken;
        len := len - taken;
        buf[blen] := value % 256;
        done := done + [value % 256];
        blen := blen + 1;
      } else if c == '"' {
        StoreChar(whole, done, line, p, false);
        p := p + 1;
        len := len - 1;
        quoted := true;
        while len > 0 && blen < MAX_PACKET
          invariant 0 <= p && 0 <= len && p + len == |line| && blen <= MAX_PACKET
          invariant Stored(whole, done, line, p, true) && buf[..blen] == done
          invariant forall i :: blen <= i < buf.Length ==> buf[i] == old(buf[i])
        {
          StoreChar(whole, done, line, p, true);
          c := line[p];
          p := p + 1;
          len := len - 1;
          if c == '"' {
            quoted := false;
            break;
          }
          buf[blen] := CharOctet(c);
          done := done + [CharOctet(c)];
          blen := blen + 1;
        }
      } else {
        StoreChar(whole, done, line, p, false);
        p := p + 1;
        len := len - 1;
      }
    }
    StoredAll(whole, done, line, p, quoted);
  }

  // ---- joining lines ----

  // Whether a text leaves a quotation open.
  function OpenAfter(s: string, quoted: bool): bool
    decreases |s|
  {
    if s == "" then quoted
    else if quoted then OpenAfter(s[1..], s[0] != '"')
    else if IsHex(s[0]) then OpenAfter(s[RunLength(s)..], false)
    else OpenAfter(s[1..], s[0] == '"')
  }

  // A space ends whatever run of digits stands before it.
  lemma {:induction false} RunStops(a: string, b: string)
    ensures RunLength(a + " " + b) == RunLength(a)
  {
    if a == "" {
      assert (a + " " + b)[0] == ' ';
    } else {
      RunStops(a[1..], b);
      assert (a + " " + b)[1..] == a[1..] + " " + b;
    }
  }

  // The first character or run of a text is read alike with more text behind it.
  lemma JoinStep(a: string, b: string, quoted: bool) returns (n: nat, q: bool, head: seq<Octet>)
    requires a != ""
    ensures 0 < n <= |a| && OpenAfter(a, quoted) == OpenAfter(a[n..], q)
    ensures Reading(a, quoted) == head + Reading(a[n..], q)
    ensures Reading(a + " " + b, quoted) == head + Reading(a[n..] + " " + b, q)
  {
    hide HexValue;
    RunStops(a, b);
    n := if !quoted && IsHex(a[0]) then RunLength(a) else 1;
    q := if quoted then a[0] != '"' else !IsHex(a[0]) && a[0] == '"';
    head := if quoted then (if q then [CharOctet(a[0])] else [])
            else if IsHex(a[0]) then [HexValue(a[..n]) % 256] else [];
    var s := a + " " + b;
    assert s[0] == a[0] && s[n..] == a[n..] + " " + b && s[..n] == a[..n];
  }

  lemma JoinNothing(b: string, quoted: bool)
    ensures Reading("", quoted) == [] && OpenAfter("", quoted) == quoted
    ensures Reading(" " + b, quoted) == if quoted then [32] + Reading(b, true) else Reading(b, false)
  {
    assert (" " + b)[1..] == b;
  }

  // Reading two texts joined by a space is reading them one after the other when the first
  // leaves no quotation open; otherwise the space and the second text are quoted.
  lemma {:induction false} ReadingDistributes(a: string, b: string, quoted: bool)
    ensures Reading(a + " " + b, quoted) ==
            Reading(a, quoted) +
            if OpenAfter(a, quoted) then [32] + Reading(b, true) else Reading(b, false)
    decreases |a|
  {
    hide *;
    if a == "" {
      JoinNothing(b, quoted);
      assert a + " " + b == " " + b;
    } else {
      var n, q, head := JoinStep(a, b, quoted);
      ReadingDistributes(a[n..], b, q);
    }
  }

  // Quoted text stands for its own characters.
  lemma QuotedText(text: string, rest: string)
    requires '"' !in text
    ensures Reading("\"" + text + "\"" + rest, false) ==
            seq(|text|, i requires 0 <= i < |text| => text[i] as int % 256) + Reading(rest, false)
  {
    var s := "\"" + text + "\"" + rest;
    assert s[1..] == text + "\"" + rest && !IsHex('"');
    InQuotes(text, rest);
  }

  lemma {:induction false} InQuotes(text: string, rest: string)
    requires '"' !in text
    ensures Reading(text + "\"" + rest, true) ==
            seq(|text|, i requires 0 <= i < |text| => text[i] as int % 256) + Reading(rest, false)
  {
    var s := text + "\"" + rest;
    if text == "" {
      assert s[0] == '"' && s[1..] == rest;
    } else {
      InQuotes(text[1..], rest);
      assert s[1..] == text[1..] + "\"" + rest && s[0] == text[0];
    }
  }

  // The hex digits and their values, capitals included.
  lemma HexDigits(c: char)
    ensures IsHex(c) <==> c in "0123456789abcdefABCDEF"
    ensures IsHex(c) ==> c == "0123456789abcdef"[DigitValue(c)] || c == "0123456789ABCDEF"[DigitValue(c)]
  {}

  // Characters outside quotes that are neither hex digits nor quotation marks mean nothing.
  lemma {:induction false} SkippedText(text: string, rest: string)
    requires forall c <- text :: c != '"' && !IsHex(c)
    ensures Reading(text + rest, false) == Reading(rest, false)
  {
    if text == "" {
      assert text + rest == rest;
    } else {
      assert forall c <- text[1..] :: c in text;
      SkippedText(text[1..], rest);
      assert text[0] in text && (text + rest)[1..] == text[1..] + rest;
    }
  }

  // ---- upper and lower case ----

  // The same character, or the same hex digit in the other case.
  predicate SameButCase(c: char, d: char) {
    c == d || (IsHex(c) && IsHex(d) && (c as int == d as int + 32 || d as int == c as int + 32))
  }

  // Two texts that differ only in the case of hex digits outside quotes.
  predicate OtherCase(s: string, t: string, quoted: bool)
    decreases |s|
  {
    if s == "" then t == ""
    else
      && t != "" && (if quoted then s[0] == t[0] else SameButCase(s[0], t[0]))
      && OtherCase(s[1..], t[1..], quoted != (s[0] == '"'))
  }

  lemma CaseOfDigit(c: char, d: char)
    requires SameButCase(c, d)
    ensures IsHex(c) == IsHex(d) && (c == '"' <==> d == '"')
    ensures IsHex(c) ==> DigitValue(c) == DigitValue(d)
  {}

  // A run of digits is as long and has the same value in both texts, which go on alike.
  lemma {:induction false} CaseOfRun(s: string, t: string)
    requires OtherCase(s, t, false)
    ensures var n := RunLength(s);
            && RunLength(t) == n && HexValue(s[..n]) == HexValue(t[..n])
            && OtherCase(s[n..], t[n..], false)
            && forall i :: 0 <= i < n ==> SameButCase(s[i], t[i])
    decreases |s|
  {
    hide HexValue, SameButCase, IsHex;
    if s != "" {
      CaseOfDigit(s[0], t[0]);
      var n := RunLength(s);
      if IsHex(s[0]) {
        CaseOfRun(s[1..], t[1..]);
        assert s[1..][n - 1..] == s[n..] && t[1..][n - 1..] == t[n..];
        assert forall i :: 1 <= i < n ==> s[i] == s[1..][i - 1] && t[i] == t[1..][i - 1];
      }
      CaseOfValue(s[..n], t[..n]);
    }
  }

  lemma {:induction false} CaseOfValue(a: string, b: string)
    requires |a| == |b| && forall i :: 0 <= i < |a| ==> IsHex(a[i]) && IsHex(b[i]) && SameButCase(a[i], b[i])
    ensures HexValue(a) == HexValue(b)
  {
    hide SameButCase, IsHex, DigitValue;
    if a != "" {
      var n := |a| - 1;
      CaseOfValue(a[..n], b[..n]);
      CaseOfDigit(a[n], b[n]);
    }
  }

  // Reading does not depend on the case of hex digits.
  lemma {:induction false} CaseDoesNotMatter(s: string, t: string, quoted: bool)
    requires OtherCase(s, t, quoted)
    ensures Reading(s, quoted) == Reading(t, quoted)
    decreases |s|
  {
    hide HexValue;
    if s != "" {
      if quoted {
        CaseDoesNotMatter(s[1..], t[1..], s[0] != '"');
      } else {
        CaseOfDigit(s[0], t[0]);
        if IsHex(s[0]) {
          CaseOfRun(s, t);
          CaseDoesNotMatter(s[RunLength(s)..], t[RunLength(s)..], false);
        } else {
          CaseDoesNotMatter(s[1..], t[1..], s[0] == '"');
        }
      }
    }
  }

  // Whatever the case of its digits, a printed packet reads back.
  lemma AnyCaseRoundTrip(p: seq<Octet>, text: string)
    requires OtherCase(HexDump(p), text, false)
    ensures Reading(text, false) == p
  {
    hide OtherCase, HexDump;
    CaseDoesNotMatter(HexDump(p), text, false);
    RoundTrip(p, "");
    assert HexDump(p) + "" == HexDump(p) && Reading("", false) == [] && p + [] == p;
  }

  // Two digits in capitals in front of any text read as their octet and then the text.
  lemma ReadCapitals(b: Octet, rest: string)
    ensures Reading(["0123456789ABCDEF"[b / 16], "0123456789ABCDEF"[b % 16], ' '] + rest, false) ==
            [b] + Reading(rest, false)
  {
    hide Reading, IsHex, DigitValue;
    Capital(b / 16);
    Capital(b % 16);
    ReadDigits("0123456789ABCDEF"[b / 16], "0123456789ABCDEF"[b % 16], rest);
  }

  lemma Capital(v: int)
    requires 0 <= v < 16
    ensures var c := "0123456789ABCDEF"[v]; IsHex(c) && DigitValue(c) == v
  {}

  // ---- printing ----

  function HexDigit(v: int): (c: char)
    requires 0 <= v < 16
    ensures IsHex(c) && DigitValue(c) == v
  {
    if v < 10 then '0' + v as char else 'a' + (v - 10) as char
  }

  lemma PrintedDigit(v: int)
    requires 0 <= v < 16
    ensures HexDigit(v) == "0123456789abcdef"[v]
  {}

  // "%02x ".
  function HexOctet(b: Octet): string { [HexDigit(b / 16), HexDigit(b % 16), ' '] }

  function HexDump(p: seq<Octet>): string {
    if p == [] then "" else HexDump(p[..|p| - 1]) + HexOctet(p[|p| - 1])
  }

  lemma {:induction false} HexDumpFront(p: seq<Octet>)
    requires p != []
    ensures HexDump(p) == HexOctet(p[0]) + HexDump(p[1..])
  {
    hide HexOctet;
    var n := |p| - 1;
    if n > 0 {
      HexDumpFront(p[..n]);
      assert p[..n][1..] == p[1..][..n - 1];
    } else {
      assert p[1..] == [] && p[..n] == [];
    }
  }

  // Two hex digits and a space in front of any text read as one octet and then the text.
  lemma ReadDigits(h: char, l: char, rest: string)
    requires IsHex(h) && IsHex(l)
    ensures Reading([h, l, ' '] + rest, false) == [DigitValue(h) * 16 + DigitValue(l)] + Reading(rest, false)
    ensures Readable([h, l, ' '] + rest, false) == Readable(rest, false)
  {
    hide RunLength, HexValue, PlainRun, DigitValue;
    var s := [h, l, ' '] + rest;
    TwoDigits(h, l, rest);
    assert s[2..] == " " + rest && s[2..][1..] == rest;
    assert Reading(s[2..], false) == Reading(rest, false);
    assert Readable(s[2..], false) == Readable(rest, false);
  }

  // One printed octet in front of any text reads as that octet and then the text.
  lemma ReadOctet(b: Octet, rest: string)
    ensures Reading(HexOctet(b) + rest, false) == [b] + Reading(rest, false)
    ensures Readable(HexOctet(b) + rest, false) == Readable(rest, false)
  {
    hide Reading, Readable, IsHex, DigitValue;
    ReadDigits(HexDigit(b / 16), HexDigit(b % 16), rest);
  }

  // Reading inverts the hex printers, whatever is printed after them.
  lemma {:induction false} RoundTrip(p: seq<Octet>, rest: string)
    ensures Reading(HexDump(p) + rest, false) == p + Reading(rest, false)
    ensures Readable(HexDump(p) + rest, false) == Readable(rest, false)
  {
    if p == [] {
      assert HexDump(p) + rest == rest;
    } else {
      hide *;
      RoundTrip(p[1..], rest);
      HexDumpFront(p);
      Associative(HexOctet(p[0]), HexDump(p[1..]), rest);
      ReadOctet(p[0], HexDump(p[1..]) + rest);
      Associative([p[0]], p[1..], Reading(rest, false));
      assert p == [p[0]] + p[1..];
    }
  }

  lemma Associative<T>(a: seq<T>, b: seq<T>, c: seq<T>)
    ensures a + (b + c) == a + b + c
  {}

  lemma TwoDigits(h: char, l: char, rest: string)
    requires IsHex(h) && IsHex(l)
    ensures var s := [h, l, ' '] + rest;
            RunLength(s) == 2 && HexValue(s[..2]) == DigitValue(h) * 16 + DigitValue(l) && PlainRun(s)
  {
    var s := [h, l, ' '] + rest;
    assert s[1..][0] == l && s[1..][1..][0] == ' ';
    assert s[..2][..1] == [h] && [h][..0] == "";
    assert HexValue([h]) == DigitValue(h);
  }
}
