// The command tokeniser (dcptool/commands.c): a line is cut into arguments in place.

module ArgSep {
  // A char of the platform is signed: octets from 128 up count as less than a space.
  type Char = x: int | -128 <= x < 128

  const MAX_ARGS := 10

  datatype Token = Token(start: nat, end: nat)

  predicate Graphic(c: Char) { c > 32 }

  function RunEnd(s: seq<Char>, p: nat): (e: nat)
    requires p <= |s|
    ensures p <= e <= |s| && (forall i :: p <= i < e ==> Graphic(s[i])) && (e < |s| ==> !Graphic(s[e]))
    decreases |s| - p
  {
    if p < |s| && Graphic(s[p]) then RunEnd(s, p + 1) else p
  }

  // The arguments from position p on. The octet after a token is skipped unseen, so a NUL
  // ends the scan unless it stands there.
  function Tokens(s: seq<Char>, p: nat): seq<Token>
    decreases |s| - p
  {
    if p >= |s| || s[p] == 0 then []
    else if Graphic(s[p]) then [Token(p, RunEnd(s, p))] + Tokens(s, RunEnd(s, p) + 1)
    else Tokens(s, p + 1)
  }

  ghost predicate EndsAt(t: seq<Token>, i: int) { exists k :: 0 <= k < |t| && t[k].end == i }

  function AtMost(n: nat, bound: nat): nat { if n < bound then n else bound }

  // The line with a NUL after each of the first nine tokens and no other octet changed.
  ghost function Separated(line: seq<Char>, maxlen: nat): (r: seq<Char>)
    requires maxlen <= |line|
  {
    var t := Tokens(line[..maxlen], 0);
    var ended := t[..AtMost(|t|, MAX_ARGS - 1)];
    seq(|line|, i requires 0 <= i < |line| => if EndsAt(ended, i) then 0 else line[i])
  }

  method Separate(line: array<Char>, maxlen: nat, argv: array<nat>) returns (argc: nat)
    requires maxlen < line.Length && argv.Length >= MAX_ARGS
    modifies line, argv
    ensures line[..] == Separated(old(line[..]), maxlen)
    ensures var t := Tokens(old(line[..maxlen]), 0);
            && argc == (if |t| < 10 then |t| else 10)
            && (forall k :: 0 <= k < argc ==> argv[k] == t[k].start)
            && (forall k :: argc <= k < argv.Length ==> argv[k] == old(argv[k]))
  {
    hide Tokens, RunEnd, EndsAt;
    ghost var s, t, whole := line[..maxlen], Tokens(line[..maxlen], 0), line[..];
    argc := 0;
    var p := 0;
    Scan(s, t, 0, 0);
    while p < maxlen
      invariant 0 <= p <= maxlen + 1 && argc < MAX_ARGS && argc <= |t| && t[argc..] == Tokens(s, p)
      invariant forall k :: 0 <= k < argc ==> argv[k] == t[k].start
      invariant forall k :: argc <= k < argv.Length ==> argv[k] == old(argv[k])
      invariant forall i :: 0 <= i < line.Length ==> line[i] == if EndsAt(t[..argc], i) then 0 else whole[i]
      invariant forall i :: p <= i < line.Length ==> !EndsAt(t[..argc], i)
    {
      Scan(s, t, p, argc);
      var c := line[p];
      if c == 0 {
        break;
      }
      if c > 32 {
        argv[argc] := p;
        argc := argc + 1;
        if argc >= MAX_ARGS {
          break;
        }
        while p < maxlen && line[p] > 32
          invariant 0 <= p <= maxlen && RunEnd(s, p) == t[argc - 1].end
          modifies {}
        {
          RunEndStep(s, p);
          p := p + 1;
        }
        RunEndStep(s, p);
        line[p] := 0;
        p := p + 1;
      } else {
        p := p + 1;
      }
    }
    Scan(s, t, p, argc);
  }

  // One step of the scan: the token at p, if there is one, is the next of the list.
  lemma Scan(s: seq<Char>, t: seq<Token>, p: nat, n: nat)
    ensures n <= |t| && t[n..] == Tokens(s, p) ==>
              if p >= |s| || s[p] == 0 then n == |t|
              else if Graphic(s[p]) then
                n < |t| && t[n] == Token(p, RunEnd(s, p)) && t[n + 1..] == Tokens(s, RunEnd(s, p) + 1)
              else t[n..] == Tokens(s, p + 1)
    ensures n < |t| ==> forall i :: EndsAt(t[..n + 1], i) <==> EndsAt(t[..n], i) || i == t[n].end
    ensures t[0..] == t && forall i :: !EndsAt(t[..0], i)
  {
    if n <= |t| && t[n..] == Tokens(s, p) && p < |s| && s[p] != 0 && Graphic(s[p]) {
      assert t[n..][0] == t[n] && t[n..][1..] == t[n + 1..];
    }
    if n < |t| {
      forall i ensures EndsAt(t[..n + 1], i) <==> EndsAt(t[..n], i) || i == t[n].end {
        if EndsAt(t[..n + 1], i) {
          var k :| 0 <= k < n + 1 && t[..n + 1][k].end == i;
          assert k < n ==> t[..n][k].end == i;
        }
        if EndsAt(t[..n], i) {
          var k :| 0 <= k < n && t[..n][k].end == i;
          assert t[..n + 1][k].end == i;
        }
        assert t[..n + 1][n] == t[n];
      }
    }
  }

  lemma RunEndStep(s: seq<Char>, p: nat)
    requires p <= |s|
    ensures if p < |s| && Graphic(s[p]) then RunEnd(s, p) == RunEnd(s, p + 1) else RunEnd(s, p) == p
  {
  }

  // ---- what the tokens are ----

  // A maximal run of characters above the space, 32.
  ghost predicate MaximalRun(s: seq<Char>, a: nat, b: nat) {
    && a < b <= |s| && (forall i :: a <= i < b ==> s[i] > 32)
    && (a > 0 ==> s[a - 1] <= 32) && (b < |s| ==> s[b] <= 32)
  }

  // The tokens are maximal runs, in order ...
  lemma {:induction false} TokensAreRuns(s: seq<Char>, p: nat, j: nat, k: nat)
    requires (0 < p <= |s| ==> !Graphic(s[p - 1])) && j <= k < |Tokens(s, p)|
    ensures var t := Tokens(s, p);
            p <= t[k].start && MaximalRun(s, t[k].start, t[k].end) && (j < k ==> t[j].end < t[k].start)
    decreases |s| - p
  {
    hide MaximalRun;
    var t := Tokens(s, p);
    if !Graphic(s[p]) {
      TokensAreRuns(s, p + 1, j, k);
    } else if k == 0 {
      RunIsMaximal(s, p);
    } else {
      var e := RunEnd(s, p);
      assert t[k] == Tokens(s, e + 1)[k - 1];
      TokensAreRuns(s, e + 1, if j > 0 then j - 1 else 0, k - 1);
    }
  }

  lemma RunIsMaximal(s: seq<Char>, p: nat)
    requires (0 < p <= |s| ==> !Graphic(s[p - 1])) && p < |s| && Graphic(s[p])
    ensures MaximalRun(s, p, RunEnd(s, p))
  {
  }

  // ... and every character above 32 that no NUL precedes is in one of them.
  lemma {:induction false} TokensCover(s: seq<Char>, p: nat, i: nat)
    requires p <= i < |s| && s[i] > 32 && forall j :: p <= j < i ==> s[j] != 0
    ensures exists k :: 0 <= k < |Tokens(s, p)| && Tokens(s, p)[k].start <= i < Tokens(s, p)[k].end
    decreases |s| - p
  {
    var t, e := Tokens(s, p), RunEnd(s, p);
    if !Graphic(s[p]) {
      TokensCover(s, p + 1, i);
    } else if i < e {
      assert t[0].start <= i < t[0].end;
    } else {
      TokensCover(s, e + 1, i);
      var k :| 0 <= k < |Tokens(s, e + 1)| && Tokens(s, e + 1)[k].start <= i < Tokens(s, e + 1)[k].end;
      assert t[k + 1] == Tokens(s, e + 1)[k];
    }
  }

  // A NUL at the front of the scan or behind a character up to 32 ends it: no token
  // reaches beyond.
  lemma {:induction false} NulEnds(s: seq<Char>, p: nat, i: nat, k: nat)
    requires p <= i < |s| && s[i] == 0 && (i == p || s[i - 1] <= 32) && k < |Tokens(s, p)|
    ensures Tokens(s, p)[k].end < i
    decreases |s| - p
  {
    if i > p && s[p] != 0 {
      if !Graphic(s[p]) {
        NulEnds(s, p + 1, i, k);
      } else if k > 0 {
        assert Tokens(s, p)[k] == Tokens(s, RunEnd(s, p) + 1)[k - 1];
        NulEnds(s, RunEnd(s, p) + 1, i, k - 1);
      }
    }
  }

  // ---- what the caller reads through argv ----

  function CString(s: seq<Char>, p: nat): seq<Char>
    decreases |s| - p
  {
    if p >= |s| || s[p] == 0 then [] else [s[p]] + CString(s, p + 1)
  }

  lemma {:induction false} CStringIs(s: seq<Char>, p: nat, e: nat)
    requires p <= e < |s| && s[e] == 0 && forall i :: p <= i < e ==> s[i] != 0
    ensures CString(s, p) == s[p..e]
    decreases e - p
  {
    if p < e {
      CStringIs(s, p + 1, e);
    }
  }

  // Each of the first nine arguments reads as exactly its token; a tenth, left unended,
  // reads as everything up to the end of the line, blanks and further words included.
  lemma {:induction false} ArgumentTexts(line: seq<Char>, maxlen: nat, k: nat)
    requires maxlen < |line| && line[maxlen] == 0 && forall i :: 0 <= i < maxlen ==> line[i] != 0
    requires k < |Tokens(line[..maxlen], 0)| && k < 10
    ensures var token := Tokens(line[..maxlen], 0)[k];
            var end := if k < 9 then token.end else maxlen;
            && token.start < end <= maxlen
            && CString(Separated(line, maxlen), token.start) == line[token.start..end]
  {
    var s := line[..maxlen];
    var t := Tokens(s, 0);
    var n := AtMost(|t|, MAX_ARGS - 1);
    var r := Separated(line, maxlen);
    TokensAreRuns(s, 0, k, k);
    var a, e := t[k].start, if k < n then t[k].end else maxlen;
    if k < n {
      assert t[..n][k].end == e;
    }
    forall i | a <= i < e ensures !EndsAt(t[..n], i) {
      if EndsAt(t[..n], i) {
        var j :| 0 <= j < n && t[..n][j].end == i;
        TokensAreRuns(s, 0, if j < k then j else k, if j < k then k else j);
      }
    }
    assert r[a..e] == line[a..e];
    CStringIs(r, a, e);
  }
}
