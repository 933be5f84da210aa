// The line-wrapping printer of SliceVector (yate-svn/yatemath.h): elements separated by
// `sep`, a prefix inserted wherever the next element would overflow the line.

module WrapDump {
  // What is appended for each element: its text, and the separator unless it is the last.
  function Chunks<T>(d: seq<T>, show: T -> string, sep: string): (c: seq<string>)
    ensures |c| == |d|
  {
    seq(|d|, i requires 0 <= i < |d| => show(d[i]) + if i + 1 < |d| then sep else "")
  }

  // The text of a placement: a line prefix stands before chunk i where breaks[i] says so.
  function Layout(chunks: seq<string>, prefix: string, breaks: seq<bool>): string
    requires |chunks| == |breaks|
  {
    if chunks == [] then ""
    else
      var n := |chunks| - 1;
      Layout(chunks[..n], prefix, breaks[..n]) + (if breaks[n] then prefix else "") + chunks[n]
  }

  // The column reached after the first chunks of a placement; prefixes are not counted.
  function Column(chunks: seq<string>, offset: nat, breaks: seq<bool>): nat
    requires |chunks| == |breaks|
  {
    if chunks == [] then offset
    else
      var n := |chunks| - 1;
      (if breaks[n] then 0 else Column(chunks[..n], offset, breaks[..n])) + |chunks[n]|
  }

  // The placement the printer chooses: break where the next chunk would overflow.
  function Greedy(chunks: seq<string>, offset: nat, lineLen: nat): (b: seq<bool>)
    ensures |b| == |chunks|
  {
    if chunks == [] then []
    else
      var n := |chunks| - 1;
      var front := Greedy(chunks[..n], offset, lineLen);
      front + [Column(chunks[..n], offset, front) + |chunks[n]| > lineLen]
  }

  function BreakCount(breaks: seq<bool>): nat {
    if breaks == [] then 0
    else BreakCount(breaks[..|breaks| - 1]) + if breaks[|breaks| - 1] then 1 else 0
  }

  // A placement is legal when no line it writes to grows beyond lineLen.
  ghost predicate Fits(chunks: seq<string>, offset: nat, breaks: seq<bool>, lineLen: nat)
    requires |chunks| == |breaks|
  {
    chunks == [] ||
    (var n := |chunks| - 1;
     Fits(chunks[..n], offset, breaks[..n], lineLen) && Column(chunks, offset, breaks) <= lineLen)
  }

  // Elements joined by the separator, as String::append with a separator builds it.
  function Plain<T>(d: seq<T>, show: T -> string, sep: string): string {
    if d == [] then ""
    else
      var front := Plain(d[..|d| - 1], show, sep);
      front + (if front != "" then sep else "") + show(d[|d| - 1])
  }

  function Join<T>(d: seq<T>, show: T -> string, sep: string): string {
    if d == [] then ""
    else Join(d[..|d| - 1], show, sep) + (if |d| > 1 then sep else "") + show(d[|d| - 1])
  }

  // The wrapping dump. An empty prefix stands for an absent one.
  method Dump<T>(buf: string, d: seq<T>, show: T -> string, lineLen: nat, offset: nat,
                 linePrefix: string, suffix: string, sep: string)
    returns (r: string)
    ensures var prefix := if linePrefix == "" then suffix else linePrefix;
            if d != [] && (lineLen == 0 || prefix == "") then r == buf + Plain(d, show, sep) + suffix
            else
              var chunks := Chunks(d, show, sep);
              r == buf + Layout(chunks, prefix, Greedy(chunks, offset, lineLen)) + suffix
  {
    if d == [] {
      assert buf + "" == buf;
      return buf + suffix;
    }
    var prefix := if linePrefix == "" then suffix else linePrefix;
    if lineLen == 0 || prefix == "" {
      return buf + Plain(d, show, sep) + suffix;
    }
    ghost var chunks := Chunks(d, show, sep);
    var localBuf, column, i := "", offset, 0;
    while i < |d|
      invariant 0 <= i <= |d|
      invariant localBuf == Layout(chunks[..i], prefix, Greedy(chunks[..i], offset, lineLen))
      invariant column == Column(chunks[..i], offset, Greedy(chunks[..i], offset, lineLen))
    {
      var tmp := show(d[i]);
      i := i + 1;
      assert tmp + "" == tmp;
      if i != |d| {
        tmp := tmp + sep;
      }
      column := column + |tmp|;
      assert localBuf + "" == localBuf;
      assert tmp == chunks[i - 1] && chunks[..i][..i - 1] == chunks[..i - 1];
      if column > lineLen {
        localBuf := localBuf + prefix;
        column := |tmp|;
      }
      localBuf := localBuf + tmp;
    }
    assert chunks[..|d|] == chunks;
    return buf + localBuf + suffix;
  }

  lemma {:induction false} ContentUpTo<T>(d: seq<T>, show: T -> string, sep: string, breaks: seq<bool>, n: nat)
    requires |breaks| == |d| && n < |d|
    ensures Layout(Chunks(d, show, sep)[..n], "", breaks[..n]) + show(d[n]) == Join(d[..n + 1], show, sep)
  {
    var chunks := Chunks(d, show, sep);
    assert d[..n + 1][..n] == d[..n];
    if n > 0 {
      ContentUpTo(d, show, sep, breaks, n - 1);
      assert chunks[..n][..n - 1] == chunks[..n - 1] && breaks[..n][..n - 1] == breaks[..n - 1];
      assert chunks[n - 1] == show(d[n - 1]) + sep;
    }
  }

  lemma ContentJoined<T>(d: seq<T>, show: T -> string, sep: string, breaks: seq<bool>)
    requires |breaks| == |d|
    ensures Layout(Chunks(d, show, sep), "", breaks) == Join(d, show, sep)
  {
    if d != [] {
      var n := |d| - 1;
      ContentUpTo(d, show, sep, breaks, n);
      assert d[..n + 1] == d && Chunks(d, show, sep)[n] == show(d[n]) + "";
    }
  }

  // Where in the text of a placement the inserted prefixes begin.
  function Cuts(chunks: seq<string>, width: nat, breaks: seq<bool>): (c: seq<nat>)
    requires |chunks| == |breaks|
  {
    if chunks == [] then []
    else
      var n := |chunks| - 1;
      Cuts(chunks[..n], width, breaks[..n]) +
      if breaks[n] then [TextLength(chunks[..n], width, breaks[..n])] else []
  }

  function TextLength(chunks: seq<string>, width: nat, breaks: seq<bool>): nat
    requires |chunks| == |breaks|
  {
    if chunks == [] then 0
    else
      var n := |chunks| - 1;
      TextLength(chunks[..n], width, breaks[..n]) + (if breaks[n] then width else 0) + |chunks[n]|
  }

  // A text with `width` characters taken out at each of some positions, from the last back.
  function TakenOut(text: string, cuts: seq<nat>, width: nat): string
    decreases |cuts|
  {
    if cuts == [] then text
    else
      var at := cuts[|cuts| - 1];
      if at + width > |text| then text
      else TakenOut(text[..at], cuts[..|cuts| - 1], width) + text[at + width..]
  }

  lemma {:induction false} CutsFit(chunks: seq<string>, prefix: string, breaks: seq<bool>)
    requires |chunks| == |breaks|
    ensures |Layout(chunks, prefix, breaks)| == TextLength(chunks, |prefix|, breaks)
    ensures forall c <- Cuts(chunks, |prefix|, breaks) :: c + |prefix| <= TextLength(chunks, |prefix|, breaks)
  {
    if chunks != [] {
      CutsFit(chunks[..|chunks| - 1], prefix, breaks[..|chunks| - 1]);
    }
  }

  // Text behind the last cut stays.
  lemma {:induction false} TakenOutAppend(text: string, more: string, cuts: seq<nat>, width: nat)
    requires forall c <- cuts :: c + width <= |text|
    ensures TakenOut(text + more, cuts, width) == TakenOut(text, cuts, width) + more
  {
    if cuts != [] {
      var at := cuts[|cuts| - 1];
      assert at in cuts;
      assert (text + more)[..at] == text[..at] && (text + more)[at + width..] == text[at + width..] + more;
    }
  }

  lemma LastCut(front: string, prefix: string, last: string, cuts: seq<nat>)
    ensures TakenOut(front + prefix + last, cuts + [|front|], |prefix|) == TakenOut(front, cuts, |prefix|) + last
  {
    var text, all := front + prefix + last, cuts + [|front|];
    assert text[..|front|] == front && text[|front| + |prefix|..] == last && all[..|cuts|] == cuts;
  }

  // The printed text without its prefixes is the text laid out without any.
  lemma {:induction false} PrefixesTakenOut(chunks: seq<string>, prefix: string, breaks: seq<bool>)
    requires |chunks| == |breaks|
    ensures TakenOut(Layout(chunks, prefix, breaks), Cuts(chunks, |prefix|, breaks), |prefix|) ==
            Layout(chunks, "", breaks)
  {
    if chunks != [] {
      var n := |chunks| - 1;
      var front, cuts := Layout(chunks[..n], prefix, breaks[..n]), Cuts(chunks[..n], |prefix|, breaks[..n]);
      PrefixesTakenOut(chunks[..n], prefix, breaks[..n]);
      CutsFit(chunks[..n], prefix, breaks[..n]);
      if breaks[n] {
        LastCut(front, prefix, chunks[n], cuts);
      } else {
        TakenOutAppend(front, chunks[n], cuts, |prefix|);
        assert cuts + [] == cuts && front + "" == front;
        assert Layout(chunks[..n], "", breaks[..n]) + "" == Layout(chunks[..n], "", breaks[..n]);
      }
    }
  }

  // Content: for every placement, taking the prefix out of the printed text at each place
  // where it was inserted leaves the elements joined by the separator.
  lemma ContentPreserved<T>(d: seq<T>, show: T -> string, sep: string, prefix: string, breaks: seq<bool>)
    requires |breaks| == |d|
    ensures var chunks := Chunks(d, show, sep);
            && TakenOut(Layout(chunks, prefix, breaks), Cuts(chunks, |prefix|, breaks), |prefix|) == Join(d, show, sep)
            && (forall c <- Cuts(chunks, |prefix|, breaks) ::
                  c + |prefix| <= |Layout(chunks, prefix, breaks)|
                  && Layout(chunks, prefix, breaks)[c..c + |prefix|] == prefix)
  {
    var chunks := Chunks(d, show, sep);
    PrefixesTakenOut(chunks, prefix, breaks);
    ContentJoined(d, show, sep, breaks);
    PrefixesStand(chunks, prefix, breaks);
  }

  // At every cut stands the prefix.
  lemma {:induction false} PrefixesStand(chunks: seq<string>, prefix: string, breaks: seq<bool>)
    requires |chunks| == |breaks|
    ensures forall c <- Cuts(chunks, |prefix|, breaks) ::
              c + |prefix| <= |Layout(chunks, prefix, breaks)|
              && Layout(chunks, prefix, breaks)[c..c + |prefix|] == prefix
  {
    if chunks != [] {
      var n := |chunks| - 1;
      var front, text := Layout(chunks[..n], prefix, breaks[..n]), Layout(chunks, prefix, breaks);
      PrefixesStand(chunks[..n], prefix, breaks[..n]);
      CutsFit(chunks[..n], prefix, breaks[..n]);
      forall c <- Cuts(chunks, |prefix|, breaks)
        ensures c + |prefix| <= |text| && text[c..c + |prefix|] == prefix
      {
        if c in Cuts(chunks[..n], |prefix|, breaks[..n]) {
          assert text[c..c + |prefix|] == front[c..c + |prefix|];
        } else {
          assert c == |front|;
        }
      }
    }
  }

  // Without wrapping: for elements that all show as something, the plain form is the same.
  lemma {:induction false} PlainIsJoin<T>(d: seq<T>, show: T -> string, sep: string)
    requires forall x <- d :: show(x) != ""
    ensures Plain(d, show, sep) == Join(d, show, sep) && (d != [] ==> Plain(d, show, sep) != "")
  {
    if d != [] {
      var front := d[..|d| - 1];
      assert d[|d| - 1] in d && forall x <- front :: x in d;
      PlainIsJoin(front, show, sep);
    }
  }

  // The printer breaks exactly where the chunk would carry the line beyond its length.
  lemma {:induction false} BreaksWhereNeeded(chunks: seq<string>, offset: nat, lineLen: nat, i: nat)
    requires i < |chunks|
    ensures var b := Greedy(chunks, offset, lineLen);
            b[i] <==> Column(chunks[..i], offset, b[..i]) + |chunks[i]| > lineLen
  {
    var n := |chunks| - 1;
    var front, b := Greedy(chunks[..n], offset, lineLen), Greedy(chunks, offset, lineLen);
    assert b[..n] == front;
    if i < n {
      BreaksWhereNeeded(chunks[..n], offset, lineLen, i);
      assert chunks[..n][..i] == chunks[..i] && front[..i] == b[..i];
    }
  }

  // The printer's placement is legal exactly when every chunk fits a line by itself.
  lemma {:induction false} GreedyFits(chunks: seq<string>, offset: nat, lineLen: nat)
    ensures Fits(chunks, offset, Greedy(chunks, offset, lineLen), lineLen) <==>
            forall c <- chunks :: |c| <= lineLen
  {
    if chunks != [] {
      var n := |chunks| - 1;
      GreedyFits(chunks[..n], offset, lineLen);
      var b := Greedy(chunks, offset, lineLen);
      assert b[..n] == Greedy(chunks[..n], offset, lineLen);
      assert chunks == chunks[..n] + [chunks[n]];
    }
  }

  // Optimality: if any placement is legal then so is the printer's, no legal placement
  // breaks less often, and one that breaks equally often never ends further to the left.
  lemma {:induction false} GreedyOptimal(chunks: seq<string>, offset: nat, lineLen: nat, other: seq<bool>)
    requires |other| == |chunks| && Fits(chunks, offset, other, lineLen)
    ensures var b := Greedy(chunks, offset, lineLen);
            && Fits(chunks, offset, b, lineLen)
            && BreakCount(b) <= BreakCount(other)
            && (BreakCount(b) == BreakCount(other) ==>
                  Column(chunks, offset, b) <= Column(chunks, offset, other))
  {
    if chunks != [] {
      var n := |chunks| - 1;
      GreedyOptimal(chunks[..n], offset, lineLen, other[..n]);
      var b := Greedy(chunks, offset, lineLen);
      assert b[..n] == Greedy(chunks[..n], offset, lineLen);
    }
  }
}
