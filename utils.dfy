/** `unwrap` of jamjam/_utils.py: strip the text, split it into lines, and
    rebuild it with wrapped lines joined by single spaces and runs of blank
    lines collapsed into one paragraph break "\n\n".

    Characters follow Python's `str` semantics: `IsSpace` is `str.isspace`
    and `IsLineBreak` the boundaries of `str.splitlines`. */
module Utils {
  import opened Strings
  import opened Seqs

  // ---------------------------------------------------------------------
  // Python's str.isspace, str.strip and str.splitlines
  // ---------------------------------------------------------------------

  /** `c.isspace()`. */
  predicate IsSpace(c: char)
  {
    || c == ' ' || ('\t' <= c <= '\r') || ('\U{1c}' <= c <= '\U{1f}')
    || c == '\U{85}' || c == '\U{a0}' || c == '\U{1680}'
    || ('\U{2000}' <= c <= '\U{200a}') || c == '\U{2028}' || c == '\U{2029}'
    || c == '\U{202f}' || c == '\U{205f}' || c == '\U{3000}'
  }

  /** A character at which `str.splitlines` ends a line. */
  predicate IsLineBreak(c: char)
  {
    || ('\n' <= c <= '\r') || ('\U{1c}' <= c <= '\U{1e}')
    || c == '\U{85}' || c == '\U{2028}' || c == '\U{2029}'
  }

  /** The string holds no line boundary. */
  predicate NoBreak(s: string)
  {
    forall i :: 0 <= i < |s| ==> !IsLineBreak(s[i])
  }

  /** `s.lstrip()`. */
  function LStrip(s: string): (r: string)
    ensures |r| <= |s|
  {
    if s != [] && IsSpace(s[0]) then LStrip(s[1..]) else s
  }

  /** `s.rstrip()`. */
  function RStrip(s: string): (r: string)
    ensures |r| <= |s|
  {
    if s != [] && IsSpace(s[|s| - 1]) then RStrip(s[..|s| - 1]) else s
  }

  /** `s.strip()`. */
  function Strip(s: string): (r: string)
    ensures |r| <= |s|
  {
    RStrip(LStrip(s))
  }

  /** LStrip drops a prefix, and what it keeps starts with a non-space. */
  lemma {:induction false} LStripSuffix(s: string)
    ensures var r := LStrip(s);
      r == s[|s| - |r|..] && (r == [] || !IsSpace(r[0]))
  {
    if s != [] && IsSpace(s[0]) {
      LStripSuffix(s[1..]);
    }
  }

  /** RStrip drops a suffix, and what it keeps ends with a non-space. */
  lemma {:induction false} RStripPrefix(s: string)
    ensures var r := RStrip(s);
      r == s[..|r|] && (r == [] || !IsSpace(r[|r| - 1]))
  {
    if s != [] && IsSpace(s[|s| - 1]) {
      RStripPrefix(s[..|s| - 1]);
    }
  }

  /** No leading or trailing whitespace is left. */
  lemma StripTrimmed(s: string)
    ensures Strip(s) == [] || (!IsSpace(Strip(s)[0]) && !IsSpace(Strip(s)[|Strip(s)| - 1]))
  {
    var l := LStrip(s);
    LStripSuffix(s);
    RStripPrefix(l);
    if RStrip(l) != [] {
      RStripKeepsFirst(l);
    }
  }

  lemma {:induction false} LStripBlank(s: string)
    ensures LStrip(s) == [] <==> forall i :: 0 <= i < |s| ==> IsSpace(s[i])
  {
    if s != [] && IsSpace(s[0]) {
      LStripBlank(s[1..]);
      assert forall i :: 1 <= i < |s| ==> s[i] == s[1..][i - 1];
    }
  }

  /** A string that ends in a non-space character is left alone by RStrip. */
  lemma RStripKept(s: string)
    requires s != [] && !IsSpace(s[|s| - 1])
    ensures RStrip(s) == s
  {
  }

  /** A string that starts with a non-space character keeps it under RStrip. */
  lemma {:induction false} RStripKeepsFirst(s: string)
    requires s != [] && !IsSpace(s[0])
    ensures RStrip(s) != [] && RStrip(s)[0] == s[0]
  {
    if IsSpace(s[|s| - 1]) {
      RStripKeepsFirst(s[..|s| - 1]);
    }
  }

  /** Only an all-whitespace string strips to "". */
  lemma StripBlank(s: string)
    ensures Strip(s) == [] <==> forall i :: 0 <= i < |s| ==> IsSpace(s[i])
  {
    LStripBlank(s);
    LStripSuffix(s);
    if LStrip(s) != [] {
      RStripKeepsFirst(LStrip(s));
    }
  }

  lemma StripNoBreak(s: string)
    requires NoBreak(s)
    ensures NoBreak(Strip(s))
  {
    var l := LStrip(s);
    LStripSuffix(s);
    RStripPrefix(l);
    var r := RStrip(l);
    forall i | 0 <= i < |r|
      ensures !IsLineBreak(r[i])
    {
      assert r[i] == l[i] == s[|s| - |l| + i];
    }
  }

  /** A string ending in a non-space character keeps that last character. */
  lemma StripKeepsLast(s: string)
    requires s != [] && !IsSpace(s[|s| - 1])
    ensures Strip(s) != [] && Strip(s)[|Strip(s)| - 1] == s[|s| - 1]
  {
    LStripBlank(s);
    LStripSuffix(s);
    var l := LStrip(s);
    assert l != [] && l[|l| - 1] == s[|s| - 1];
    RStripKept(l);
  }

  /** Leading whitespace before a non-space character is all LStrip drops. */
  lemma {:induction false} LStripSpaces(w: string, x: string)
    requires forall i :: 0 <= i < |w| ==> IsSpace(w[i])
    requires |x| > 0 && !IsSpace(x[0])
    ensures LStrip(w + x) == x
  {
    if |w| > 0 {
      assert (w + x)[1..] == w[1..] + x;
      LStripSpaces(w[1..], x);
    } else {
      assert w + x == x;
    }
  }

  /** Trailing whitespace after a non-space character is all RStrip drops. */
  lemma {:induction false} RStripSpaces(x: string, w: string)
    requires forall i :: 0 <= i < |w| ==> IsSpace(w[i])
    requires |x| > 0 && !IsSpace(x[|x| - 1])
    ensures RStrip(x + w) == x
  {
    if |w| > 0 {
      assert (x + w)[..|x + w| - 1] == x + w[..|w| - 1];
      RStripSpaces(x, w[..|w| - 1]);
    } else {
      assert x + w == x;
    }
  }

  /** Stripping a text padded with whitespace on both sides gives the text. */
  lemma StripPadded(w1: string, x: string, w2: string)
    requires forall i :: 0 <= i < |w1| ==> IsSpace(w1[i])
    requires forall i :: 0 <= i < |w2| ==> IsSpace(w2[i])
    requires |x| > 0 && !IsSpace(x[0]) && !IsSpace(x[|x| - 1])
    ensures Strip(w1 + x + w2) == x
  {
    assert w1 + x + w2 == w1 + (x + w2);
    LStripSpaces(w1, x + w2);
    RStripSpaces(x, w2);
  }

  /** Index of the first line boundary in `s`, or `|s|` if there is none. */
  function FirstBreak(s: string): (i: nat)
    ensures i <= |s|
    ensures forall j :: 0 <= j < i ==> !IsLineBreak(s[j])
    ensures i < |s| ==> IsLineBreak(s[i])
  {
    if s == [] || IsLineBreak(s[0]) then 0 else 1 + FirstBreak(s[1..])
  }

  /** `s.splitlines()`: "\r\n" is one boundary, and a final boundary does
      not start an extra empty line. */
  function SplitLines(s: string): (ls: seq<string>)
    ensures s != [] ==> ls != []
    decreases |s|
  {
    if s == [] then []
    else
      var i := FirstBreak(s);
      if i == |s| then [s]
      else
        [s[..i]] + SplitLines(s[AfterBreak(s, i)..])
  }

  /** Where the next line starts after the boundary at `i`: "\r\n" counts
      as one boundary. */
  function AfterBreak(s: string, i: nat): (next: nat)
    requires i < |s|
    ensures i < next <= |s|
  {
    if s[i] == '\r' && i + 1 < |s| && s[i + 1] == '\n' then i + 2 else i + 1
  }

  /** No line holds a line boundary. */
  lemma {:induction false} SplitLinesNoBreak(s: string)
    ensures forall k :: 0 <= k < |SplitLines(s)| ==> NoBreak(SplitLines(s)[k])
    decreases |s|
  {
    if s != [] {
      var i := FirstBreak(s);
      if i < |s| {
        SplitLinesNoBreak(s[AfterBreak(s, i)..]);
      }
    }
  }

  /** The first line starts with the text's first character, unless that
      character ends the line. */
  lemma SplitLinesFirst(s: string)
    requires s != [] && !IsLineBreak(s[0])
    ensures |SplitLines(s)[0]| > 0 && SplitLines(s)[0][0] == s[0]
  {
  }

  /** The last line ends with the text's last character, unless that
      character ends a line. */
  lemma {:induction false} SplitLinesLast(s: string)
    requires s != [] && !IsLineBreak(s[|s| - 1])
    ensures var ls := SplitLines(s);
      |ls[|ls| - 1]| > 0 && ls[|ls| - 1][|ls[|ls| - 1]| - 1] == s[|s| - 1]
    decreases |s|
  {
    var i := FirstBreak(s);
    if i < |s| {
      var next := AfterBreak(s, i);
      assert next < |s|;
      var rest := s[next..];
      assert rest[|rest| - 1] == s[|s| - 1];
      SplitLinesLast(rest);
      var tail := SplitLines(rest);
      assert SplitLines(s) == [s[..i]] + tail;
      assert SplitLines(s)[|SplitLines(s)| - 1] == tail[|tail| - 1];
    } else {
      assert SplitLines(s) == [s];
    }
  }

  /** Text without line boundaries only pushes the first boundary along. */
  lemma {:induction false} FirstBreakAfter(a: string, t: string)
    requires NoBreak(a)
    ensures FirstBreak(a + t) == |a| + FirstBreak(t)
  {
    if |a| > 0 {
      assert (a + t)[0] == a[0];
      assert (a + t)[1..] == a[1..] + t;
      FirstBreakAfter(a[1..], t);
    } else {
      assert a + t == t;
    }
  }

  /** A "\n" after text without line boundaries ends the first line there. */
  lemma SplitLinesCons(a: string, rest: string)
    requires NoBreak(a)
    ensures SplitLines(a + "\n" + rest) == [a] + SplitLines(rest)
  {
    var s := a + "\n" + rest;
    assert s == a + ("\n" + rest);
    FirstBreakAfter(a, "\n" + rest);
    assert s[|a|] == '\n';
    assert s[|a| + 1..] == rest;
  }

  /** Lines without line boundaries, the last one not empty, joined with
      "\n", split back into the same lines. */
  lemma {:induction false} SplitLinesJoin(ls: seq<string>)
    requires |ls| > 0 && |ls[|ls| - 1]| > 0
    requires forall k :: 0 <= k < |ls| ==> NoBreak(ls[k])
    ensures SplitLines(Join("\n", ls)) == ls
  {
    if |ls| == 1 {
      assert FirstBreak(ls[0]) == |ls[0]|;
    } else {
      SplitLinesJoin(ls[1..]);
      SplitLinesCons(ls[0], Join("\n", ls[1..]));
      assert ls == [ls[0]] + ls[1..];
    }
  }

  // ---------------------------------------------------------------------
  // The reference: paragraphs of non-blank lines
  // ---------------------------------------------------------------------

  /** The lines `unwrap` works on: the first line as it is, later lines
      stripped. */
  function Cleaned(ls: seq<string>): (cl: seq<string>)
    ensures |cl| == |ls|
  {
    if |ls| <= 1 then ls else Cleaned(ls[..|ls| - 1]) + [Strip(ls[|ls| - 1])]
  }

  lemma {:induction false} CleanedLines(ls: seq<string>)
    ensures ls != [] ==> Cleaned(ls)[0] == ls[0]
    ensures forall k :: 0 < k < |ls| ==> Cleaned(ls)[k] == Strip(ls[k])
  {
    if |ls| > 1 {
      var init := ls[..|ls| - 1];
      CleanedLines(init);
      assert forall k :: 0 <= k < |init| ==> init[k] == ls[k];
    }
  }

  /** The maximal runs of consecutive non-empty lines. */
  function Paragraphs(ls: seq<string>): seq<seq<string>>
  {
    if ls == [] then []
    else
      var init, l := ls[..|ls| - 1], ls[|ls| - 1];
      var ps := Paragraphs(init);
      if l == "" then ps
      else if |ls| > 1 && ls[|ls| - 2] != "" && ps != [] then
        ps[..|ps| - 1] + [ps[|ps| - 1] + [l]]
      else ps + [[l]]
  }

  /** A paragraph is never empty, and neither is any of its lines. */
  predicate WellFormed(ps: seq<seq<string>>)
  {
    forall k :: 0 <= k < |ps| ==> ps[k] != [] && forall j :: 0 <= j < |ps[k]| ==> ps[k][j] != ""
  }

  lemma {:induction false} ParagraphsWellFormed(ls: seq<string>)
    ensures WellFormed(Paragraphs(ls))
  {
    if ls != [] {
      ParagraphsWellFormed(ls[..|ls| - 1]);
    }
  }

  /** A text whose last line is not blank ends its last paragraph with it. */
  lemma {:induction false} ParagraphsLast(ls: seq<string>)
    requires ls != [] && ls[|ls| - 1] != ""
    ensures var ps := Paragraphs(ls);
      ps != [] && ps[|ps| - 1] != [] && ps[|ps| - 1][|ps[|ps| - 1]| - 1] == ls[|ls| - 1]
  {
  }

  /** A text whose first line is not blank opens its first paragraph with it. */
  lemma {:induction false} ParagraphsFirst(ls: seq<string>)
    requires ls != [] && ls[0] != ""
    ensures var ps := Paragraphs(ls);
      ps != [] && ps[0] != [] && ps[0][0] == ls[0]
  {
    if |ls| > 1 {
      var init := ls[..|ls| - 1];
      assert init[0] == ls[0];
      ParagraphsFirst(init);
      ParagraphsWellFormed(init);
    }
  }

  /** The lines that are not blank, in order. */
  function NonBlank(ls: seq<string>): seq<string>
  {
    if ls == [] then []
    else NonBlank(ls[..|ls| - 1]) + (if ls[|ls| - 1] == "" then [] else [ls[|ls| - 1]])
  }

  /** Each paragraph as one line: its lines joined by single spaces. */
  function ParagraphTexts(ps: seq<seq<string>>): (ts: seq<string>)
    ensures |ts| == |ps|
  {
    if ps == [] then []
    else ParagraphTexts(ps[..|ps| - 1]) + [Join(" ", ps[|ps| - 1])]
  }

  lemma ParagraphTextsSnoc(ps: seq<seq<string>>, p: seq<string>)
    ensures ParagraphTexts(ps + [p]) == ParagraphTexts(ps) + [Join(" ", p)]
  {
    assert (ps + [p])[..|ps|] == ps;
  }

  /** The paragraphs' texts separated by exactly one blank line. */
  function Render(ps: seq<seq<string>>): string
  {
    Join("\n\n", ParagraphTexts(ps))
  }

  /** What `unwrap(txt)` returns. */
  function Unwrapped(txt: string): string
  {
    Render(Paragraphs(Cleaned(SplitLines(Strip(txt)))))
  }

  // ---------------------------------------------------------------------
  // The loop
  // ---------------------------------------------------------------------

  /** `unwrap(txt)`. `textwrap.dedent` is left out: after `strip()` the first
      line has no indent, so dedent's common margin is empty and it only
      empties whitespace-only lines, which the loop strips anyway. */
  method Unwrap(txt: string) returns (out: string)
    ensures out == Unwrapped(txt)
  {
    var lines := SplitLines(Strip(txt));
    if lines != [] {
      FirstLineNotBlank(txt);
    }
    out := JoinLines(lines);
  }

  /** The loop of `unwrap` over the lines of the stripped text, whose first
      line (if any) is not blank. */
  method JoinLines(lines: seq<string>) returns (out: string)
    requires lines == [] || lines[0] != ""
    ensures out == Render(Paragraphs(Cleaned(lines)))
  {
    var prev := if |lines| > 0 then lines[0] else "";
    out := prev;
    if lines == [] {
      return;
    }
    assert lines[..1] == [prev];
    ghost var cl := [prev];
    var i := 1;
    while i < |lines|
      invariant 1 <= i <= |lines|
      invariant cl == Cleaned(lines[..i]) && |cl| == i
      invariant prev == cl[i - 1]
      invariant Paragraphs(cl) != []
      invariant out == Render(Paragraphs(cl))
    {
      var line := Strip(lines[i]);
      CleanedSnoc(lines, i);
      if line != "" {
        if prev != "" {
          RenderJoinsLine(cl, line);
          out := out + " " + line;
        } else {
          RenderStartsParagraph(cl, line);
          out := out + "\n\n" + line;
        }
        ParagraphsLast(cl + [line]);
      } else {
        ParagraphsBlank(cl);
      }
      cl := cl + [line];
      prev := line;
      i := i + 1;
    }
    assert lines[..i] == lines;
  }

  lemma CleanedSnoc(lines: seq<string>, i: nat)
    requires 1 <= i < |lines|
    ensures Cleaned(lines[..i + 1]) == Cleaned(lines[..i]) + [Strip(lines[i])]
  {
    assert lines[..i + 1][..i] == lines[..i];
  }

  /** A blank line adds nothing. */
  lemma ParagraphsBlank(ls: seq<string>)
    ensures Paragraphs(ls + [""]) == Paragraphs(ls)
  {
    assert (ls + [""])[..|ls|] == ls;
  }

  lemma FirstLineNotBlank(txt: string)
    requires SplitLines(Strip(txt)) != []
    ensures SplitLines(Strip(txt))[0] != ""
  {
    StripTrimmed(txt);
    SplitLinesFirst(Strip(txt));
  }

  lemma RenderJoinsLine(ls: seq<string>, l: string)
    requires ls != [] && ls[|ls| - 1] != "" && l != ""
    ensures Render(Paragraphs(ls + [l])) == Render(Paragraphs(ls)) + " " + l
  {
    var ls' := ls + [l];
    assert ls'[..|ls|] == ls && ls'[|ls'| - 2] == ls[|ls| - 1];
    ParagraphsLast(ls);
    var ps := Paragraphs(ls);
    assert Paragraphs(ls') == ps[..|ps| - 1] + [ps[|ps| - 1] + [l]];
    RenderExtendLast(ps, l);
  }

  /** Adding a line to the last paragraph appends " " and the line. */
  lemma RenderExtendLast(ps: seq<seq<string>>, l: string)
    requires ps != [] && ps[|ps| - 1] != []
    ensures Render(ps[..|ps| - 1] + [ps[|ps| - 1] + [l]]) == Render(ps) + " " + l
  {
    var init, last := ps[..|ps| - 1], ps[|ps| - 1];
    assert ps == init + [last];
    JoinSnoc(" ", last, l);
    ParagraphTextsSnoc(init, last);
    ParagraphTextsSnoc(init, last + [l]);
    var t := Join(" ", last);
    if init != [] {
      var x := Join("\n\n", ParagraphTexts(init));
      JoinSnoc("\n\n", ParagraphTexts(init), t);
      JoinSnoc("\n\n", ParagraphTexts(init), t + " " + l);
      AppendAssoc(x + "\n\n", t + " ", l);
      AppendAssoc(x + "\n\n", t, " ");
    }
  }

  lemma AppendAssoc(x: string, t: string, u: string)
    ensures x + (t + u) == (x + t) + u
  {
  }

  lemma RenderStartsParagraph(ls: seq<string>, l: string)
    requires Paragraphs(ls) != [] && ls[|ls| - 1] == "" && l != ""
    ensures Render(Paragraphs(ls + [l])) == Render(Paragraphs(ls)) + "\n\n" + l
  {
    var ls' := ls + [l];
    assert ls'[..|ls|] == ls && ls'[|ls'| - 2] == "";
    var ps := Paragraphs(ls);
    assert Paragraphs(ls') == ps + [[l]];
    ParagraphTextsSnoc(ps, [l]);
    JoinSnoc("\n\n", ParagraphTexts(ps), l);
  }

  // ---------------------------------------------------------------------
  // What the result looks like
  // ---------------------------------------------------------------------

  /** Empty or whitespace-only text unwraps to "". */
  lemma UnwrapBlank(txt: string)
    requires forall i :: 0 <= i < |txt| ==> IsSpace(txt[i])
    ensures Unwrapped(txt) == ""
  {
    StripBlank(txt);
  }

  /** No non-blank line is lost: the paragraphs, read in order, are exactly
      the non-blank lines. */
  lemma {:induction false} ParagraphsKeepLines(ls: seq<string>)
    ensures Concat(Paragraphs(ls)) == NonBlank(ls)
  {
    if ls != [] {
      var init, l := ls[..|ls| - 1], ls[|ls| - 1];
      ParagraphsKeepLines(init);
      var ps := Paragraphs(init);
      if l != "" {
        if |ls| > 1 && ls[|ls| - 2] != "" && ps != [] {
          var n := |ps|;
          assert ps == ps[..n - 1] + [ps[n - 1]];
          ConcatSnoc(ps[..n - 1], ps[n - 1]);
          ConcatSnoc(ps[..n - 1], ps[n - 1] + [l]);
        } else {
          ConcatSnoc(ps, [l]);
        }
      }
    }
  }

  lemma {:induction false} JoinNoBreak(sep: string, parts: seq<string>)
    requires NoBreak(sep)
    requires forall k :: 0 <= k < |parts| ==> NoBreak(parts[k])
    ensures NoBreak(Join(sep, parts))
  {
    if |parts| > 1 {
      JoinNoBreak(sep, parts[1..]);
    }
  }

  /** The text of paragraph `k` is its lines joined by spaces. */
  lemma {:induction false} ParagraphTextAt(ps: seq<seq<string>>, k: nat)
    requires k < |ps|
    ensures ParagraphTexts(ps)[k] == Join(" ", ps[k])
  {
    if k < |ps| - 1 {
      ParagraphTextAt(ps[..|ps| - 1], k);
    }
  }

  /** Paragraphs hold only lines without a line boundary when the lines
      they are made of have none. */
  lemma {:induction false} ParagraphsNoBreak(ls: seq<string>)
    requires forall k :: 0 <= k < |ls| ==> NoBreak(ls[k])
    ensures forall k, j :: 0 <= k < |Paragraphs(ls)| && 0 <= j < |Paragraphs(ls)[k]| ==>
      NoBreak(Paragraphs(ls)[k][j])
  {
    if ls != [] {
      ParagraphsNoBreak(ls[..|ls| - 1]);
    }
  }

  /** Cleaning lines that hold no line boundary adds none. */
  lemma CleanedNoBreak(lines: seq<string>)
    requires forall k :: 0 <= k < |lines| ==> NoBreak(lines[k])
    ensures forall k :: 0 <= k < |Cleaned(lines)| ==> NoBreak(Cleaned(lines)[k])
  {
    CleanedLines(lines);
    forall k | 0 < k < |lines|
      ensures NoBreak(Strip(lines[k]))
    {
      StripNoBreak(lines[k]);
    }
  }

  /** Every paragraph's text is one non-empty line: the only line boundaries
      in the result are the "\n\n" separators between paragraphs. */
  lemma UnwrapParagraphsAreLines(txt: string)
    ensures var ts := ParagraphTexts(Paragraphs(Cleaned(SplitLines(Strip(txt)))));
      Unwrapped(txt) == Join("\n\n", ts)
      && forall k :: 0 <= k < |ts| ==> ts[k] != "" && NoBreak(ts[k])
  {
    var lines := SplitLines(Strip(txt));
    SplitLinesNoBreak(Strip(txt));
    CleanedNoBreak(lines);
    var cl := Cleaned(lines);
    var ps := Paragraphs(cl);
    ParagraphsNoBreak(cl);
    ParagraphsWellFormed(cl);
    var ts := ParagraphTexts(ps);
    forall k | 0 <= k < |ts|
      ensures ts[k] != "" && NoBreak(ts[k])
    {
      ParagraphTextAt(ps, k);
      JoinNoBreak(" ", ps[k]);
      JoinFirst(" ", ps[k]);
    }
  }

  /** A join starts with its first part. */
  lemma JoinFirst(sep: string, parts: seq<string>)
    requires parts != [] && parts[0] != ""
    ensures Join(sep, parts) != "" && Join(sep, parts)[0] == parts[0][0]
  {
  }

  /** A join ends with its last part. */
  lemma {:induction false} JoinLast(sep: string, parts: seq<string>)
    requires parts != [] && parts[|parts| - 1] != ""
    ensures Join(sep, parts) != ""
    ensures Join(sep, parts)[|Join(sep, parts)| - 1] == parts[|parts| - 1][|parts[|parts| - 1]| - 1]
  {
    if |parts| > 1 {
      JoinLast(sep, parts[1..]);
    }
  }

  /** The result of rendering starts with the first character of the first
      paragraph and ends with the last character of the last one. */
  lemma RenderEnds(ps: seq<seq<string>>, first: string, last: string)
    requires |ps| > 0 && |ps[0]| > 0 && ps[0][0] == first && |first| > 0
    requires |ps[|ps| - 1]| > 0 && ps[|ps| - 1][|ps[|ps| - 1]| - 1] == last && |last| > 0
    ensures var out := Render(ps);
      |out| > 0 && out[0] == first[0] && out[|out| - 1] == last[|last| - 1]
  {
    var ts := ParagraphTexts(ps);
    ParagraphTextAt(ps, 0);
    ParagraphTextAt(ps, |ps| - 1);
    JoinFirst(" ", ps[0]);
    JoinLast(" ", ps[|ps| - 1]);
    JoinFirst("\n\n", ts);
    JoinLast("\n\n", ts);
  }

  /** The cleaned lines of a stripped, non-empty text start with its first
      character and end with its last one. */
  lemma CleanedEnds(s: string)
    requires |s| > 0 && !IsSpace(s[0]) && !IsSpace(s[|s| - 1])
    ensures var cl := Cleaned(SplitLines(s));
      |cl| > 0 && |cl[0]| > 0 && cl[0][0] == s[0]
      && |cl[|cl| - 1]| > 0 && cl[|cl| - 1][|cl[|cl| - 1]| - 1] == s[|s| - 1]
  {
    var lines := SplitLines(s);
    SplitLinesFirst(s);
    SplitLinesLast(s);
    CleanedLines(lines);
    var n := |lines|;
    if n > 1 {
      StripKeepsLast(lines[n - 1]);
    }
  }

  /** The result has no leading or trailing whitespace. */
  lemma UnwrapTrimmed(txt: string)
    ensures var out := Unwrapped(txt);
      out == [] || (!IsSpace(out[0]) && !IsSpace(out[|out| - 1]))
  {
    var s := Strip(txt);
    StripTrimmed(txt);
    if s != [] {
      UnwrapEnds(s);
    } else {
      UnwrapStrippedEmpty(txt);
    }
  }

  /** A stripped text that is not empty unwraps to one that starts and
      ends with its first and last characters. */
  lemma UnwrapEnds(s: string)
    requires |s| > 0 && !IsSpace(s[0]) && !IsSpace(s[|s| - 1])
    ensures var out := Render(Paragraphs(Cleaned(SplitLines(s))));
      |out| > 0 && out[0] == s[0] && out[|out| - 1] == s[|s| - 1]
  {
    CleanedEnds(s);
    RenderedEnds(Cleaned(SplitLines(s)));
  }

  /** Rendering cleaned lines keeps the first character of the first line
      and the last character of the last line at the ends. */
  lemma RenderedEnds(cl: seq<string>)
    requires |cl| > 0 && |cl[0]| > 0 && |cl[|cl| - 1]| > 0
    ensures var out := Render(Paragraphs(cl));
      |out| > 0 && out[0] == cl[0][0] && out[|out| - 1] == cl[|cl| - 1][|cl[|cl| - 1]| - 1]
  {
    ParagraphsFirst(cl);
    ParagraphsLast(cl);
    RenderEnds(Paragraphs(cl), cl[0], cl[|cl| - 1]);
  }

  /** A text that strips to nothing unwraps to nothing. */
  lemma UnwrapStrippedEmpty(txt: string)
    requires Strip(txt) == []
    ensures Unwrapped(txt) == []
  {
    assert SplitLines([]) == [];
    assert Cleaned([]) == [];
    assert Paragraphs([]) == [];
  }

  /** The paragraph layout of the test below, for any non-blank lines. */
  lemma ParagraphLayout(a: string, b: string, c: string, d: string, e: string, f: string, g: string)
    requires a != "" && b != "" && c != "" && d != "" && e != "" && f != "" && g != ""
    ensures Render(Paragraphs([a, "", b, c, "", d, e, f, "", g]))
      == a + "\n\n" + b + " " + c + "\n\n" + d + " " + e + " " + f + "\n\n" + g
  {
    var l1 := [a];
    assert l1[..0] == [];
    assert Render(Paragraphs(l1)) == a;
    ParagraphsBlank(l1);
    var l2 := l1 + [""];
    RenderStartsParagraph(l2, b);
    var l3 := l2 + [b];
    RenderJoinsLine(l3, c);
    var l4 := l3 + [c];
    ParagraphsBlank(l4);
    ParagraphsLast(l4);
    var l5 := l4 + [""];
    RenderStartsParagraph(l5, d);
    var l6 := l5 + [d];
    RenderJoinsLine(l6, e);
    var l7 := l6 + [e];
    RenderJoinsLine(l7, f);
    var l8 := l7 + [f];
    ParagraphsBlank(l8);
    ParagraphsLast(l8);
    var l9 := l8 + [""];
    RenderStartsParagraph(l9, g);
    assert l9 + [g] == [a, "", b, c, "", d, e, f, "", g];
  }

  /** Stripping an indented line leaves the line. */
  lemma StripIndented(x: string)
    requires x != [] && !IsSpace(x[0]) && !IsSpace(x[|x| - 1])
    ensures Strip("    " + x) == x
  {
    var s := "    " + x;
    var s1, s2, s3 := s[1..], s[2..], s[3..];
    assert s1[1..] == s2 && s2[1..] == s3 && s3[1..] == x;
    assert LStrip(s) == LStrip(s1) == LStrip(s2) == LStrip(s3) == LStrip(x) == x;
    RStripKept(x);
  }

  /** Trimmed: non-empty, with no leading or trailing whitespace. */
  predicate Trimmed(x: string)
  {
    x != [] && !IsSpace(x[0]) && !IsSpace(x[|x| - 1])
  }

  /** The lines of the test below, with every line after the first
      indented by four spaces, clean to the lines themselves. */
  lemma CleanedLayout(a: string, b: string, c: string, d: string, e: string, f: string, g: string)
    requires Trimmed(b) && Trimmed(c) && Trimmed(d) && Trimmed(e) && Trimmed(f) && Trimmed(g)
    ensures Cleaned([a, "", "    " + b, "    " + c, "", "    " + d, "    " + e, "    " + f, "", "    " + g])
      == [a, "", b, c, "", d, e, f, "", g]
  {
    var raw := [a, "", "    " + b, "    " + c, "", "    " + d, "    " + e, "    " + f, "", "    " + g];
    StripIndented(b);
    StripIndented(c);
    StripIndented(d);
    StripIndented(e);
    StripIndented(f);
    StripIndented(g);
    CleanedLines(raw);
  }

  // The lines of the text unwrapped by tests/jamjam/test_utils.py, each
  // paragraph line after the first indented by four spaces there.
  const ExampleTitle: string := "Title: awesome."
  const ExampleFocus: string := "The focus of this meeting is that you suck."
  const ExampleBetter: string := "But I'm sure you can do better. " + "Don't give up!"
  const ExamplePie: string := "Next on the agenda is pie. " + "Pie is apparently delicious."
  const ExampleDoubt: string := "Personally I'm not convinced. " + "Though I usually won't"
  const ExamplePork: string := "say no to a pork pie."
  const ExampleBye: string := "Bye bye!"

  /** The text of tests/jamjam/test_utils.py as written there: it opens with
      a line break, indents every line but the blank ones by four spaces, and
      ends with a line break and the closing quote's indent. */
  const ExampleText: string :=
    "\n    " + ExampleTitle + "\n\n    " + ExampleFocus + "\n    " + ExampleBetter
    + "\n\n    " + ExamplePie + "\n    " + ExampleDoubt + "\n    " + ExamplePork
    + "\n\n    " + ExampleBye + "\n    "

  /** The lines of the test's layout, every one after the first indented. */
  function LayoutLines(a: string, b: string, c: string, d: string, e: string, f: string, g: string): seq<string>
  {
    [a, "", "    " + b, "    " + c, "", "    " + d, "    " + e, "    " + f, "", "    " + g]
  }

  /** An indented line after a line break. */
  lemma NextIndented(x: string, y: string, c: string)
    requires y == x + "\n" + ("    " + c)
    ensures y == x + "\n    " + c
  {
    assert "\n" + ("    " + c) == "\n    " + c;
  }

  /** An indented line after a blank line. */
  lemma NextAfterBlank(x: string, y: string, c: string)
    requires y == x + "\n" + "" + "\n" + ("    " + c)
    ensures y == x + "\n\n    " + c
  {
    assert "\n" + "" + "\n" + ("    " + c) == "\n\n    " + c;
  }

  /** The test's layout is its lines joined by "\n" and padded by whitespace. */
  lemma LayoutJoined(a: string, b: string, c: string, d: string, e: string, f: string, g: string)
    ensures "\n    " + a + "\n\n    " + b + "\n    " + c + "\n\n    " + d + "\n    " + e
      + "\n    " + f + "\n\n    " + g + "\n    "
      == "\n    " + Join("\n", LayoutLines(a, b, c, d, e, f, g)) + "\n    "
  {
    var ls := LayoutLines(a, b, c, d, e, f, g);
    var p := "\n    ";
    assert ls[..1] == [a];
    assert p + Join("\n", ls[..1]) == p + a;
    JoinSnoc("\n", ls[..1], "");
    assert ls[..2] == ls[..1] + [""];
    JoinSnoc("\n", ls[..2], "    " + b);
    assert ls[..3] == ls[..2] + ["    " + b];
    NextAfterBlank(p + a, p + Join("\n", ls[..3]), b);
    JoinSnoc("\n", ls[..3], "    " + c);
    assert ls[..4] == ls[..3] + ["    " + c];
    NextIndented(p + a + "\n\n    " + b, p + Join("\n", ls[..4]), c);
    JoinSnoc("\n", ls[..4], "");
    assert ls[..5] == ls[..4] + [""];
    JoinSnoc("\n", ls[..5], "    " + d);
    assert ls[..6] == ls[..5] + ["    " + d];
    NextAfterBlank(p + a + "\n\n    " + b + "\n    " + c, p + Join("\n", ls[..6]), d);
    JoinSnoc("\n", ls[..6], "    " + e);
    assert ls[..7] == ls[..6] + ["    " + e];
    NextIndented(p + a + "\n\n    " + b + "\n    " + c + "\n\n    " + d, p + Join("\n", ls[..7]), e);
    JoinSnoc("\n", ls[..7], "    " + f);
    assert ls[..8] == ls[..7] + ["    " + f];
    NextIndented(p + a + "\n\n    " + b + "\n    " + c + "\n\n    " + d + "\n    " + e,
      p + Join("\n", ls[..8]), f);
    JoinSnoc("\n", ls[..8], "");
    assert ls[..9] == ls[..8] + [""];
    JoinSnoc("\n", ls[..9], "    " + g);
    assert ls == ls[..9] + ["    " + g];
    NextAfterBlank(p + a + "\n\n    " + b + "\n    " + c + "\n\n    " + d + "\n    " + e + "\n    " + f,
      p + Join("\n", ls), g);
  }

  /** Unwrapping the test's layout, for lines that hold no line boundary and
      have no whitespace at either end, gives one line per paragraph with
      paragraphs separated by a blank line. */
  lemma UnwrapLayout(a: string, b: string, c: string, d: string, e: string, f: string, g: string)
    requires Trimmed(a) && Trimmed(b) && Trimmed(c) && Trimmed(d) && Trimmed(e) && Trimmed(f) && Trimmed(g)
    requires NoBreak(a) && NoBreak(b) && NoBreak(c) && NoBreak(d) && NoBreak(e) && NoBreak(f) && NoBreak(g)
    ensures Unwrapped("\n    " + a + "\n\n    " + b + "\n    " + c + "\n\n    " + d + "\n    " + e
      + "\n    " + f + "\n\n    " + g + "\n    ")
      == a + "\n\n" + b + " " + c + "\n\n" + d + " " + e + " " + f + "\n\n" + g
  {
    var ls := LayoutLines(a, b, c, d, e, f, g);
    var body := Join("\n", ls);
    LayoutJoined(a, b, c, d, e, f, g);
    JoinFirst("\n", ls);
    JoinLast("\n", ls);
    StripPadded("\n    ", body, "\n    ");
    assert forall k :: 0 <= k < |ls| ==> NoBreak(ls[k]);
    SplitLinesJoin(ls);
    CleanedLayout(a, b, c, d, e, f, g);
    ParagraphLayout(a, b, c, d, e, f, g);
  }

  lemma TitleNoBreak() ensures NoBreak(ExampleTitle) {}
  lemma FocusNoBreak() ensures NoBreak(ExampleFocus) {}
  lemma BetterNoBreak() ensures NoBreak(ExampleBetter) {}
  lemma PieNoBreak() ensures NoBreak(ExamplePie) {}
  lemma DoubtNoBreak() ensures NoBreak(ExampleDoubt) {}
  lemma PorkNoBreak() ensures NoBreak(ExamplePork) {}
  lemma ByeNoBreak() ensures NoBreak(ExampleBye) {}

  /** The test of tests/jamjam/test_utils.py: `unwrap` of the text as written
      there turns each wrapped paragraph into one line, with paragraphs
      separated by one blank line. */
  lemma UnwrapTestExample()
    ensures Unwrapped(ExampleText)
      == ExampleTitle + "\n\n"
       + ExampleFocus + " " + ExampleBetter + "\n\n"
       + ExamplePie + " " + ExampleDoubt + " " + ExamplePork + "\n\n"
       + ExampleBye
  {
    TitleNoBreak();
    FocusNoBreak();
    BetterNoBreak();
    PieNoBreak();
    DoubtNoBreak();
    PorkNoBreak();
    ByeNoBreak();
    UnwrapLayout(ExampleTitle, ExampleFocus, ExampleBetter, ExamplePie, ExampleDoubt, ExamplePork, ExampleBye);
  }
}
