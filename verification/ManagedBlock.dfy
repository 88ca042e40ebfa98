/** Marker-owned blocks of a text file: insertion, replacement and their compensation. */
module ManagedBlock {
  import opened Templates
  import opened Text

  /** The opening and closing line of one owner's blocks. */
  datatype Fence = Fence(open: string, close: string)

  function FenceOf(marker: string): Fence {
    Fence("# >>> aart setup: " + marker + " >>>", "# <<< aart setup: " + marker + " <<<")
  }

  /** What the proofs use of a fence; every single-line marker has it. */
  predicate Proper(f: Fence) {
    IsLine(f.open) && IsLine(f.close) && "#" <= f.open && f.close != "" && !(f.close <= f.open) && !(f.close <= "") &&
    (Literal(f.open + "\n") <==> Literal(f.close))
  }

  lemma LineAcross(a: string, b: string, c: string)
    requires IsLine(a) && IsLine(b) && IsLine(c)
    ensures IsLine(a + b + c)
  {
  }

  lemma MarkersAreProper(marker: string)
    requires IsLine(marker)
    ensures Proper(FenceOf(marker))
  {
    var f := FenceOf(marker);
    assert IsLine("# >>> aart setup: ") && IsLine(" >>>") && IsLine("# <<< aart setup: ") && IsLine(" <<<");
    LineAcross("# >>> aart setup: ", marker, " >>>");
    LineAcross("# <<< aart setup: ", marker, " <<<");
    FencesAlike(marker);
    hide IsLine, Literal;
    assert f.open[2] == '>' && f.close[2] == '<';
  }

  lemma FencesAlike(marker: string)
    ensures Literal(FenceOf(marker).open + "\n") <==> Literal(FenceOf(marker).close)
  {
    hide Literal;
    LiteralInside("# >>> aart setup: ", marker, " >>>\n");
    assert FenceOf(marker).open + "\n" == "# >>> aart setup: " + marker + " >>>\n";
    LiteralInside("# <<< aart setup: ", marker, " <<<");
  }

  /** A marker line is literal when the marker, with the blank behind it, is. */
  lemma LiteralInside(before: string, marker: string, after: string)
    requires '\\' !in before && '\\' !in after && after != "" && after[0] == ' '
    ensures Literal(before + marker + after) <==> Literal(marker + " ")
  {
    var t, u := before + marker + after, marker + " ";
    var n := |before|;
    assert forall i :: 0 <= i < |u| ==> u[i] == t[n + i];
    assert forall i :: 0 <= i < |t| && t[i] == '\\' ==> n <= i < n + |marker|;
    if Literal(t) {
      forall i | 0 <= i < |u| && u[i] == '\\'
        ensures i + 1 < |u| && !IsLetter(u[i + 1]) && !IsDigit(u[i + 1]) && u[i + 1] != '\\'
      {
        assert t[n + i] == '\\';
      }
    }
    if Literal(u) {
      forall i | 0 <= i < |t| && t[i] == '\\'
        ensures i + 1 < |t| && !IsLetter(t[i + 1]) && !IsDigit(t[i + 1]) && t[i + 1] != '\\'
      {
        assert u[i - n] == '\\';
        assert u[i - n + 1] == t[i + 1];
      }
    }
  }

  lemma MarkerInside(marker: string)
    ensures |FenceOf(marker).open| == |marker| + 22 && FenceOf(marker).open[18..18 + |marker|] == marker
    ensures |FenceOf(marker).close| == |marker| + 22 && FenceOf(marker).close[18..18 + |marker|] == marker
  {
  }

  lemma DistinctMarkers(a: string, b: string)
    requires a != b
    ensures FenceOf(a).open != FenceOf(b).open && FenceOf(a).close != FenceOf(b).close
  {
    MarkerInside(a);
    MarkerInside(b);
  }

  predicate IsSpace(c: char) {
    var n := c as int;
    9 <= n <= 13 || 28 <= n <= 32 || n == 0x85 || n == 0xA0 || n == 0x1680 || 0x2000 <= n <= 0x200A ||
    n == 0x2028 || n == 0x2029 || n == 0x202F || n == 0x205F || n == 0x3000
  }

  function RStrip(t: string): string {
    if t != "" && IsSpace(t[|t| - 1]) then RStrip(t[..|t| - 1]) else t
  }

  /** The block a step installs. */
  function Block(f: Fence, content: string): string {
    f.open + "\n" + RStrip(content) + "\n" + f.close
  }

  // ---- finding a block ----

  /** First and last line of a block. */
  datatype Span = Span(first: nat, last: nat)

  /** Writing looks for a whole closing line; rolling back only for a line that begins with it. */
  predicate Closes(line: string, f: Fence, loose: bool) {
    if loose then f.close <= line else line == f.close
  }

  function FindClose(ls: seq<string>, f: Fence, loose: bool, k: nat): (r: Option<nat>)
    ensures r.Some? ==> k <= r.value < |ls|
    decreases |ls| - k
  {
    if k >= |ls| then None
    else if Closes(ls[k], f, loose) then Some(k)
    else FindClose(ls, f, loose, k + 1)
  }

  /** The leftmost block at or after line k: an opening line, at least one line of content,
      and the first closing line after that. */
  function FindBlock(ls: seq<string>, f: Fence, loose: bool, k: nat): (r: Option<Span>)
    ensures r.Some? ==> k <= r.value.first && r.value.first + 2 <= r.value.last < |ls|
    ensures r.Some? ==> ls[r.value.first] == f.open && Closes(ls[r.value.last], f, loose)
    decreases |ls| - k
  {
    if k >= |ls| then None
    else
      var c := FindClose(ls, f, loose, k + 2);
      if ls[k] == f.open && c.Some? && Closes(ls[c.value], f, loose) then Some(Span(k, c.value))
      else FindBlock(ls, f, loose, k + 1)
  }

  predicate NoOpen(ls: seq<string>, f: Fence, a: nat, b: nat) {
    forall x :: a <= x < b && x < |ls| ==> ls[x] != f.open
  }

  predicate NoClose(ls: seq<string>, f: Fence, loose: bool, a: nat, b: nat) {
    forall x :: a <= x < b && x < |ls| ==> !Closes(ls[x], f, loose)
  }

  /** The meaning of a found block, without the search. */
  predicate FirstBlock(ls: seq<string>, f: Fence, loose: bool, k: nat, s: Span) {
    k <= s.first && s.first + 2 <= s.last < |ls| && ls[s.first] == f.open && Closes(ls[s.last], f, loose) &&
    NoOpen(ls, f, k, s.first) && NoClose(ls, f, loose, s.first + 2, s.last)
  }

  predicate NoBlock(ls: seq<string>, f: Fence, loose: bool, k: nat) {
    forall x :: k <= x < |ls| && ls[x] == f.open ==> NoClose(ls, f, loose, x + 2, |ls|)
  }

  lemma {:induction false} FindCloseMeaning(ls: seq<string>, f: Fence, loose: bool, k: nat)
    ensures var r := FindClose(ls, f, loose, k);
            if r.Some? then Closes(ls[r.value], f, loose) && NoClose(ls, f, loose, k, r.value)
            else NoClose(ls, f, loose, k, |ls|)
    decreases |ls| - k
  {
    if k < |ls| && !Closes(ls[k], f, loose) {
      FindCloseMeaning(ls, f, loose, k + 1);
    }
  }

  /** The search finds the first block, and nothing only where there is none. */
  lemma {:induction false} FindBlockMeaning(ls: seq<string>, f: Fence, loose: bool, k: nat)
    ensures var r := FindBlock(ls, f, loose, k);
            if r.Some? then FirstBlock(ls, f, loose, k, r.value) else NoBlock(ls, f, loose, k)
    decreases |ls| - k
  {
    if k < |ls| {
      FindCloseMeaning(ls, f, loose, k + 2);
      var c := FindClose(ls, f, loose, k + 2);
      if ls[k] != f.open || c.None? {
        FindBlockMeaning(ls, f, loose, k + 1);
        var r := FindBlock(ls, f, loose, k + 1);
        if r.Some? {
          assert NoOpen(ls, f, k, r.value.first);
        } else {
          assert NoBlock(ls, f, loose, k);
        }
      }
    }
  }

  lemma FindsFirst(ls: seq<string>, f: Fence, loose: bool, k: nat, s: Span)
    requires FirstBlock(ls, f, loose, k, s)
    ensures FindBlock(ls, f, loose, k) == Some(s)
  {
    FindBlockMeaning(ls, f, loose, k);
    var r := FindBlock(ls, f, loose, k);
    if r.Some? {
      assert r.value.first <= s.first;
      assert s.first <= r.value.first;
    }
  }

  lemma FindsNone(ls: seq<string>, f: Fence, loose: bool, k: nat)
    requires NoBlock(ls, f, loose, k)
    ensures FindBlock(ls, f, loose, k).None?
  {
  }

  // ---- writing and rolling back ----

  datatype BlockWrite =
    | Unchanged                                      // the block is already there
    | Written(text: string, prior: Option<string>)
    | Duplicate                                      // more than one block: ValueError
    | WriteFails                                     // the block is no template: an error of the engine

  function Separator(existing: string): string {
    if existing == "" then ""
    else if |existing| >= 2 && existing[|existing| - 2..] == "\n\n" then ""
    else if existing[|existing| - 1] == '\n' then "\n"
    else "\n\n"
  }

  /** The file a fresh insertion writes. */
  function Fresh(existing: string, f: Fence, content: string): string {
    existing + Separator(existing) + Block(f, content) + "\n"
  }

  function WriteBlock(existing: string, f: Fence, content: string): BlockWrite {
    var ls := Split(existing);
    match FindBlock(ls, f, false, 0)
    case None => Written(Fresh(existing, f, content), None)
    case Some(s) =>
      if FindBlock(ls, f, false, s.last + 1).Some? then Duplicate
      else ReplaceSpan(ls, s, Block(f, content))
  }

  function ReplaceSpan(ls: seq<string>, s: Span, block: string): BlockWrite
    requires s.first <= s.last < |ls|
  {
    var prior := Join(ls[s.first..s.last + 1]);
    if prior == block then Unchanged
    else match Expand(block, Match(prior, prior))
      case Plainly(x) => Written(Join(ls[..s.first] + Split(x) + ls[s.last + 1..]), Some(prior))
      case BadTemplate => WriteFails
  }

  datatype BlockUndo =
    | Refused                                        // the block is gone or was edited
    | Undone(text: string)
    | UndoFails                                      // the prior block is no template

  /** The text after a line-aligned cut: empty when no line is left. */
  function Rest(ls: seq<string>): string {
    if ls == [] then "" else Join(ls)
  }

  /** The template that puts a prior block back. */
  function Restored(prior: Option<string>): string {
    if prior.Some? then prior.value + "\n" else ""
  }

  /** What a rollback matches: the installed block, with the newline behind it when the closing line is whole. */
  function Found(installed: string, ended: bool): Match {
    Match(installed + (if ended then "\n" else ""), installed)
  }

  function UndoneWith(p: seq<string>, template: string, m: Match, q: seq<string>): BlockUndo {
    match Expand(template, m)
    case Plainly(x) => Undone(Unlines(p) + x + Rest(q))
    case BadTemplate => UndoFails
  }

  function UndoBlock(current: string, f: Fence, installed: string, prior: Option<string>): BlockUndo {
    match FindBlock(Split(current), f, true, 0)
    case None => Refused
    case Some(s) => UndoSpan(Split(current), f, s, installed, prior)
  }

  function UndoSpan(ls: seq<string>, f: Fence, s: Span, installed: string, prior: Option<string>): BlockUndo
    requires s.first <= s.last < |ls| && f.close <= ls[s.last]
  {
    if Join(ls[s.first..s.last] + [f.close]) != installed then Refused
    else
      UndoneWith(ls[..s.first], Restored(prior), Found(installed, ls[s.last] == f.close && s.last + 1 < |ls|),
                 LinesAfter(ls, f, s.last))
  }

  /** What stays behind the closing line j: the rest of that line, if any, and the lines after it. */
  function LinesAfter(ls: seq<string>, f: Fence, j: nat): seq<string>
    requires j < |ls| && f.close <= ls[j]
  {
    var tail := ls[j][|f.close|..];
    (if tail == "" then [] else [tail]) + ls[j + 1..]
  }

  // ---- the lines of a block ----

  function Body(content: string): (ls: seq<string>)
    ensures 0 < |ls|
  {
    Split(RStrip(content))
  }

  function BlockLines(f: Fence, content: string): seq<string> {
    [f.open] + Body(content) + [f.close]
  }

  /** No line of the content after its first begins with the closing line. */
  predicate Clean(f: Fence, content: string) {
    var body := Body(content);
    forall k :: 1 <= k < |body| ==> !(f.close <= body[k])
  }

  /** Some line of the text is the opening line. */
  predicate Begins(t: string, f: Fence) {
    f.open in Split(t)
  }

  lemma SplitOfBlock(f: Fence, content: string)
    requires Proper(f)
    ensures Split(Block(f, content)) == BlockLines(f, content)
    ensures AllLines(BlockLines(f, content))
    ensures Join(BlockLines(f, content)) == Block(f, content)
  {
    var c := RStrip(content);
    SplitAcrossNewline(f.open + "\n" + c, f.close);
    SplitAcrossNewline(f.open, c);
    SplitOfLine(f.open);
    SplitOfLine(f.close);
    SplitGivesLines(c);
    JoinOfSplit(Block(f, content));
  }

  /** A block that stands where no earlier line opens one is the block that is found. */
  lemma FindsPlaced(p: seq<string>, body: seq<string>, q: seq<string>, f: Fence, loose: bool)
    requires Proper(f) && 0 < |body|
    requires f.open !in p
    requires forall k :: 1 <= k < |body| ==> !Closes(body[k], f, loose)
    ensures FindBlock(p + ([f.open] + body + [f.close]) + q, f, loose, 0)
         == Some(Span(|p|, |p| + 1 + |body|))
  {
    var ls := p + ([f.open] + body + [f.close]) + q;
    var i, j := |p|, |p| + 1 + |body|;
    assert NoOpen(ls, f, 0, i) by {
      assert forall x :: 0 <= x < i ==> ls[x] == p[x] && p[x] in p;
    }
    assert NoClose(ls, f, loose, i + 2, j) by {
      assert forall x :: i + 2 <= x < j ==> ls[x] == body[x - i - 1];
    }
    FindsFirst(ls, f, loose, 0, Span(i, j));
  }

  // ---- round trips ----

  /** The text up to a fresh block, as whole lines. */
  function LinesBefore(existing: string): seq<string> {
    var ls := Split(existing + Separator(existing));
    ls[..|ls| - 1]
  }

  lemma SplitEndingInNewline(t: string)
    requires t == "" || t[|t| - 1] == '\n'
    ensures var ls := Split(t); ls == ls[..|ls| - 1] + [""] && Unlines(ls[..|ls| - 1]) == t
  {
    if t != "" {
      var u := t[..|t| - 1];
      assert t == u + "\n" + "";
      SplitAcrossNewline(u, "");
      var ls := Split(t);
      assert ls == Split(u) + [""];
      assert ls[..|ls| - 1] == Split(u);
      UnlinesIsJoin(Split(u));
      JoinOfSplit(u);
    }
  }

  lemma SeparatorCases(t: string) returns (v: string)
    ensures t == "" ==> Separator(t) == "" && v == ""
    ensures t != "" && Separator(t) == "" ==> t == v + "\n" + "\n"
    ensures Separator(t) == "\n" ==> t == v + "\n" + ""
    ensures Separator(t) == "" || Separator(t) == "\n" || Separator(t) == "\n" + "\n"
  {
    v := t;
    if t != "" && Separator(t) == "" {
      v := t[..|t| - 2];
      assert t == v + t[|t| - 2..];
      assert v + ("\n" + "\n") == v + "\n" + "\n";
    } else if Separator(t) == "\n" {
      v := t[..|t| - 1];
    }
  }

  lemma NewlineSplits()
    ensures Split("") == [""] && Split("\n") == ["", ""]
  {
  }

  /** The separator adds at most two blank lines. */
  lemma SplitPadded(existing: string) returns (blanks: seq<string>)
    ensures Split(existing + Separator(existing)) == Split(existing) + blanks && AllBlank(blanks)
  {
    NewlineSplits();
    var v := SeparatorCases(existing);
    hide Split, Separator;
    if Separator(existing) == "" {
      assert existing + Separator(existing) == existing;
      blanks := [];
    } else if Separator(existing) == "\n" {
      assert existing + Separator(existing) == existing + "\n" + "";
      SplitAcrossNewline(existing, "");
      blanks := [""];
    } else {
      assert existing + Separator(existing) == existing + "\n" + "\n";
      SplitAcrossNewline(existing, "\n");
      blanks := ["", ""];
    }
  }

  /** After the separator the text is empty or ends in a blank line. */
  lemma PaddedEnds(existing: string) returns (w: string)
    ensures existing == "" ==> existing + Separator(existing) == ""
    ensures existing != "" ==> existing + Separator(existing) == w + "\n" + "\n"
  {
    var v := SeparatorCases(existing);
    hide Separator;
    w := v;
    if Separator(existing) == "" {
      assert existing + "" == existing;
    } else if Separator(existing) == "\n" {
      assert v + "\n" + "" == v + "\n";
    } else {
      w := existing;
      assert existing + ("\n" + "\n") == existing + "\n" + "\n";
    }
  }

  lemma BeforeFresh(existing: string)
    ensures Split(existing + Separator(existing)) == LinesBefore(existing) + [""]
    ensures Unlines(LinesBefore(existing)) == existing + Separator(existing)
    ensures AllLines(LinesBefore(existing))
    ensures exists blanks: seq<string> :: LinesBefore(existing) + [""] == Split(existing) + blanks && AllBlank(blanks)
    ensures LinesBefore(existing) != [] ==> LinesBefore(existing)[|LinesBefore(existing)| - 1] == ""
  {
    var blanks := SplitPadded(existing);
    var w := PaddedEnds(existing);
    NewlineSplits();
    hide Split, Separator, Unlines;
    var u := existing + Separator(existing);
    var k := LinesBefore(existing);
    if existing != "" {
      assert u == w + "\n" + "\n";
      SplitAcrossNewline(w, "\n");
    }
    SplitEndingInNewline(u);
    SplitGivesLines(u);
    assert forall i :: 0 <= i < |k| ==> k[i] == Split(u)[i];
    assert k + [""] == Split(existing) + blanks;
  }

  predicate AllBlank(ls: seq<string>) {
    forall i :: 0 <= i < |ls| ==> ls[i] == ""
  }

  lemma NothingBegins(existing: string, f: Fence)
    requires Proper(f)
    ensures Begins(existing, f) <==> f.open in LinesBefore(existing)
  {
    BeforeFresh(existing);
    var k := LinesBefore(existing);
    var blanks :| k + [""] == Split(existing) + blanks && AllBlank(blanks);
    if Begins(existing, f) {
      var x :| 0 <= x < |Split(existing)| && Split(existing)[x] == f.open;
      assert (k + [""])[x] == f.open;
      assert x < |k|;
      assert k[x] in k;
    }
    if f.open in k {
      var x :| 0 <= x < |k| && k[x] == f.open;
      assert (Split(existing) + blanks)[x] == k[x];
      assert x < |Split(existing)|;
      assert Split(existing)[x] in Split(existing);
    }
  }

  /** The lines of a file that received a fresh block. */
  lemma FreshLines(existing: string, f: Fence, content: string)
    requires Proper(f)
    ensures Split(Fresh(existing, f, content))
         == LinesBefore(existing) + BlockLines(f, content) + [""]
  {
    hide Split, Separator, LinesBefore, BlockLines, Block;
    BeforeFresh(existing);
    SplitOfBlock(f, content);
    var k, b := LinesBefore(existing), BlockLines(f, content);
    JoinAcross(k, b + [""]);
    UnlinesIsJoin(b);
    JoinThenNewline(b);
    assert k + (b + [""]) == k + b + [""];
    assert Join(k + b + [""]) == existing + Separator(existing) + Block(f, content) + "\n";
    SplitOfJoin(k + b + [""]);
  }

  lemma PlacedParts(p: seq<string>, body: seq<string>, q: seq<string>, f: Fence)
    ensures var ls := p + ([f.open] + body + [f.close]) + q;
            var j := |p| + 1 + |body|;
            ls[..|p|] == p && ls[|p|..j] == [f.open] + body && ls[j] == f.close && LinesAfter(ls, f, j) == q
  {
  }

  lemma UndoSpanIs(ls: seq<string>, f: Fence, s: Span, p: seq<string>, b: seq<string>, q: seq<string>,
                   installed: string, prior: Option<string>)
    requires s.first <= s.last < |ls| && f.close <= ls[s.last]
    requires ls[..s.first] == p && ls[s.first..s.last] + [f.close] == b && LinesAfter(ls, f, s.last) == q
    requires |b| > 0 && ls[s.last] == f.close && (q == [] <==> s.last + 1 == |ls|)
    ensures UndoSpan(ls, f, s, installed, prior) ==
            if Join(b) == installed then UndoneWith(p, Restored(prior), Found(installed, q != []), q) else Refused
  {
  }

  /** Rolling back a block where it was placed: the text before it, the prior block, the text after it. */
  lemma UndoesPlaced(p: seq<string>, body: seq<string>, q: seq<string>, f: Fence, installed: string,
                     prior: Option<string>)
    requires Proper(f) && 0 < |body|
    requires f.open !in p && AllLines(p) && AllLines(body) && AllLines(q)
    requires forall k :: 1 <= k < |body| ==> !(f.close <= body[k])
    ensures UndoBlock(Join(p + ([f.open] + body + [f.close]) + q), f, installed, prior)
         == if Join([f.open] + body + [f.close]) == installed
            then UndoneWith(p, Restored(prior), Found(installed, q != []), q) else Refused
  {
    hide Split, Join, FindBlock, UndoneWith, Restored, UndoSpan, Literal, Found;
    PlacedSplit(p, [f.open] + body + [f.close], q) by { AllLinesAcross([f.open] + body, [f.close]); }
    FindsPlaced(p, body, q, f, true);
    PlacedParts(p, body, q, f);
    hide AllLines;
    UndoSpanIs(p + ([f.open] + body + [f.close]) + q, f, Span(|p|, |p| + 1 + |body|), p, [f.open] + body + [f.close], q,
               installed, prior);
  }

  lemma PlacedSplit(p: seq<string>, b: seq<string>, q: seq<string>)
    requires AllLines(p) && AllLines(b) && AllLines(q) && 0 < |b|
    ensures Split(Join(p + b + q)) == p + b + q
  {
    AllLinesAcross(p, b);
    AllLinesAcross(p + b, q);
    SplitOfJoin(p + b + q);
  }

  lemma FreshRoundTripHolds(existing: string, f: Fence, content: string)
    requires Proper(f) && !Begins(existing, f) && Clean(f, content)
    ensures UndoBlock(Fresh(existing, f, content), f, Block(f, content), None)
         == Undone(existing + Separator(existing))
  {
    BeforeFresh(existing);
    NothingBegins(existing, f);
    FreshLines(existing, f, content);
    SplitOfBlock(f, content);
    JoinOfSplit(Fresh(existing, f, content));
    SplitGivesLines(RStrip(content));
    UndoesPlaced(LinesBefore(existing), Body(content), [""], f, Block(f, content), None);
    assert existing + Separator(existing) + "" + "" == existing + Separator(existing);
  }

  lemma FreshRoundTripNeeds(existing: string, f: Fence, content: string)
    requires Proper(f)
    requires UndoBlock(Fresh(existing, f, content), f, Block(f, content), None)
          == Undone(existing + Separator(existing))
    ensures !Begins(existing, f) && Clean(f, content)
  {
    BeforeFresh(existing);
    FreshLines(existing, f, content);
    SplitOfBlock(f, content);
    SplitGivesLines(RStrip(content));
    NothingBegins(existing, f);
    MatchIsOurs(LinesBefore(existing), Body(content), f, Fresh(existing, f, content));
  }

  /** When undoing a fresh block at the end of the lines k gives back k, the block found was that one. */
  lemma MatchIsOurs(k: seq<string>, body: seq<string>, f: Fence, t: string)
    requires Proper(f) && AllLines(k) && AllLines(body) && 0 < |body|
    requires k != [] ==> k[|k| - 1] == ""
    requires Split(t) == k + ([f.open] + body + [f.close]) + [""]
    requires UndoBlock(t, f, Join([f.open] + body + [f.close]), None) == Undone(Unlines(k))
    ensures f.open !in k && forall x :: 1 <= x < |body| ==> !(f.close <= body[x])
  {
    hide Split, Join, Unlines, UndoBlock, FindBlock, LinesAfter;
    var b := [f.open] + body + [f.close];
    var ls := k + b + [""];
    AllLinesAcross([f.open] + body, [f.close]);
    AllLinesAcross(k, b);
    AllLinesAcross(k + b, [""]);
    var s := MatchedSpan(t, ls, f, Join(b), Unlines(k));
    SameLines(ls, s.first, s.last, f.close, b);
    UndoneLines(ls, f, s.first, s.last, k);
    LastLineStays(ls, k, b, s.first, s.last, f);
    NothingEarlier(ls, k, body, f, s);
  }

  lemma NothingEarlier(ls: seq<string>, k: seq<string>, body: seq<string>, f: Fence, s: Span)
    requires ls == k + ([f.open] + body + [f.close]) + [""]
    requires s == Span(|k|, |k| + 1 + |body|)
    requires forall x :: 0 <= x < s.first ==> ls[x] != f.open
    requires forall x :: s.first + 2 <= x < s.last ==> !(f.close <= ls[x])
    ensures f.open !in k && forall x :: 1 <= x < |body| ==> !(f.close <= body[x])
  {
    forall x | 0 <= x < |k| ensures k[x] != f.open {
      assert ls[x] == k[x];
    }
    forall x | 1 <= x < |body| ensures !(f.close <= body[x]) {
      assert ls[s.first + 1 + x] == body[x];
    }
  }

  lemma MatchedSpan(t: string, ls: seq<string>, f: Fence, installed: string, result: string) returns (s: Span)
    requires Split(t) == ls
    requires UndoBlock(t, f, installed, None) == Undone(result)
    ensures s.first <= s.last < |ls| && f.close <= ls[s.last]
    ensures forall x :: 0 <= x < s.first ==> ls[x] != f.open
    ensures forall x :: s.first + 2 <= x < s.last ==> !(f.close <= ls[x])
    ensures Join(ls[s.first..s.last] + [f.close]) == installed
    ensures result == Unlines(ls[..s.first]) + "" + Rest(LinesAfter(ls, f, s.last))
  {
    FindBlockMeaning(ls, f, true, 0);
    s := FindBlock(ls, f, true, 0).value;
    assert UndoSpan(ls, f, s, installed, None) == Undone(result);
  }

  lemma SameLines(ls: seq<string>, i: nat, j: nat, close: string, b: seq<string>)
    requires i <= j <= |ls| && AllLines(ls) && IsLine(close) && 0 < |b| && AllLines(b)
    requires Join(ls[i..j] + [close]) == Join(b)
    ensures ls[i..j] + [close] == b
  {
    SplitOfJoin(ls[i..j] + [close]);
    SplitOfJoin(b);
  }

  lemma UndoneLines(ls: seq<string>, f: Fence, i: nat, j: nat, k: seq<string>)
    requires i <= j < |ls| - 1 && AllLines(ls) && AllLines(k) && f.close <= ls[j]
    requires Unlines(ls[..i]) + "" + Rest(LinesAfter(ls, f, j)) == Unlines(k)
    ensures ls[..i] + LinesAfter(ls, f, j) == k + [""]
  {
    var q := LinesAfter(ls, f, j);
    assert AllLines(q) && |q| > 0;
    SameJoin(ls[..i], q, k);
  }

  lemma SameJoin(p: seq<string>, q: seq<string>, k: seq<string>)
    requires AllLines(p) && AllLines(q) && AllLines(k) && q != []
    requires Unlines(p) + "" + Rest(q) == Unlines(k)
    ensures p + q == k + [""]
  {
    assert Join([""]) == "";
    hide Split, Join, Unlines;
    AllLinesAcross(p, q);
    JoinAcross(p, q);
    SplitOfJoin(p + q);
    assert Unlines(p) + "" + Rest(q) == Unlines(p) + Rest(q);
    JoinAcross(k, [""]);
    assert Unlines(k) + "" == Unlines(k);
    SplitOfJoin(k + [""]);
  }

  lemma LastLineStays(ls: seq<string>, k: seq<string>, b: seq<string>, i: nat, j: nat, f: Fence)
    requires Proper(f) && |b| >= 3 && b[|b| - 1] == f.close
    requires ls == k + b + [""] && i < j < |k| + |b| && j - i == |b| - 1 && f.close <= ls[j]
    requires k != [] ==> k[|k| - 1] == ""
    requires ls[..i] + LinesAfter(ls, f, j) == k + [""]
    ensures i == |k|
  {
    assert ls[|ls| - 2] == f.close;
    if j < |ls| - 2 {
      SecondLastAfter(ls, f, j);
      SecondLast(ls[..i], LinesAfter(ls, f, j), k);
    }
  }

  lemma SecondLastAfter(ls: seq<string>, f: Fence, j: nat)
    requires j < |ls| - 2 && f.close <= ls[j]
    ensures var q := LinesAfter(ls, f, j); |q| >= 2 && q[|q| - 2] == ls[|ls| - 2]
  {
  }

  lemma SecondLast(a: seq<string>, q: seq<string>, k: seq<string>)
    requires a + q == k + [""] && |q| >= 2
    ensures |k| > 0 && q[|q| - 2] == k[|k| - 1]
  {
    assert |a| + |q| == |k| + 1;
    assert (a + q)[|a| + |q| - 2] == q[|q| - 2];
    assert (k + [""])[|k| - 1] == k[|k| - 1];
  }

  /** Rolling back a freshly inserted block gives back the text and its separator, exactly when no line of
      the text already opens such a block and the content does not close it early. */
  lemma FreshRoundTrip(existing: string, f: Fence, content: string)
    requires Proper(f)
    ensures UndoBlock(Fresh(existing, f, content), f, Block(f, content), None)
         == Undone(existing + Separator(existing))
       <==> !Begins(existing, f) && Clean(f, content)
  {
    if !Begins(existing, f) && Clean(f, content) {
      FreshRoundTripHolds(existing, f, content);
    } else if UndoBlock(Fresh(existing, f, content), f, Block(f, content), None)
           == Undone(existing + Separator(existing)) {
      FreshRoundTripNeeds(existing, f, content);
    }
  }
}
