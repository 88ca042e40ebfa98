/** Laws of marker-owned blocks: replacing and undoing, writing twice, blocks of other owners, trailing newlines. */
module BlockLaws {
  import opened ManagedBlock
  import opened Templates
  import opened Text

  // ---- what a block is, and where a fresh one goes ----

  /** The text without the blanks at its end. */
  lemma {:induction false} StripExactly(t: string)
    ensures var r := RStrip(t);
            r <= t && (forall i :: |r| <= i < |t| ==> IsSpace(t[i])) && (r != "" ==> !IsSpace(r[|r| - 1]))
  {
    if t != "" && IsSpace(t[|t| - 1]) { StripExactly(t[..|t| - 1]); }
  }

  /** A fresh block is set off by exactly one empty line: the fewest newlines after which a text that is not empty
      ends in two. */
  lemma OneEmptyLine(t: string)
    ensures var s := Separator(t);
            (t == "" ==> s == "") && (forall i :: 0 <= i < |s| ==> s[i] == '\n') &&
            (t != "" ==> |t + s| >= 2 && (t + s)[|t + s| - 2..] == "\n\n") &&
            (t != "" ==> forall n :: 0 <= n < |s| ==> !(|t| + n >= 2 && (t + s[..n])[|t| + n - 2..] == "\n\n"))
  {
    var s := Separator(t);
    if t != "" {
      var v := SeparatorCases(t);
      var e := t + s;
      assert e[|e| - 2..] == [e[|e| - 2], e[|e| - 1]];
    }
  }

  // ---- replacing a block ----

  /** What is inserted for the block of a step in place of a prior block. */
  function Inserted(f: Fence, content: string, prior: string): Expansion {
    Expand(Block(f, content), Match(prior, prior))
  }

  /** A replaced block: the lines before it, its own lines, the lines after it. The new block is expanded as a
      template. */
  lemma ReplacedText(existing: string, f: Fence, content: string)
      returns (p: seq<string>, x: seq<string>, q: seq<string>)
    requires WriteBlock(existing, f, content).Written? && WriteBlock(existing, f, content).prior.Some?
    ensures AllLines(p) && AllLines(x) && AllLines(q)
    ensures Split(existing) == p + x + q && f.open !in p && |x| >= 3 && x[0] == f.open
    ensures FindBlock(Split(existing), f, false, 0) == Some(Span(|p|, |p| + |x| - 1))
    ensures FindBlock(Split(existing), f, false, |p| + |x|).None?
    ensures WriteBlock(existing, f, content).prior == Some(Join(x))
    ensures Inserted(f, content, Join(x)).Plainly?
    ensures WriteBlock(existing, f, content).text == Join(p + Split(Inserted(f, content, Join(x)).text) + q)
  {
    hide Split, Join, FindBlock, Expand, Block;
    var ls := Split(existing);
    SplitGivesLines(existing);
    var s := FindBlock(ls, f, false, 0).value;
    p, x, q := CutAt(ls, f, s);
    assert WriteBlock(existing, f, content) == ReplaceSpan(ls, s, Block(f, content));
  }

  lemma PriorIsHashed(f: Fence, x: seq<string>)
    requires Proper(f) && 0 < |x| && x[0] == f.open
    ensures Hashed(Match(Join(x), Join(x)))
  {
  }

  /** A block that is taken literally stands in the file as its lines. */
  lemma ReplacedShape(existing: string, f: Fence, content: string)
      returns (p: seq<string>, x: seq<string>, q: seq<string>)
    requires Proper(f) && Literal(Block(f, content))
    requires WriteBlock(existing, f, content).Written? && WriteBlock(existing, f, content).prior.Some?
    ensures AllLines(p) && AllLines(x) && AllLines(q)
    ensures Split(existing) == p + x + q && f.open !in p && |x| >= 3 && x[0] == f.open
    ensures FindBlock(Split(existing), f, false, 0) == Some(Span(|p|, |p| + |x| - 1))
    ensures FindBlock(Split(existing), f, false, |p| + |x|).None?
    ensures WriteBlock(existing, f, content).prior == Some(Join(x))
    ensures WriteBlock(existing, f, content).text == Join(p + BlockLines(f, content) + q)
    ensures Split(WriteBlock(existing, f, content).text) == p + BlockLines(f, content) + q
  {
    hide Split, Join, FindBlock, Expand, Block, BlockLines, WriteBlock;
    p, x, q := ReplacedText(existing, f, content);
    LiteralExpands(Block(f, content), Match(Join(x), Join(x)));
    SplitOfBlock(f, content);
    PlacedSplit(p, BlockLines(f, content), q);
  }

  /** A replacement puts exactly the lines of the new block where the old one was, if and only if the new block holds
      no active backslash. */
  lemma ReplacedVerbatim(existing: string, f: Fence, content: string)
      returns (p: seq<string>, x: seq<string>, q: seq<string>)
    requires Proper(f)
    requires WriteBlock(existing, f, content).Written? && WriteBlock(existing, f, content).prior.Some?
    ensures Split(existing) == p + x + q && 0 < |x| && WriteBlock(existing, f, content).prior == Some(Join(x))
    ensures WriteBlock(existing, f, content).text == Join(p + BlockLines(f, content) + q) <==>
            Literal(Block(f, content))
  {
    hide Split, Join, FindBlock, Expand, Block, BlockLines, WriteBlock, Rest, Unlines, Literal;
    p, x, q := ReplacedText(existing, f, content);
    var block, text := Block(f, content), Inserted(f, content, Join(x)).text;
    SplitOfBlock(f, content);
    JoinOfSplit(text);
    PriorIsHashed(f, x);
    VerbatimIffLiteral(block, Match(Join(x), Join(x)));
    if Join(p + Split(text) + q) == Join(p + BlockLines(f, content) + q) {
      JoinThree(p, Split(text), q);
      JoinThree(p, BlockLines(f, content), q);
      MiddleIsUnique(Unlines(p), text + "\n", block + "\n", Rest(q));
      assert (text + "\n")[..|text|] == text && (block + "\n")[..|block|] == block;
    }
  }

  lemma CutAt(ls: seq<string>, f: Fence, s: Span) returns (p: seq<string>, x: seq<string>, q: seq<string>)
    requires FindBlock(ls, f, false, 0) == Some(s) && AllLines(ls)
    ensures p == ls[..s.first] && x == ls[s.first..s.last + 1] && q == ls[s.last + 1..]
    ensures AllLines(p) && AllLines(x) && AllLines(q)
    ensures ls == p + x + q && f.open !in p && |x| >= 3 && x[0] == f.open
    ensures |p| == s.first && |p| + |x| == s.last + 1
  {
    FindBlockMeaning(ls, f, false, 0);
    p, x, q := ls[..s.first], ls[s.first..s.last + 1], ls[s.last + 1..];
  }

  lemma JoinThree(p: seq<string>, x: seq<string>, q: seq<string>)
    requires 0 < |x|
    ensures Unlines(p) + (Join(x) + "\n") + Rest(q) == Join(p + x + q) + (if q == [] then "\n" else "")
  {
    JoinAcross(p, x);
    if q == [] {
      assert p + x + q == p + x;
      assert Unlines(p) + (Join(x) + "\n") + "" == Unlines(p) + Join(x) + "\n";
    } else {
      JoinAcross(p + x, q);
      UnlinesAcross(p, x);
      JoinThenNewline(x);
      assert Join(p + x + q) + "" == Join(p + x + q);
    }
  }

  /** Where a rollback does not refuse, the first block of the file has exactly the installed lines, up to what follows
      the closing line, and these close nothing early. */
  lemma AcceptedMeans(t: string, body: seq<string>, f: Fence, prior: Option<string>) returns (s: Span)
    requires Proper(f) && AllLines(body) && 0 < |body|
    requires UndoBlock(t, f, Join([f.open] + body + [f.close]), prior) != Refused
    ensures FindBlock(Split(t), f, true, 0) == Some(s) && s.first <= s.last < |Split(t)|
    ensures Split(t)[s.first..s.last] + [f.close] == [f.open] + body + [f.close]
    ensures forall k :: 1 <= k < |body| ==> !(f.close <= body[k])
  {
    hide Split, Join, FindBlock, UndoneWith, Restored, LinesAfter;
    var ls, b := Split(t), [f.open] + body + [f.close];
    SplitGivesLines(t);
    FindBlockMeaning(ls, f, true, 0);
    s := FindBlock(ls, f, true, 0).value;
    SameLines(ls, s.first, s.last, f.close, b);
    var found := ls[s.first..s.last] + [f.close];
    forall k | 1 <= k < |body| ensures !(f.close <= body[k]) {
      assert body[k] == b[k + 1] == found[k + 1] == ls[s.first + k + 1];
    }
  }

  /** Content that closes its block early is never rolled back, in any file. */
  lemma EarlyCloseRefuses(t: string, body: seq<string>, f: Fence, prior: Option<string>, early: nat)
    requires Proper(f) && AllLines(body)
    requires 1 <= early < |body| && f.close <= body[early]
    ensures UndoBlock(t, f, Join([f.open] + body + [f.close]), prior) == Refused
  {
    hide UndoBlock;
    if UndoBlock(t, f, Join([f.open] + body + [f.close]), prior) != Refused {
      var s := AcceptedMeans(t, body, f, prior);
    }
  }

  lemma UncleanRefuses(t: string, f: Fence, content: string, prior: Option<string>)
    requires Proper(f) && !Clean(f, content)
    ensures UndoBlock(t, f, Block(f, content), prior) == Refused
  {
    hide UndoBlock, Split, Join, Block;
    var body := Body(content);
    var early :| 1 <= early < |body| && f.close <= body[early];
    SplitOfBlock(f, content);
    SplitGivesLines(RStrip(content));
    EarlyCloseRefuses(t, body, f, prior, early);
  }

  lemma DifferentLines(a: seq<string>, b: seq<string>)
    requires AllLines(a) && AllLines(b) && 0 < |a| && 0 < |b| && a != b
    ensures Join(a) != Join(b)
  {
    SplitOfJoin(a);
    SplitOfJoin(b);
  }

  lemma OpensFirst(f: Fence, content: string)
    ensures 0 < |BlockLines(f, content)| && BlockLines(f, content)[0] == f.open
  {
  }

  lemma MiddleIsUnique(a: string, x: string, y: string, c: string)
    requires a + x + c == a + y + c
    ensures x == y
  {
    assert |x| == |y|;
    assert (a + x + c)[|a|..|a| + |x|] == x;
    assert (a + y + c)[|a|..|a| + |y|] == y;
  }

  /** A block whose content was edited since is never removed. */
  lemma EditedRefuses(p: seq<string>, edited: seq<string>, q: seq<string>, f: Fence, content: string,
                      prior: Option<string>)
    requires Proper(f) && 0 < |edited|
    requires f.open !in p && AllLines(p) && AllLines(edited) && AllLines(q)
    requires forall k :: 1 <= k < |edited| ==> !(f.close <= edited[k])
    requires edited != Body(content)
    ensures UndoBlock(Join(p + ([f.open] + edited + [f.close]) + q), f, Block(f, content), prior) == Refused
  {
    hide Split, Join, Block, Body, UndoBlock;
    var b := [f.open] + edited + [f.close];
    AllLinesAcross([f.open] + edited, [f.close]);
    SplitOfBlock(f, content);
    BodyInside(f, edited);
    BodyInside(f, Body(content));
    DifferentLines(b, BlockLines(f, content));
    UndoesPlaced(p, edited, q, f, Block(f, content), prior);
  }

  lemma BodyInside(f: Fence, body: seq<string>)
    ensures var b := [f.open] + body + [f.close]; b[1..|b| - 1] == body
  {
  }

  // ---- writing the same block again ----

  /** What a caller can check before a block is written: the file either holds a whole block of this owner, and then
      the new block is taken literally, or no line that opens one. */
  predicate Guarded(existing: string, f: Fence, content: string) {
    Proper(f) &&
    if FindBlock(Split(existing), f, false, 0).Some? then Literal(Block(f, content)) else !Begins(existing, f)
  }

  /** No line of the content after its first is the closing line. */
  predicate Unbroken(f: Fence, content: string) {
    f.close !in Body(content)[1..]
  }

  /** The file as lines after a write: the block between the lines that were around it. */
  lemma WrittenShape(existing: string, f: Fence, content: string) returns (p: seq<string>, q: seq<string>)
    requires Guarded(existing, f, content) && WriteBlock(existing, f, content).Written?
    ensures AllLines(p) && AllLines(q) && f.open !in p
    ensures Split(WriteBlock(existing, f, content).text) == p + BlockLines(f, content) + q
    ensures NoBlock(q, f, false, 0)
  {
    PriorFound(existing, f, content);
    hide WriteBlock, NoBlock, Split, Join, FindBlock, BlockLines, Block, Begins, Literal, Proper, AllLines;
    if WriteBlock(existing, f, content).prior.Some? {
      p, q := NewShape(existing, f, content);
    } else {
      p, q := FreshShape(existing, f, content);
    }
  }

  lemma NewShape(existing: string, f: Fence, content: string) returns (p: seq<string>, q: seq<string>)
    requires Proper(f) && Literal(Block(f, content))
    requires WriteBlock(existing, f, content).Written? && WriteBlock(existing, f, content).prior.Some?
    ensures AllLines(p) && AllLines(q) && f.open !in p
    ensures Split(WriteBlock(existing, f, content).text) == p + BlockLines(f, content) + q
    ensures NoBlock(q, f, false, 0)
  {
    hide WriteBlock, NoBlock, Split, Join, FindBlock, Block, BlockLines, Literal, Proper, AllLines;
    var x;
    p, x, q := ReplacedShape(existing, f, content);
    NoneInTail(p + x, q, f);
  }

  lemma FreshShape(existing: string, f: Fence, content: string) returns (p: seq<string>, q: seq<string>)
    requires Proper(f) && !Begins(existing, f)
    requires WriteBlock(existing, f, content).Written? && WriteBlock(existing, f, content).prior.None?
    ensures AllLines(p) && AllLines(q) && f.open !in p
    ensures Split(WriteBlock(existing, f, content).text) == p + BlockLines(f, content) + q
    ensures NoBlock(q, f, false, 0)
  {
    hide Split, Join, FindBlock, Block, BlockLines, Unlines, Expand, Begins;
    p, q := LinesBefore(existing), [""];
    BeforeFresh(existing);
    FreshLines(existing, f, content);
    NothingBegins(existing, f);
  }

  lemma PriorFound(existing: string, f: Fence, content: string)
    requires WriteBlock(existing, f, content).Written?
    ensures WriteBlock(existing, f, content).prior.Some? <==> FindBlock(Split(existing), f, false, 0).Some?
  {
    hide Split, FindBlock, Expand, Block;
  }

  /** Writing the same block a second time reports no change, if and only if the content does not hold its closing
      line. */
  lemma WriteIsIdempotent(existing: string, f: Fence, content: string)
    requires Guarded(existing, f, content) && WriteBlock(existing, f, content).Written?
    ensures WriteBlock(WriteBlock(existing, f, content).text, f, content) == Unchanged <==> Unbroken(f, content)
  {
    hide WriteBlock, Guarded, Unbroken;
    var t := WriteBlock(existing, f, content).text;
    if Unbroken(f, content) {
      WrittenTwice(existing, f, content);
    } else if WriteBlock(t, f, content) == Unchanged {
      UnchangedIsUnbroken(t, f, content) by { GuardedIsProper(existing, f, content); }
    }
  }

  lemma GuardedIsProper(existing: string, f: Fence, content: string)
    requires Guarded(existing, f, content)
    ensures Proper(f)
  {
  }

  lemma UnchangedIsUnbroken(t: string, f: Fence, content: string)
    requires Proper(f) && WriteBlock(t, f, content) == Unchanged
    ensures Unbroken(f, content)
  {
    hide WriteBlock, Split, FindBlock, Body;
    var s := UnchangedMeans(t, f, content);
    var ls, b := Split(t), BlockLines(f, content);
    FindBlockMeaning(ls, f, false, 0);
    forall k | 1 <= k < |Body(content)| ensures Body(content)[k] != f.close {
      assert b[k + 1] == Body(content)[k] && ls[s.first..s.last + 1][k + 1] == ls[s.first + k + 1];
    }
  }

  lemma WrittenTwice(existing: string, f: Fence, content: string)
    requires Guarded(existing, f, content) && Unbroken(f, content) && WriteBlock(existing, f, content).Written?
    ensures WriteBlock(WriteBlock(existing, f, content).text, f, content) == Unchanged
  {
    var t := WriteBlock(existing, f, content).text;
    var p, q := WrittenShape(existing, f, content);
    assert forall k :: 1 <= k < |Body(content)| ==> Body(content)[k] == Body(content)[1..][k - 1];
    FindsPlaced(p, Body(content), q, f, false);
    var b := BlockLines(f, content);
    assert (p + b + q)[|p|..|p| + |b|] == b;
    SplitOfBlock(f, content);
    NoneAfter(p + b, q, f);
  }

  lemma NoneInTail(a: seq<string>, q: seq<string>, f: Fence)
    requires FindBlock(a + q, f, false, |a|).None?
    ensures NoBlock(q, f, false, 0)
  {
    FindBlockMeaning(a + q, f, false, |a|);
    forall x | 0 <= x < |q| && q[x] == f.open
      ensures NoClose(q, f, false, x + 2, |q|)
    {
      assert (a + q)[|a| + x] == q[x];
      assert forall y :: 0 <= y < |q| ==> q[y] == (a + q)[|a| + y];
    }
  }

  lemma NoneAfter(a: seq<string>, q: seq<string>, f: Fence)
    requires NoBlock(q, f, false, 0)
    ensures FindBlock(a + q, f, false, |a|).None?
  {
  }

  // ---- trailing newlines ----

  /** Lines that close nothing, at the end of the file, change no search. */
  lemma FindIgnoresTail(ls: seq<string>, q: seq<string>, f: Fence, loose: bool, k: nat)
    requires NoClose(q, f, loose, 0, |q|)
    ensures FindBlock(ls + q, f, loose, k) == FindBlock(ls, f, loose, k)
  {
    hide FindBlock, Closes;
    FindBlockMeaning(ls, f, loose, k);
    var all := ls + q;
    assert forall x :: 0 <= x < |ls| ==> all[x] == ls[x];
    assert forall x :: |ls| <= x < |all| ==> all[x] == q[x - |ls|];
    var r := FindBlock(ls, f, loose, k);
    if r.Some? {
      FindsFirst(all, f, loose, k, r.value);
    } else {
      forall x | k <= x < |all| && all[x] == f.open
        ensures NoClose(all, f, loose, x + 2, |all|)
      {
        if x < |ls| { assert ls[x] == f.open; }
      }
      FindsNone(all, f, loose, k);
    }
  }

  /** Two outcomes of a rollback that differ at most in trailing newlines of the text. */
  predicate SameUndo(a: BlockUndo, b: BlockUndo) {
    match (a, b)
    case (Undone(s), Undone(t)) => SameText(s, t)
    case (Undone(_), _) => false
    case (_, Undone(_)) => false
    case _ => a == b
  }

  /** What is put back does not depend on whether a newline follows the block. */
  predicate Indifferent(installed: string, prior: Option<string>) {
    Expand(Restored(prior), Found(installed, true)) == Expand(Restored(prior), Found(installed, false))
  }

  lemma SteadyIsIndifferent(installed: string, prior: Option<string>)
    requires prior.Some? ==> Steady(prior.value + "\n")
    ensures Indifferent(installed, prior)
  {
    EmptyExpands(Match("", ""));
    SteadyExpands(Restored(prior), Found(installed, true));
    SteadyExpands(Restored(prior), Found(installed, false));
  }

  lemma UndoIgnoresNewline(t: string, f: Fence, installed: string, prior: Option<string>)
    requires Proper(f) && Indifferent(installed, prior)
    ensures SameUndo(UndoBlock(t, f, installed, prior), UndoBlock(t + "\n", f, installed, prior))
  {
    hide Split, Join, FindBlock, Unlines, Restored, Expand;
    var ls := Split(t);
    assert t + "\n" + "" == t + "\n";
    SplitAcrossNewline(t, "");
    SplitOfLine("");
    FindIgnoresTail(ls, [""], f, true, 0);
    var r := FindBlock(ls, f, true, 0);
    if r.Some? {
      var s := r.value;
      assert (ls + [""])[..s.first] == ls[..s.first];
      assert (ls + [""])[s.first..s.last] == ls[s.first..s.last];
      assert LinesAfter(ls + [""], f, s.last) == LinesAfter(ls, f, s.last) + [""];
      UndoneSame(ls[..s.first], Restored(prior), Found(installed, ls[s.last] == f.close && s.last + 1 < |ls|),
                 Found(installed, ls[s.last] == f.close), LinesAfter(ls, f, s.last));
    }
  }

  lemma UndoneSame(p: seq<string>, template: string, m: Match, n: Match, q: seq<string>)
    requires Expand(template, m) == Expand(template, n)
    ensures SameUndo(UndoneWith(p, template, m, q), UndoneWith(p, template, n, q + [""]))
  {
    hide Join, Unlines, Expand;
    match Expand(template, m)
    case Plainly(x) =>
      RestAndNewline(q);
      if q != [] {
        assert Unlines(p) + x + Rest(q + [""]) == Unlines(p) + x + Rest(q) + "\n";
        ChompNewline(Unlines(p) + x + Rest(q));
      }
    case _ =>
  }

  lemma RestAndNewline(q: seq<string>)
    ensures Rest(q + [""]) == if q == [] then Rest(q) else Rest(q) + "\n"
  {
    if q != [] {
      UnlinesIsJoin(q);
    } else {
      assert q + [""] == [""];
    }
  }

  lemma {:induction false} UndoIgnoresNewlines(t: string, n: nat, f: Fence, installed: string, prior: Option<string>)
    requires Proper(f) && Indifferent(installed, prior)
    ensures SameUndo(UndoBlock(t, f, installed, prior), UndoBlock(t + Newlines(n), f, installed, prior))
  {
    hide UndoBlock, Indifferent;
    if n == 0 {
      assert t + "" == t;
    } else {
      UndoIgnoresNewlines(t, n - 1, f, installed, prior);
      UndoIgnoresNewline(t + Newlines(n - 1), f, installed, prior);
      assert t + Newlines(n) == t + Newlines(n - 1) + "\n";
    }
  }

  /** A rollback does not look at trailing newlines, unless the prior block, as a template, refers to the whole match:
      on texts that are the same up to those, it refuses both or gives back texts that are again the same. */
  lemma UndoRespectsSameText(a: string, b: string, f: Fence, installed: string, prior: Option<string>)
    requires Proper(f) && SameText(a, b) && Indifferent(installed, prior)
    ensures SameUndo(UndoBlock(a, f, installed, prior), UndoBlock(b, f, installed, prior))
  {
    hide UndoBlock, Indifferent;
    var m := ChompSplits(a);
    var n := ChompSplits(b);
    UndoIgnoresNewlines(Chomp(a), m, f, installed, prior);
    UndoIgnoresNewlines(Chomp(a), n, f, installed, prior);
  }

  // ---- blocks of other owners ----

  /** Lines that neither open nor close a block of this owner. */
  predicate Foreign(ls: seq<string>, f: Fence) {
    NoOpen(ls, f, 0, |ls|) && NoClose(ls, f, true, 0, |ls|)
  }

  /** Where a block lies after the lines x between p and q became the lines y. */
  function Moved(s: Span, p: seq<string>, x: seq<string>, y: seq<string>): Span
    requires s.last < |p| || |p| + |x| <= s.first <= s.last
  {
    if s.last < |p| then s else Span(s.first - |x| + |y|, s.last - |x| + |y|)
  }

  /** Exchanging lines foreign to an owner, outside its first block, leaves that block the first, unchanged. */
  lemma OtherBlockStays(p: seq<string>, x: seq<string>, y: seq<string>, q: seq<string>, g: Fence, loose: bool, s: Span)
    requires Foreign(x, g) && Foreign(y, g)
    requires FindBlock(p + x + q, g, loose, 0) == Some(s)
    requires s.last < |p| || |p| + |x| <= s.first
    ensures FindBlock(p + y + q, g, loose, 0) == Some(Moved(s, p, x, y))
    ensures (p + y + q)[Moved(s, p, x, y).first..Moved(s, p, x, y).last + 1] == (p + x + q)[s.first..s.last + 1]
  {
    hide FindBlock, Closes;
    FindBlockMeaning(p + x + q, g, loose, 0);
    Exchanged(p, x, y, q);
    if s.last < |p| {
      EarlierStays(p + x + q, p + y + q, |p|, g, loose, s);
    } else {
      LaterStays(p, x, y, q, g, loose, s);
    }
  }

  lemma EarlierStays(was: seq<string>, now: seq<string>, n: nat, g: Fence, loose: bool, s: Span)
    requires FirstBlock(was, g, loose, 0, s) && s.last < n <= |was| && n <= |now|
    requires forall a :: 0 <= a < n ==> was[a] == now[a]
    ensures FindBlock(now, g, loose, 0) == Some(s)
    ensures now[s.first..s.last + 1] == was[s.first..s.last + 1]
  {
    hide FindBlock, Closes;
    FindsFirst(now, g, loose, 0, s);
  }

  lemma LaterStays(p: seq<string>, x: seq<string>, y: seq<string>, q: seq<string>, g: Fence, loose: bool, s: Span)
    requires Foreign(y, g)
    requires FirstBlock(p + x + q, g, loose, 0, s) && |p| + |x| <= s.first
    ensures FindBlock(p + y + q, g, loose, 0) == Some(Moved(s, p, x, y))
    ensures (p + y + q)[Moved(s, p, x, y).first..Moved(s, p, x, y).last + 1] == (p + x + q)[s.first..s.last + 1]
  {
    hide FindBlock, Closes, NoOpen, NoClose, Foreign;
    var was, now := p + x + q, p + y + q;
    var m := Moved(s, p, x, y);
    NoneBefore(p, x, y, q, g, s.first);
    ShiftedClose(p, x, y, q, g, loose, s.first + 2, s.last);
    Exchanged(p, x, y, q);
    assert now[m.first] == was[s.first] && now[m.last] == was[s.last];
    FindsFirst(now, g, loose, 0, m);
    SameSlice(was, now, s, m, |y| - |x|);
  }

  lemma NoneBefore(p: seq<string>, x: seq<string>, y: seq<string>, q: seq<string>, g: Fence, n: nat)
    requires Foreign(y, g) && NoOpen(p + x + q, g, 0, n) && |p| + |x| <= n <= |p + x + q|
    ensures NoOpen(p + y + q, g, 0, n - |x| + |y|)
  {
    var was, now := p + x + q, p + y + q;
    Exchanged(p, x, y, q);
    forall a | 0 <= a < n - |x| + |y|
      ensures now[a] != g.open
    {
      if a >= |p| + |y| { assert now[a] == was[a - |y| + |x|]; }
    }
  }

  lemma ShiftedClose(p: seq<string>, x: seq<string>, y: seq<string>, q: seq<string>, g: Fence, loose: bool, a: nat,
                     b: nat)
    requires NoClose(p + x + q, g, loose, a, b) && |p| + |x| <= a && |p| + |x| <= b <= |p + x + q|
    ensures NoClose(p + y + q, g, loose, a - |x| + |y|, b - |x| + |y|)
  {
    hide Closes;
    var was, now := p + x + q, p + y + q;
    Exchanged(p, x, y, q);
    forall c | a - |x| + |y| <= c < b - |x| + |y|
      ensures !Closes(now[c], g, loose)
    {
      assert now[c] == was[c - |y| + |x|];
    }
  }

  lemma SameSlice(was: seq<string>, now: seq<string>, s: Span, m: Span, d: int)
    requires m.first == s.first + d && m.last == s.last + d
    requires s.first <= s.last < |was| && m.last < |now|
    requires forall a :: m.first <= a <= m.last ==> now[a] == was[a - d]
    ensures now[m.first..m.last + 1] == was[s.first..s.last + 1]
  {
  }

  lemma Exchanged(p: seq<string>, x: seq<string>, y: seq<string>, q: seq<string>)
    ensures var was, now := p + x + q, p + y + q;
            (forall a :: 0 <= a < |p| ==> was[a] == p[a] == now[a]) &&
            (forall a :: |p| <= a < |p| + |x| ==> was[a] == x[a - |p|]) &&
            (forall a :: |p| <= a < |p| + |y| ==> now[a] == y[a - |p|]) &&
            (forall a :: |p| + |y| <= a < |now| ==> now[a] == q[a - |p| - |y|] == was[a - |y| + |x|])
  {
  }

  /** ... and where there was no further block there is none after the exchange. */
  lemma NoOtherBlock(p: seq<string>, x: seq<string>, y: seq<string>, q: seq<string>, g: Fence, loose: bool,
                     k: nat, m: nat)
    requires 1 < |x| && Foreign(x, g) && Foreign(y, g)
    requires FindBlock(p + x + q, g, loose, k).None?
    requires if k <= |p| then m == k else |p| + |x| <= k && m == k - |x| + |y|
    ensures FindBlock(p + y + q, g, loose, m).None?
  {
    hide FindBlock;
    var was, now := p + x + q, p + y + q;
    FindBlockMeaning(was, g, loose, k);
    Exchanged(p, x, y, q);
    forall a | m <= a < |now| && now[a] == g.open
      ensures NoClose(now, g, loose, a + 2, |now|)
    {
      assert !(|p| <= a < |p| + |y|);
      var a0 := if a < |p| then a else a - |y| + |x|;
      assert was[a0] == g.open && k <= a0;
      assert NoClose(was, g, loose, a0 + 2, |was|);
      forall b | a + 2 <= b < |now|
        ensures !Closes(now[b], g, loose)
      {
        if b < |p| {
        } else if b < |p| + |y| {
          assert !Closes(y[b - |p|], g, true);
        } else {
          assert now[b] == was[b - |y| + |x|];
        }
      }
    }
    FindsNone(now, g, loose, m);
  }

  /** When a write reports no change: the only block of this owner has exactly the lines to be written. */
  predicate Holds(ls: seq<string>, f: Fence, content: string, s: Span) {
    FindBlock(ls, f, false, 0) == Some(s) && FindBlock(ls, f, false, s.last + 1).None? &&
    s.last < |ls| && s.first <= s.last && ls[s.first..s.last + 1] == BlockLines(f, content)
  }

  lemma UnchangedMeans(t: string, f: Fence, content: string) returns (s: Span)
    requires Proper(f) && WriteBlock(t, f, content) == Unchanged
    ensures Holds(Split(t), f, content, s)
  {
    hide Split, Join, FindBlock, BlockLines, Block, Expand;
    var ls := Split(t);
    s := FindBlock(ls, f, false, 0).value;
    SplitGivesLines(t);
    SplitOfBlock(f, content);
    var p, x, q := CutAt(ls, f, s);
    SplitOfJoin(x);
  }

  lemma HoldsMeansUnchanged(t: string, f: Fence, content: string, s: Span)
    requires Proper(f) && Holds(Split(t), f, content, s)
    ensures WriteBlock(t, f, content) == Unchanged
  {
    hide Split, Join, FindBlock, BlockLines, Block;
    SplitOfBlock(f, content);
  }

  /** The conditions under which blocks of two owners do not touch each other's lines. */
  predicate Apart(f: Fence, content: string, g: Fence, other: string) {
    Foreign(BlockLines(f, content), g) && Foreign(BlockLines(g, other), f)
  }

  lemma FreshLeavesOther(existing: string, f: Fence, content: string, g: Fence, other: string, s: Span)
    requires Proper(f) && Proper(g) && Apart(f, content, g, other)
    requires Holds(Split(existing), g, other, s)
    ensures Holds(Split(Fresh(existing, f, content)), g, other, s)
  {
    hide Split, FindBlock, BlockLines, Fresh, LinesBefore;
    var ls, k, b := Split(existing), LinesBefore(existing), BlockLines(f, content);
    BeforeFresh(existing);
    FreshLines(existing, f, content);
    var blanks: seq<string> :| k + [""] == ls + blanks && AllBlank(blanks);
    var now := Split(Fresh(existing, f, content));
    assert now == k + (b + [""]);
    assert NoClose(b + [""], g, false, 0, |b + [""]|) by {
      forall a | 0 <= a < |b + [""]| ensures !Closes((b + [""])[a], g, false) {
        if a < |b| { assert !Closes(b[a], g, true); }
      }
    }
    forall n: nat
      ensures FindBlock(now, g, false, n) == FindBlock(ls, g, false, n)
    {
      FindIgnoresTail(k, b + [""], g, false, n);
      FindIgnoresTail(k, [""], g, false, n);
      FindIgnoresTail(ls, blanks, g, false, n);
    }
    assert FindBlock(k, g, false, 0) == Some(s) by { FindIgnoresTail(k, b + [""], g, false, 0); }
    forall a | s.first <= a <= s.last
      ensures now[a] == ls[a]
    {
      assert (k + [""])[a] == ls[a];
    }
    assert now[s.first..s.last + 1] == ls[s.first..s.last + 1];
  }

  lemma ReplaceLeavesOther(p: seq<string>, x: seq<string>, q: seq<string>, f: Fence, content: string,
                           g: Fence, other: string, s: Span) returns (m: Span)
    requires Proper(f) && Proper(g) && Apart(f, content, g, other)
    requires 1 < |x| && x[0] == f.open && Foreign(x, g)
    requires Holds(p + x + q, g, other, s)
    ensures Holds(p + BlockLines(f, content) + q, g, other, m)
  {
    hide FindBlock, BlockLines;
    FindBlockMeaning(p + x + q, g, false, 0);
    OutsideOf(p, x, q, BlockLines(g, other), f.open, g.open, s);
    m := Moved(s, p, x, BlockLines(f, content));
    hide Foreign, Moved;
    OtherBlockStays(p, x, BlockLines(f, content), q, g, false, s);
    NoOtherBlock(p, x, BlockLines(f, content), q, g, false, s.last + 1, m.last + 1) by {
      MovedAfter(s, p, x, BlockLines(f, content));
    }
    MovedAfter(s, p, x, BlockLines(f, content));
  }

  lemma MovedAfter(s: Span, p: seq<string>, x: seq<string>, y: seq<string>)
    requires s.first <= s.last && (s.last < |p| || |p| + |x| <= s.first)
    ensures var m := Moved(s, p, x, y);
            m.first <= m.last && (if s.last + 1 <= |p| then m == s
                                  else |p| + |x| <= s.last + 1 && m.last + 1 == s.last + 1 - |x| + |y|)
  {
  }

  lemma OutsideOf(p: seq<string>, x: seq<string>, q: seq<string>, b: seq<string>, open: string, other: string, s: Span)
    requires 0 < |x| && x[0] == open && other !in x && open !in b
    requires s.first <= s.last < |p + x + q| && (p + x + q)[s.first..s.last + 1] == b && (p + x + q)[s.first] == other
    ensures s.last < |p| || |p| + |x| <= s.first
  {
    var was := p + x + q;
    assert was[|p|] == open;
    assert forall a :: s.first <= a <= s.last ==> was[a] == b[a - s.first];
    assert forall a :: |p| <= a < |p| + |x| ==> was[a] == x[a - |p|];
  }

  /** A block that is in place stays in place when a block of another owner is written into the same file. */
  lemma WriteLeavesOther(existing: string, f: Fence, content: string, g: Fence, other: string)
    requires Guarded(existing, f, content) && Proper(g) && Apart(f, content, g, other)
    requires WriteBlock(existing, f, content).Written?
    requires var prior := WriteBlock(existing, f, content).prior; prior.Some? ==> Foreign(Split(prior.value), g)
    requires WriteBlock(existing, g, other) == Unchanged
    ensures WriteBlock(WriteBlock(existing, f, content).text, g, other) == Unchanged
  {
    hide Split, Join, BlockLines, Foreign, FindBlock, Begins, Clean, Literal, Block;
    var w := WriteBlock(existing, f, content);
    var s := UnchangedMeans(existing, g, other);
    var m := s;
    if w.prior.Some? {
      PriorFound(existing, f, content);
      var p, x, q := ReplacedShape(existing, f, content);
      SplitOfJoin(x);
      assert x[0] == (p + x + q)[|p|];
      m := ReplaceLeavesOther(p, x, q, f, content, g, other, s);
    } else {
      FreshLeavesOther(existing, f, content, g, other, s);
    }
    HoldsMeansUnchanged(w.text, g, other, m);
  }

  /** Undoing one owner's block where it stands leaves the first block of another owner, outside it, unchanged; a file
      that ended with the closing line is left with an empty last line. */
  lemma UndoLeavesOther(p: seq<string>, body: seq<string>, q: seq<string>, f: Fence, prior: seq<string>,
                        g: Fence, s: Span)
    requires Proper(f) && Proper(g) && 0 < |body|
    requires f.open !in p && AllLines(p) && AllLines(body) && AllLines(q) && AllLines(prior)
    requires forall k :: 1 <= k < |body| ==> !(f.close <= body[k])
    requires Foreign([f.open] + body + [f.close], g) && Foreign(prior, g)
    requires prior != [] ==> Literal(Join(prior) + "\n")
    requires FindBlock(p + ([f.open] + body + [f.close]) + q, g, true, 0) == Some(s)
    requires s.last < |p| || |p| + |body| + 2 <= s.first
    ensures var b := [f.open] + body + [f.close];
            var r := UndoBlock(Join(p + b + q), f, Join(b), if prior == [] then None else Some(Join(prior)));
            var left := p + prior + (if q == [] then [""] else q);
            r.Undone? && Split(r.text) == left && FindBlock(left, g, true, 0) == Some(Moved(s, p, b, prior))
  {
    hide Split, Join, Unlines, FindBlock, Foreign, Closes, UndoBlock, Literal, Expand, UndoneWith, Rest, Restored,
         Moved;
    var b := [f.open] + body + [f.close];
    var kept := if prior == [] then None else Some(Join(prior));
    UndoesPlaced(p, body, q, f, Join(b), kept);
    OtherBlockStays(p, b, prior, q, g, true, s);
    PutBack(p, prior, Found(Join(b), q != []), q);
    if q == [] { EmptyLineLast(p + prior, g); }
  }

  lemma EmptyLineLast(ls: seq<string>, g: Fence)
    requires Proper(g)
    ensures FindBlock(ls + [] + [""], g, true, 0) == FindBlock(ls + [], g, true, 0)
    ensures ls + [] + [""] == ls + [""]
  {
    FindIgnoresTail(ls + [], [""], g, true, 0);
  }

  lemma PutBack(p: seq<string>, prior: seq<string>, m: Match, q: seq<string>)
    requires AllLines(p) && AllLines(prior) && AllLines(q)
    requires prior != [] ==> Literal(Join(prior) + "\n")
    ensures var u := UndoneWith(p, Restored(if prior == [] then None else Some(Join(prior))), m, q);
            u.Undone? && Split(u.text) == p + prior + (if q == [] then [""] else q)
  {
    hide Split, Join, Unlines, Expand, Literal;
    var r := if q == [] then [""] else q;
    AllLinesAcross(p, prior);
    AllLinesAcross(p + prior, r);
    SplitOfJoin(p + prior + r);
    EmptyExpands(m);
    RestIsJoin(q);
    if prior == [] {
      JoinAcross(p, r);
      assert p + prior == p;
      assert Unlines(p) + "" + Rest(q) == Unlines(p) + Rest(q);
    } else {
      LiteralExpands(Join(prior) + "\n", m);
      JoinThree(p, prior, r);
      assert Join(p + prior + r) + "" == Join(p + prior + r);
    }
  }

  lemma RestIsJoin(q: seq<string>)
    ensures Rest(q) == Join(if q == [] then [""] else q)
    ensures q != [] ==> Rest(q) == Join(q)
    ensures Rest([""]) == Rest([])
  {
  }
}
