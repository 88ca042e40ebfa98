/** Blocks that are safe to write: rolling back what was written, as it is read back from the file, is refused or gives
    the text from before, and exactly when. */
module SafeBlocks {
  import opened ManagedBlock
  import opened BlockLaws
  import opened RoundTrips
  import opened Templates
  import opened Text

  /** What a caller can check before writing. A block that cannot be taken out at all is never mistaken for anything.
      Any other is safe to add when a rollback would not take out anything already there, and to put in place of
      another when that one is put back as it was, or when the new one is changed by its own backslashes and so not
      found. */
  predicate SafeBlock(text: string, f: Fence, content: string) {
    Proper(f) &&
    (Removable(f, content) ==>
      match WriteBlock(text, f, content)
      case Written(_, None) =>
        UndoBlock(text, f, Block(f, content), None) == Refused && (Begins(text, f) ==> f.open !in Body(content))
      case Written(x, Some(prior)) =>
        if Literal(Block(f, content)) then Steady(prior + "\n") else PlainFence(f) || !Begins(Translate(x), f)
      case _ => true)
  }

  /** ... and it can surely be undone when it is new and removable, and what is replaced or put back is taken
      literally. */
  predicate SureBlock(text: string, f: Fence, content: string) {
    Removable(f, content) &&
    match WriteBlock(text, f, content)
    case Written(_, None) => !Begins(text, f)
    case Written(_, Some(prior)) => Literal(Block(f, content)) && Literal(prior + "\n")
    case _ => true
  }

  /** A rollback that is refused, fails, or gives a text back up to trailing newlines. */
  predicate ComesBack(u: BlockUndo, text: string) {
    u.Undone? ==> SameText(u.text, text)
  }

  lemma NothingToUndo(t: string, f: Fence, installed: string, prior: Option<string>)
    requires !Begins(t, f)
    ensures UndoBlock(t, f, installed, prior) == Refused
  {
    hide UndoSpan, Split;
  }

  lemma NotRemovableRefuses(t: string, f: Fence, content: string, prior: Option<string>)
    requires Proper(f) && !Removable(f, content) && '\r' !in t
    ensures UndoBlock(t, f, Block(f, content), prior) == Refused
  {
    hide UndoBlock, Clean, Block;
    if Clean(f, content) {
      CarriageRefuses(t, f, content, prior);
    } else {
      UncleanRefuses(t, f, content, prior);
    }
  }

  /** Whether a rollback is refused does not depend on what it would put back. */
  lemma RefusalIgnoresPrior(t: string, f: Fence, installed: string, prior: Option<string>, other: Option<string>)
    ensures UndoBlock(t, f, installed, prior) == Refused <==> UndoBlock(t, f, installed, other) == Refused
  {
    hide Expand, Split, FindBlock, Join;
  }

  /** Undoing a safe block, once it is read back, is refused or gives the text from before, up to trailing newlines. */
  lemma BlockComesBack(text: string, f: Fence, content: string)
    requires SafeBlock(text, f, content) && WriteBlock(text, f, content).Written? && '\r' !in text
    ensures var w := WriteBlock(text, f, content);
            ComesBack(UndoBlock(Translate(w.text), f, Block(f, content), w.prior), text) &&
            (SureBlock(text, f, content) ==> UndoBlock(Translate(w.text), f, Block(f, content), w.prior).Undone?)
  {
    hide UndoBlock, Block, WriteBlock, Fresh, Clean, Begins, Separator, Chomp, PlainFence, Translate, Body, Literal;
    var w := WriteBlock(text, f, content);
    SeenHasNone(w.text);
    if !Removable(f, content) {
      NotRemovableRefuses(Translate(w.text), f, content, w.prior);
    } else if w.prior.None? {
      FreshIsWritten(text, f, content);
      FreshComesBack(text, f, content);
    } else if Literal(Block(f, content)) {
      LiteralIsSeen(text, f, content, true);
      LiteralComesBack(text, f, content);
    } else if PlainFence(f) {
      ExpandedRefuses(text, f, content, w.prior, true);
    } else {
      NothingToUndo(Translate(w.text), f, Block(f, content), w.prior);
    }
  }

  /** ... and also after later steps and their compensations, which may leave newlines at the end. */
  lemma ComesBackLater(text: string, f: Fence, content: string, now: string)
    requires SafeBlock(text, f, content) && WriteBlock(text, f, content).Written? && '\r' !in text && '\r' !in now
    requires SameText(Translate(WriteBlock(text, f, content).text), now)
    ensures var w := WriteBlock(text, f, content);
            ComesBack(UndoBlock(now, f, Block(f, content), w.prior), text) &&
            (SureBlock(text, f, content) ==> UndoBlock(now, f, Block(f, content), w.prior).Undone?)
  {
    hide UndoBlock, Block, WriteBlock, Clean, Begins, Chomp, PlainFence, Translate, Body, Literal, Steady, Indifferent;
    var w := WriteBlock(text, f, content);
    var t := Translate(w.text);
    BlockComesBack(text, f, content);
    if !Removable(f, content) {
      NotRemovableRefuses(now, f, content, w.prior);
    } else if w.prior.Some? && !Literal(Block(f, content)) {
      SeenHasNone(w.text);
      if PlainFence(f) {
        ExpandedRefuses(text, f, content, None, true);
      } else {
        NothingToUndo(t, f, Block(f, content), None);
      }
      SteadyIsIndifferent(Block(f, content), None);
      UndoRespectsSameText(t, now, f, Block(f, content), None);
      RefusalIgnoresPrior(now, f, Block(f, content), None, w.prior);
    } else {
      SteadyIsIndifferent(Block(f, content), w.prior);
      UndoRespectsSameText(t, now, f, Block(f, content), w.prior);
    }
  }

  /** The condition is exact: a block of a marker without backslashes is safe if and only if its rollback does not give
      back another text. */
  lemma SafeExactly(text: string, f: Fence, content: string)
    requires Proper(f) && WriteBlock(text, f, content).Written? && '\r' !in text
    requires WriteBlock(text, f, content).prior.None? && Begins(text, f) ==> f.open !in Body(content)
    requires WriteBlock(text, f, content).prior.Some? ==> PlainFence(f)
    ensures var w := WriteBlock(text, f, content);
            SafeBlock(text, f, content) <==>
              ComesBack(UndoBlock(Translate(w.text), f, Block(f, content), w.prior), text)
  {
    hide UndoBlock, Block, WriteBlock, Fresh, Clean, Begins, Separator, Chomp, PlainFence, Translate, Body, Literal,
         Steady;
    var w := WriteBlock(text, f, content);
    if SafeBlock(text, f, content) {
      BlockComesBack(text, f, content);
    } else if w.prior.None? {
      FreshIsWritten(text, f, content);
      FreshKeeps(text, f, content);
      TranslateKeeps(w.text);
      if !Begins(text, f) { NothingToUndo(text, f, Block(f, content), None); }
      FreshUndoExactly(text, f, content);
    } else {
      SeenHasNone(w.text);
      LiteralIsSeen(text, f, content, true);
      LiteralComesBack(text, f, content);
    }
  }

  // ---- a block put in place of another ----

  lemma LastOfBlock(x: seq<string>, f: Fence)
    requires Proper(f) && 0 < |x| && x[|x| - 1] == f.close
    ensures Join(x) != "" && Join(x)[|Join(x)| - 1] != '\n'
  {
    hide Unlines;
    var n := |x| - 1;
    assert x == x[..n] + [f.close];
    JoinAcross(x[..n], [f.close]);
    assert (Unlines(x[..n]) + f.close)[|Unlines(x[..n])| + |f.close| - 1] == f.close[|f.close| - 1];
  }

  /** A replacement that is taken literally comes back exactly when the prior block, as a template, is inserted as it
      is or is no template at all. */
  lemma LiteralComesBack(text: string, f: Fence, content: string)
    requires Proper(f) && Literal(Block(f, content)) && Clean(f, content)
    requires WriteBlock(text, f, content).Written? && WriteBlock(text, f, content).prior.Some?
    ensures var w := WriteBlock(text, f, content);
            var u := UndoBlock(w.text, f, Block(f, content), w.prior);
            (ComesBack(u, text) <==> Steady(w.prior.value + "\n")) && (Literal(w.prior.value + "\n") ==> u.Undone?)
  {
    hide UndoBlock, WriteBlock, Split, Join, Unlines, Block, Expand, Chomp, Literal, Clean, Body;
    var w := WriteBlock(text, f, content);
    var p, x, q := ReplacedShape(text, f, content);
    LiteralUndoes(p, q, f, content, w);
    JoinOfSplit(text);
    JoinThree(p, x, q);
    LastOfPrior(text, f, content, x);
    InstalledIsHashed(f, content, q != []);
    LikePrior(p, Join(x), q, Found(Block(f, content), q != []), f, content);
    ChompNewline(text);
    assert text + "" == text;
  }

  lemma LiteralUndoes(p: seq<string>, q: seq<string>, f: Fence, content: string, w: BlockWrite)
    requires Proper(f) && Clean(f, content) && w.Written? && w.prior.Some?
    requires AllLines(p) && AllLines(q) && f.open !in p && w.text == Join(p + BlockLines(f, content) + q)
    ensures UndoBlock(w.text, f, Block(f, content), w.prior)
         == UndoneWith(p, w.prior.value + "\n", Found(Block(f, content), q != []), q)
  {
    hide UndoBlock, Split, Join, UndoneWith, Block;
    SplitOfBlock(f, content);
    SplitGivesLines(RStrip(content));
    UndoesPlaced(p, Body(content), q, f, Block(f, content), w.prior);
  }

  lemma LastOfPrior(text: string, f: Fence, content: string, x: seq<string>)
    requires Proper(f) && AllLines(x) && 0 < |x|
    requires WriteBlock(text, f, content).Written? && WriteBlock(text, f, content).prior == Some(Join(x))
    ensures Join(x) != "" && Join(x)[|Join(x)| - 1] != '\n'
  {
    hide Split, Join, FindBlock, Expand, Block;
    var ls := Split(text);
    SplitGivesLines(text);
    var s := FindBlock(ls, f, false, 0).value;
    var y := ls[s.first..s.last + 1];
    SplitOfJoin(y);
    SplitOfJoin(x);
    LastOfBlock(x, f);
  }

  lemma LikePrior(p: seq<string>, prior: string, q: seq<string>, m: Match, f: Fence, content: string)
    requires prior != "" && prior[|prior| - 1] != '\n' && Hashed(m)
    ensures var u := UndoneWith(p, prior + "\n", m, q);
            (ComesBack(u, Unlines(p) + (prior + "\n") + Rest(q)) <==> Steady(prior + "\n")) &&
            (Literal(prior + "\n") ==> u.Undone?)
  {
    hide Unlines, Rest, Chomp, Literal, Expand;
    var t := prior + "\n";
    BadAnyway(t, m, Match("", ""));
    if Expand(t, m).Plainly? {
      VerbatimIffLiteral(t, m);
      var y := ExpandLine(prior, m);
      if SameText(Unlines(p) + (y + "\n") + Rest(q), Unlines(p) + t + Rest(q)) {
        SameMiddle(Unlines(p), prior, y, Rest(q));
        ReproducesIffLiteral(t, m, false);
      }
    } else {
      SteadyIsBad(t, m);
    }
  }

  lemma SteadyIsBad(t: string, m: Match)
    requires Expand(t, m).BadTemplate?
    ensures Steady(t) && !Literal(t)
  {
    hide Expand, Literal;
    BadAnyway(t, m, Match("", ""));
    if Literal(t) { LiteralExpands(t, m); }
  }

  lemma SameMiddle(u: string, v: string, y: string, r: string)
    requires v != "" && v[|v| - 1] != '\n'
    requires SameText(u + (y + "\n") + r, u + (v + "\n") + r)
    ensures v + "\n" <= y + "\n"
  {
    hide Chomp;
    var n := ChompSplits(r);
    var a, b, c := u + (y + "\n"), u + (v + "\n"), Chomp(r);
    ChompTail(a, c, n);
    ChompTail(b, c, n);
    assert a + (c + Newlines(n)) == a + c + Newlines(n) && b + (c + Newlines(n)) == b + c + Newlines(n);
    if c == "" {
      assert a + "" == u + y + "\n" && b + "" == u + v + "\n";
      ChompNewline(u + y);
      ChompNewline(u + v);
      ChompKeeps(u + v);
      var k := ChompSplits(u + y);
      assert u + y == u + (v + Newlines(k));
      assert y == (u + y)[|u|..] == v + Newlines(k);
      NewlineFirst(k);
      assert y + "\n" == v + (Newlines(k) + "\n");
    } else {
      ChompKeeps(a + c);
      ChompKeeps(b + c);
      assert |y| == |v|;
      assert (a + c)[|u|..|u| + |y|] == y && (b + c)[|u|..|u| + |v|] == v;
    }
  }

  lemma ChompTail(a: string, c: string, n: nat)
    ensures Chomp(a + c + Newlines(n)) == Chomp(a + c)
  {
    ChompNewlines(a + c, n);
  }

  lemma ChompKeeps(t: string)
    requires t != "" && t[|t| - 1] != '\n'
    ensures Chomp(t) == t
  {
  }

  lemma {:induction false} NewlineFirst(k: nat)
    ensures "\n" <= Newlines(k) + "\n"
  {
    if k > 0 { NewlineFirst(k - 1); }
  }

  // ---- a block added behind a line that opens one ----

  lemma FreshComesBack(text: string, f: Fence, content: string)
    requires SafeBlock(text, f, content) && Removable(f, content) && '\r' !in text
    requires WriteBlock(text, f, content).Written? && WriteBlock(text, f, content).prior.None?
    ensures var u := UndoBlock(Translate(Fresh(text, f, content)), f, Block(f, content), None);
            ComesBack(u, text) && (!Begins(text, f) ==> u.Undone?)
  {
    hide UndoBlock, Block, WriteBlock, Fresh, Clean, Begins, Separator, Chomp, PlainFence, Translate, Body, Literal;
    FreshReadsBack(text, f, content);
    SeparatorIsNewlines(text);
    if Begins(text, f) {
      FreshKeeps(text, f, content);
      TranslateKeeps(Fresh(text, f, content));
      FreshUndoExactly(text, f, content);
    }
  }

  lemma SeparatorIsNewlines(t: string)
    ensures SameText(t + Separator(t), t)
  {
    if Separator(t) == "" {
      assert t + "" == t;
    } else if Separator(t) == "\n" {
      ChompNewline(t);
    } else {
      ChompNewline(t);
      ChompNewline(t + "\n");
      assert t + Separator(t) == t + "\n" + "\n";
    }
  }

  /** The block found in these lines has exactly the lines b, up to what follows its closing line. */
  predicate Accepts(ls: seq<string>, f: Fence, b: seq<string>, s: Span) {
    FindBlock(ls, f, true, 0) == Some(s) && s.first <= s.last < |ls| && ls[s.first..s.last] + [f.close] == b
  }

  lemma AcceptedAt(t: string, f: Fence, content: string) returns (s: Span)
    requires Proper(f) && UndoBlock(t, f, Block(f, content), None) != Refused
    ensures Accepts(Split(t), f, BlockLines(f, content), s)
  {
    hide UndoBlock, Split, Join, FindBlock, Block;
    SplitOfBlock(f, content);
    SplitGivesLines(RStrip(content));
    s := AcceptedMeans(t, Body(content), f, None);
  }

  lemma AcceptsUndoes(t: string, f: Fence, content: string, s: Span)
    requires Proper(f) && Accepts(Split(t), f, BlockLines(f, content), s)
    ensures f.close <= Split(t)[s.last]
    ensures UndoBlock(t, f, Block(f, content), None)
         == Undone(Unlines(Split(t)[..s.first]) + Rest(LinesAfter(Split(t), f, s.last)))
  {
    hide Split, Join, FindBlock, Block, BlockLines, Unlines, Rest, LinesAfter;
    SplitOfBlock(f, content);
    var ls := Split(t);
    EmptyExpands(Found(Block(f, content), ls[s.last] == f.close && s.last + 1 < |ls|));
    assert Unlines(ls[..s.first]) + "" == Unlines(ls[..s.first]);
  }

  lemma AcceptsAlso(a: seq<string>, c: seq<string>, f: Fence, b: seq<string>, s: Span)
    requires Accepts(a, f, b, s) && s.last < |c| && forall i :: 0 <= i <= s.last ==> a[i] == c[i]
    ensures Accepts(c, f, b, s)
  {
    hide FindBlock;
    FindBlockMeaning(a, f, true, 0);
    EarlierStays(a, c, s.last + 1, f, true, s);
    assert a[s.first..s.last] == c[s.first..s.last];
  }

  /** Behind a line that opens a block, only what stood there before is found. */
  lemma FoundBefore(k: seq<string>, b: seq<string>, f: Fence, s: Span)
    requires Proper(f) && f.open in k && |b| >= 3 && b[0] == f.open && f.open !in b[1..]
    requires Accepts(k + b + [""], f, b, s)
    ensures s.last < |k|
  {
    hide FindBlock;
    var ls := k + b + [""];
    FindBlockMeaning(ls, f, true, 0);
    var o :| 0 <= o < |k| && k[o] == f.open;
    assert ls[o] == f.open && ls[|k|] == f.open;
    assert s.first <= o;
    forall x | s.first < x < s.last ensures ls[x] != f.open {
      assert b[1..][x - s.first - 1] == (ls[s.first..s.last] + [f.close])[x - s.first] == ls[x];
    }
  }

  /** A block added behind a line that opens one: its rollback is refused exactly when a rollback on the file from
      before is, and otherwise it takes out what stood there. */
  lemma FreshUndoExactly(existing: string, f: Fence, content: string)
    requires Proper(f) && Begins(existing, f) && f.open !in Body(content)
    ensures var u := UndoBlock(Fresh(existing, f, content), f, Block(f, content), None);
            (u == Refused <==> UndoBlock(existing, f, Block(f, content), None) == Refused) &&
            (u == Refused || (u.Undone? && !SameText(u.text, existing)))
  {
    hide UndoBlock, Split, FindBlock, Block, BlockLines, Unlines, LinesBefore, Fresh, Chomp, Accepts;
    var ls, k, b := Split(existing), LinesBefore(existing), BlockLines(f, content);
    BeforeFresh(existing);
    NothingBegins(existing, f);
    FreshLines(existing, f, content);
    OpensOnce(f, content);
    var t := Fresh(existing, f, content);
    if UndoBlock(t, f, Block(f, content), None) != Refused {
      var s := AcceptedAt(t, f, content);
      FoundBefore(k, b, f, s);
      BlankTail(existing, k, b, f, s);
      AcceptsAlso(Split(t), ls, f, b, s);
      AcceptsUndoes(existing, f, content, s);
      AnotherText(existing, f, content, s);
    }
    if UndoBlock(existing, f, Block(f, content), None) != Refused {
      var s := AcceptedAt(existing, f, content);
      BlankEnd(existing, k, b, f, s);
      AcceptsAlso(ls, Split(t), f, b, s);
      AcceptsUndoes(t, f, content, s);
    }
  }

  lemma OpensOnce(f: Fence, content: string)
    requires Proper(f) && f.open !in Body(content)
    ensures var b := BlockLines(f, content); |b| >= 3 && b[0] == f.open && f.open !in b[1..]
  {
    hide Body;
    assert BlockLines(f, content)[1..] == Body(content) + [f.close];
  }

  lemma BlankTail(existing: string, k: seq<string>, b: seq<string>, f: Fence, s: Span)
    requires Proper(f) && k == LinesBefore(existing) && s.last < |k| && Accepts(k + b + [""], f, b, s)
    ensures s.last < |Split(existing)| && forall i :: 0 <= i <= s.last ==> (k + b + [""])[i] == Split(existing)[i]
  {
    hide Split, LinesBefore;
    BeforeFresh(existing);
    var blanks: seq<string> :| k + [""] == Split(existing) + blanks && AllBlank(blanks);
    var ls := Split(existing);
    assert (k + [""])[s.last] == k[s.last] && f.close <= k[s.last];
    assert forall i :: |ls| <= i < |ls + blanks| ==> (ls + blanks)[i] == blanks[i - |ls|];
    forall i | 0 <= i <= s.last ensures (k + b + [""])[i] == ls[i] {
      assert (k + [""])[i] == (ls + blanks)[i];
    }
  }

  lemma BlankEnd(existing: string, k: seq<string>, b: seq<string>, f: Fence, s: Span)
    requires Proper(f) && k == LinesBefore(existing) && Accepts(Split(existing), f, b, s)
    ensures s.last < |k| && forall i :: 0 <= i <= s.last ==> (k + b + [""])[i] == Split(existing)[i]
  {
    hide Split, LinesBefore;
    BeforeFresh(existing);
    var blanks: seq<string> :| k + [""] == Split(existing) + blanks && AllBlank(blanks);
    var ls := Split(existing);
    assert (ls + blanks)[s.last] == ls[s.last] && f.close <= ls[s.last];
    assert s.last < |k|;
    forall i | 0 <= i <= s.last ensures (k + b + [""])[i] == ls[i] {
      assert (k + [""])[i] == (ls + blanks)[i];
    }
  }

  /** Taking out an earlier block and keeping the added one gives a longer text than the one from before. */
  lemma AnotherText(existing: string, f: Fence, content: string, s: Span)
    requires Proper(f) && s.last < |LinesBefore(existing)|
    requires Accepts(Split(Fresh(existing, f, content)), f, BlockLines(f, content), s)
    ensures var u := UndoBlock(Fresh(existing, f, content), f, Block(f, content), None);
            u.Undone? && !SameText(u.text, existing)
  {
    hide UndoBlock, Split, FindBlock, Block, Unlines, Join, LinesBefore, Fresh, Chomp, BlockLines, Rest;
    var k, b, t := LinesBefore(existing), BlockLines(f, content), Fresh(existing, f, content);
    FreshLines(existing, f, content);
    BeforeFresh(existing);
    AcceptsUndoes(t, f, content, s);
    SplitOfBlock(f, content);
    var ls := k + b + [""];
    assert ls[..s.first] == k[..s.first] && ls[s.last] == k[s.last] && ls[s.first..s.last] == k[s.first..s.last];
    BehindFound(k, b, f, s.last);
    var la := LinesAfter(k, f, s.last);
    RestUnlines(la + b);
    assert Unlines(k[..s.first]) + Unlines(la + b) == UndoBlock(t, f, Block(f, content), None).text;
    LongerLeft(k, b, f, s, la);
    LastChomped(k[..s.first], la, b, f);
    ShortBefore(existing, k);
  }

  lemma BehindFound(k: seq<string>, b: seq<string>, f: Fence, j: nat)
    requires j < |k| && f.close <= k[j]
    ensures LinesAfter(k + b + [""], f, j) == LinesAfter(k, f, j) + b + [""]
  {
  }

  lemma RestUnlines(ls: seq<string>)
    ensures Rest(ls + [""]) == Unlines(ls)
  {
    JoinAcross(ls, [""]);
    assert Unlines(ls) + "" == Unlines(ls);
  }

  lemma LongerLeft(k: seq<string>, b: seq<string>, f: Fence, s: Span, la: seq<string>)
    requires s.first <= s.last < |k| && f.close <= k[s.last] && la == LinesAfter(k, f, s.last)
    requires k[s.first..s.last] + [f.close] == b
    ensures |Unlines(k[..s.first])| + |Unlines(la)| + |Join(b)| + 1 >= |Unlines(k)|
  {
    hide Join, Unlines;
    var p, mid, last, r := k[..s.first], k[s.first..s.last], k[s.last], k[s.last + 1..];
    ThreeParts(p, mid, last, r, k);
    JoinAcross(mid, [f.close]);
    JoinOne(f.close);
    var tail := last[|f.close|..];
    if tail != "" {
      OneUnline(tail, r);
    } else {
      assert [] + r == r;
    }
  }

  lemma UnlinesLength(p: seq<string>, q: seq<string>)
    ensures |Unlines(p + q)| == |Unlines(p)| + |Unlines(q)|
  {
    UnlinesAcross(p, q);
  }

  lemma ThreeParts(p: seq<string>, mid: seq<string>, last: string, r: seq<string>, k: seq<string>)
    requires k == p + mid + ([last] + r)
    ensures |Unlines(k)| == |Unlines(p)| + |Unlines(mid)| + |last| + 1 + |Unlines(r)|
  {
    hide Unlines;
    UnlinesLength(p + mid, [last] + r);
    UnlinesLength(p, mid);
    OneUnline(last, r);
  }

  lemma JoinOne(l: string)
    ensures Join([l]) == l
  {
  }

  lemma LastChomped(p: seq<string>, la: seq<string>, b: seq<string>, f: Fence)
    requires Proper(f) && 0 < |b| && b[|b| - 1] == f.close
    ensures |Chomp(Unlines(p) + Unlines(la + b))| == |Unlines(p)| + |Unlines(la)| + |Join(b)|
  {
    hide Unlines, Join, Chomp;
    UnlinesAcross(la, b);
    JoinThenNewline(b);
    LastOfBlock(b, f);
    var t := Unlines(p) + Unlines(la) + Join(b);
    assert Unlines(p) + (Unlines(la) + (Join(b) + "\n")) == t + "\n";
    ChompNewline(t);
    ChompKeeps(t);
  }

  lemma ShortBefore(existing: string, k: seq<string>)
    requires k == LinesBefore(existing) && k != []
    ensures |Chomp(existing)| + 2 <= |Unlines(k)|
  {
    hide Unlines, Chomp, Split, LinesBefore, Separator;
    BeforeFresh(existing);
    var w := PaddedEnds(existing);
    SeparatorIsNewlines(existing);
    if existing == "" {
      NoLines(k);
    } else {
      ChompNewline(w);
      ChompNewline(w + "\n");
      var n := ChompSplits(w);
    }
  }

  lemma NoLines(k: seq<string>)
    requires k != []
    ensures Unlines(k) != ""
  {
  }

  /** A file where the condition fails: an earlier block of the same owner with text right behind its closing line. It
      is not found when writing, so that another block is added, and the rollback of that one takes out the earlier
      one. */
  lemma TextBehindClosing(f: Fence, content: string, tail: string)
    requires Proper(f) && Clean(f, content) && f.open !in Body(content) && IsLine(tail) && tail != ""
    ensures var existing := Block(f, content) + tail;
            var u := UndoBlock(Fresh(existing, f, content), f, Block(f, content), None);
            WriteBlock(existing, f, content) == Written(Fresh(existing, f, content), None) &&
            u.Undone? && !SameText(u.text, existing)
  {
    hide UndoBlock, Split, FindBlock, Block, Fresh, Chomp, Body;
    var existing := Block(f, content) + tail;
    var ls := [f.open] + Body(content) + [f.close + tail];
    TailLines(f, content, tail);
    TailFound(ls, Body(content), f, tail);
    BodyAndClose(f, content, tail);
    AcceptsUndoes(existing, f, content, Span(0, |ls| - 1));
    assert ls[0] in ls;
    FreshUndoExactly(existing, f, content);
  }

  lemma TailLines(f: Fence, content: string, tail: string)
    requires Proper(f) && IsLine(tail)
    ensures Split(Block(f, content) + tail) == [f.open] + Body(content) + [f.close + tail]
  {
    hide Split;
    var c := RStrip(content);
    assert Block(f, content) + tail == f.open + "\n" + (c + "\n" + (f.close + tail));
    SplitAcrossNewline(f.open, c + "\n" + (f.close + tail));
    SplitAcrossNewline(c, f.close + tail);
    SplitOfLine(f.open);
    SplitOfLine(f.close + tail);
  }

  lemma TailFound(ls: seq<string>, body: seq<string>, f: Fence, tail: string)
    requires Proper(f) && tail != "" && 0 < |body| && ls == [f.open] + body + [f.close + tail]
    requires f.open !in body && forall k :: 1 <= k < |body| ==> !(f.close <= body[k])
    ensures FindBlock(ls, f, false, 0).None?
    ensures FindBlock(ls, f, true, 0) == Some(Span(0, |ls| - 1))
  {
    hide FindBlock;
    var n := |ls| - 1;
    assert ls[n] == f.close + tail && f.close <= ls[n];
    assert forall i :: 1 <= i < n ==> ls[i] == body[i - 1];
    assert NoClose(ls, f, true, 2, n);
    FindsFirst(ls, f, true, 0, Span(0, n));
    assert ls[n] != f.close;
    assert NoClose(ls, f, false, 2, |ls|);
    assert forall i :: 1 <= i <= n ==> ls[i] != f.open;
    assert forall i :: 0 <= i < |ls| && ls[i] == f.open ==> i == 0;
    FindsNone(ls, f, false, 0);
  }

  lemma BodyAndClose(f: Fence, content: string, tail: string)
    ensures var ls := [f.open] + Body(content) + [f.close + tail];
            ls[0..|ls| - 1] + [f.close] == BlockLines(f, content)
  {
    hide Body;
  }
}
