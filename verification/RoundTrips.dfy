/** Whether a block comes back: rolling back what a step wrote, as the text stands and as it is read back from its
    file. */
module RoundTrips {
  import opened ManagedBlock
  import opened BlockLaws
  import opened Templates
  import opened Text

  // ---- carriage returns ----

  /** A block that can be taken out again at all: its content does not close it early, and it holds no carriage return,
      which reading would change. */
  predicate Removable(f: Fence, content: string) {
    Clean(f, content) && '\r' !in Block(f, content)
  }

  lemma WithinText(ls: seq<string>, i: nat, j: nat, close: string)
    requires i <= j < |ls| && close <= ls[j] && '\r' !in Join(ls)
    ensures '\r' !in Join(ls[i..j] + [close])
  {
    hide Join, Unlines;
    assert ls == ls[..i] + ls[i..];
    JoinAcross(ls[..i], ls[i..]);
    assert ls[i..][..j - i] == ls[i..j];
    PrefixAtClose(ls[i..], close, j - i);
    var u, v, w := Unlines(ls[..i]), Join(ls[i..]), Join(ls[i..j] + [close]);
    assert forall k :: 0 <= k < |w| ==> w[k] == v[k] == (u + v)[|u| + k];
  }

  /** A block with a carriage return is not found in a text that was read from a file. */
  lemma CarriageRefuses(t: string, f: Fence, content: string, prior: Option<string>)
    requires Proper(f) && '\r' !in t && '\r' in Block(f, content)
    ensures UndoBlock(t, f, Block(f, content), prior) == Refused
  {
    hide UndoBlock, Split, Join, Block, Body, FindBlock;
    SplitOfBlock(f, content);
    SplitGivesLines(RStrip(content)) by { assert Body(content) == Split(RStrip(content)) by { BodyIs(content); } }
    BodyIs(content);
    JoinOfSplit(t);
    if UndoBlock(t, f, Block(f, content), prior) != Refused {
      var s := AcceptedMeans(t, Body(content), f, prior);
      WithinText(Split(t), s.first, s.last, f.close);
    }
  }

  lemma BodyIs(content: string)
    ensures Body(content) == Split(RStrip(content))
  {
  }

  /** ... so that every run writes it anew. */
  lemma CarriageRewrites(t: string, f: Fence, content: string)
    requires Proper(f) && '\r' !in t && '\r' in Block(f, content)
    ensures WriteBlock(t, f, content) != Unchanged
  {
    hide WriteBlock, Split, Join, Block, BlockLines, FindBlock;
    SplitOfBlock(f, content);
    JoinOfSplit(t);
    if WriteBlock(t, f, content) == Unchanged {
      var s := UnchangedMeans(t, f, content);
      var ls := Split(t);
      assert ls[s.first..s.last] + [ls[s.last]] == ls[s.first..s.last + 1];
      WithinText(ls, s.first, s.last, ls[s.last]);
    }
  }

  // ---- a fresh block ----

  lemma FreshKeeps(existing: string, f: Fence, content: string)
    ensures '\r' in Fresh(existing, f, content) <==> '\r' in existing || '\r' in Block(f, content)
  {
    hide Block;
    var a, b := existing + Separator(existing), Block(f, content);
    assert forall c :: c in a + b + "\n" <==> c in a || c in b || c in "\n";
    assert '\r' !in Separator(existing) && forall c :: c in a <==> c in existing || c in Separator(existing);
  }

  /** Rolling back a freshly inserted block, after reading it back, gives the text and its separator, exactly when no
      line of the text already opens such a block and the block can be taken out at all. */
  lemma FreshReadsBack(existing: string, f: Fence, content: string)
    requires Proper(f) && '\r' !in existing
    ensures UndoBlock(Translate(Fresh(existing, f, content)), f, Block(f, content), None)
         == Undone(existing + Separator(existing))
       <==> !Begins(existing, f) && Removable(f, content)
  {
    hide UndoBlock, Fresh, Block, Clean, Begins, Translate;
    var t := Fresh(existing, f, content);
    FreshKeeps(existing, f, content);
    if '\r' in Block(f, content) {
      TranslateHasNone(t);
      CarriageRefuses(Translate(t), f, content, None);
    } else {
      TranslateKeeps(t);
      FreshRoundTrip(existing, f, content);
    }
  }

  // ---- a replaced block ----

  /** The text a replacement gives back when undone: the block that ended the file gains a newline. */
  function GivenBack(existing: string, f: Fence): string {
    var ls := Split(existing);
    match FindBlock(ls, f, false, 0)
    case Some(s) => if s.last + 1 == |ls| then existing + "\n" else existing
    case None => existing
  }

  /** Rolling back a replacement gives back exactly the original text, with one newline added when the old block
      ended the file, if and only if the content does not close the block early and neither the new block nor the
      prior one, both used as templates, holds an active backslash. Where the replacement is read back first, the new
      block must not hold a carriage return either. */
  lemma ReplaceRoundTrip(existing: string, f: Fence, content: string, back: bool)
    requires Proper(f) && (back ==> '\r' !in existing)
    requires WriteBlock(existing, f, content).Written? && WriteBlock(existing, f, content).prior.Some?
    ensures var w := WriteBlock(existing, f, content);
            (UndoBlock(Seen(w.text, back, false), f, Block(f, content), w.prior) == Undone(GivenBack(existing, f))
             <==> Clean(f, content) && (back ==> '\r' !in Block(f, content)) &&
                  Literal(w.prior.value + "\n") && Literal(Block(f, content)))
  {
    hide UndoBlock, WriteBlock, Literal, Clean, GivenBack, Block, Seen, PlainFence;
    var w := WriteBlock(existing, f, content);
    var t := Seen(w.text, back, false);
    if !Clean(f, content) {
      UncleanRefuses(t, f, content, w.prior);
    } else if back && '\r' in Block(f, content) {
      SeenHasNone(w.text);
      CarriageRefuses(t, f, content, w.prior);
    } else if Literal(Block(f, content)) {
      LiteralIsSeen(existing, f, content, back);
      LiteralRoundTrip(existing, f, content);
    } else if PlainFence(f) {
      ExpandedRefuses(existing, f, content, w.prior, back);
    } else {
      FenceExpands(existing, f, content, back);
    }
  }

  lemma SeenHasNone(t: string)
    ensures '\r' !in Seen(t, true, false) && Seen(t, true, false) == Translate(t)
  {
    ReadShape(t, false);
  }

  /** What follows the lines before q. */
  function Behind(q: seq<string>): string {
    if q == [] then "" else "\n" + Join(q)
  }

  lemma NothingBehind()
    ensures Behind([]) == ""
  {
  }

  lemma Around(p: seq<string>, x: string, q: seq<string>)
    requires AllLines(p) && AllLines(q)
    ensures Join(p + Split(x) + q) == Unlines(p) + x + Behind(q)
    ensures Split(Unlines(p) + x + Behind(q)) == p + Split(x) + q
  {
    hide Split, Join, Unlines;
    SplitGivesLines(x);
    JoinOfSplit(x);
    PlacedSplit(p, Split(x), q);
    JoinAcross(p, Split(x));
    if q == [] {
      assert p + Split(x) + q == p + Split(x);
      assert Unlines(p) + x + "" == Unlines(p) + x;
    } else {
      JoinAcross(p + Split(x), q);
      UnlinesAcross(p, Split(x));
      JoinThenNewline(Split(x));
      assert Unlines(p) + (x + "\n") + Join(q) == Unlines(p) + x + ("\n" + Join(q));
    }
  }

  /** What a replacement writes: the new block, expanded, between what was around the old one. */
  lemma ReplacedAround(existing: string, f: Fence, content: string)
      returns (p: seq<string>, x: seq<string>, q: seq<string>)
    requires Proper(f)
    requires WriteBlock(existing, f, content).Written? && WriteBlock(existing, f, content).prior.Some?
    ensures AllLines(p) && AllLines(x) && AllLines(q) && f.open !in p && |x| >= 3 && x[0] == f.open
    ensures WriteBlock(existing, f, content).prior == Some(Join(x))
    ensures Hashed(Match(Join(x), Join(x))) && Inserted(f, content, Join(x)).Plainly?
    ensures existing == Unlines(p) + Join(x) + Behind(q) == Join(p + x + q)
    ensures WriteBlock(existing, f, content).text == Unlines(p) + Inserted(f, content, Join(x)).text + Behind(q)
  {
    hide Split, Join, Unlines, FindBlock, Expand, Block, WriteBlock;
    p, x, q := ReplacedText(existing, f, content);
    PriorIsHashed(f, x);
    JoinOfSplit(existing);
    SplitOfJoin(x);
    Around(p, Join(x), q);
    Around(p, Inserted(f, content, Join(x)).text, q);
  }

  lemma NoneInParts(a: string, b: string, c: string)
    ensures '\r' !in a + b + c <==> '\r' !in a && '\r' !in b && '\r' !in c
  {
    var t := a + b + c;
    assert forall k :: 0 <= k < |a| ==> t[k] == a[k];
    assert forall k :: 0 <= k < |b| ==> t[|a| + k] == b[k];
    assert forall k :: 0 <= k < |c| ==> t[|a| + |b| + k] == c[k];
    assert forall k :: 0 <= k < |t| ==> t[k] in a || t[k] in b || t[k] in c;
  }

  lemma SeenKeeps(t: string, back: bool)
    requires back ==> '\r' !in t
    ensures Seen(t, back, false) == t
  {
    ReadShape(t, false);
  }

  /** A block that is taken literally and holds no carriage return is read back as it was written. */
  lemma LiteralIsSeen(existing: string, f: Fence, content: string, back: bool)
    requires Proper(f) && Literal(Block(f, content)) && (back ==> '\r' !in existing && '\r' !in Block(f, content))
    requires WriteBlock(existing, f, content).Written? && WriteBlock(existing, f, content).prior.Some?
    ensures Seen(WriteBlock(existing, f, content).text, back, false) == WriteBlock(existing, f, content).text
  {
    hide WriteBlock, Literal, Block, Seen, Expand, Join, Unlines;
    var p, x, q := ReplacedAround(existing, f, content);
    LiteralExpands(Block(f, content), Match(Join(x), Join(x)));
    NoneInParts(Unlines(p), Join(x), Behind(q));
    NoneInParts(Unlines(p), Block(f, content), Behind(q));
    SeenKeeps(WriteBlock(existing, f, content).text, back);
  }

  lemma InstalledIsHashed(f: Fence, content: string, ended: bool)
    requires Proper(f)
    ensures Hashed(Found(Block(f, content), ended))
  {
  }

  lemma LiteralRoundTrip(existing: string, f: Fence, content: string)
    requires Proper(f) && Literal(Block(f, content)) && Clean(f, content)
    requires WriteBlock(existing, f, content).Written? && WriteBlock(existing, f, content).prior.Some?
    ensures var w := WriteBlock(existing, f, content);
            (UndoBlock(w.text, f, Block(f, content), w.prior) == Undone(GivenBack(existing, f))
             <==> Literal(w.prior.value + "\n"))
  {
    hide UndoBlock, Literal, WriteBlock, Split, Join, Unlines, Block, Expand;
    var w := WriteBlock(existing, f, content);
    var p, x, q := ReplacedShape(existing, f, content);
    SplitOfBlock(f, content);
    SplitGivesLines(RStrip(content));
    JoinOfSplit(existing);
    UndoesPlaced(p, Body(content), q, f, Block(f, content), w.prior);
    JoinThree(p, x, q);
    assert existing + "" == existing;
    var template, m := w.prior.value + "\n", Found(Block(f, content), q != []);
    InstalledIsHashed(f, content, q != []);
    VerbatimIffLiteral(template, m);
    if UndoneWith(p, template, m, q) == Undone(GivenBack(existing, f)) {
      MiddleIsUnique(Unlines(p), Expand(template, m).text, template, Rest(q));
    }
  }

  /** Every block that is written stands behind whole lines, and begins with the character of all marker lines. */
  lemma WrittenHash(existing: string, f: Fence, content: string) returns (p: seq<string>, y: string)
    requires Proper(f) && WriteBlock(existing, f, content).Written? && '\r' !in existing
    ensures Translate(WriteBlock(existing, f, content).text) == Unlines(p) + y && AllLines(p) && "#" <= y
  {
    hide WriteBlock, Literal, Block, Expand, Join, Split, Unlines, Behind, Translate;
    BlockHash(f, content);
    var t := "";
    if WriteBlock(existing, f, content).prior.Some? {
      var x, q;
      p, x, q := ReplacedAround(existing, f, content);
      ExpandHash(Block(f, content), Match(Join(x), Join(x)));
      NoneInParts(Unlines(p), Join(x), Behind(q));
      t := Inserted(f, content, Join(x)).text + Behind(q);
      assert Unlines(p) + Inserted(f, content, Join(x)).text + Behind(q) == Unlines(p) + t;
    } else {
      p := LinesBefore(existing);
      BeforeFresh(existing);
      FreshIsWritten(existing, f, content);
      t := Block(f, content) + "\n";
      assert existing + Separator(existing) + Block(f, content) + "\n" == existing + Separator(existing) + t;
      PaddedKeeps(existing);
    }
    y := Translate(t);
    TranslateBehind(Unlines(p), t);
  }

  lemma PaddedKeeps(t: string)
    requires '\r' !in t
    ensures '\r' !in t + Separator(t)
  {
    NoneInParts(t, Separator(t), "");
    assert t + Separator(t) + "" == t + Separator(t);
  }

  lemma TranslateBehind(a: string, t: string)
    requires '\r' !in a && "#" <= t
    ensures Translate(a + t) == a + Translate(t) && "#" <= Translate(t)
  {
    SeenKeeps(a, true);
    ReadAcross(a, t, false);
    assert a != "" ==> a[|a| - 1] in a;
    assert t[0] == '#';
  }

  lemma BlockHash(f: Fence, content: string)
    requires Proper(f)
    ensures "#" <= Block(f, content)
  {
  }

  lemma ExpandHash(t: string, m: Match)
    requires "#" <= t && Expand(t, m).Plainly?
    ensures "#" <= Expand(t, m).text
  {
  }

  // ---- a new block with an active backslash ----

  /** A marker without active backslashes. */
  predicate PlainFence(f: Fence) {
    Literal(f.open + "\n") && Literal(f.close)
  }

  /** Expanding the block of such a marker keeps its opening and closing line. */
  lemma ExpandedBlock(f: Fence, content: string, m: Match) returns (y: string)
    requires Proper(f) && PlainFence(f) && Expand(Block(f, content), m).Plainly?
    ensures Expand(Block(f, content), m).text == f.open + "\n" + (y + "\n" + f.close)
    ensures Expand(RStrip(content) + "\n", m) == Plainly(y + "\n")
  {
    hide Expand, Literal;
    var c := RStrip(content);
    var rest := c + "\n" + f.close;
    assert Block(f, content) == f.open + "\n" + rest;
    LiteralExpands(f.open + "\n", m);
    ExpandAcross(f.open + "\n", rest, m);
    ExpandAcross(c + "\n", f.close, m);
    LiteralExpands(f.close, m);
    assert Expand(c + "\n", m).Plainly?;
    y := ExpandLine(c, m);
  }

  lemma LinesOfThree(open: string, y: string, close: string)
    requires IsLine(open) && IsLine(close)
    ensures Split(open + "\n" + (y + "\n" + close)) == [open] + Split(y) + [close]
  {
    hide Split;
    SplitAcrossNewline(open, y + "\n" + close);
    SplitAcrossNewline(y, close);
    SplitOfLine(open);
    SplitOfLine(close);
    assert [open] + (Split(y) + [close]) == [open] + Split(y) + [close];
  }

  /** Text without carriage returns is read as it stands, around whatever is between; and that is read by itself when it
      does not end in a carriage return. */
  lemma SeenAround(a: string, x: string, c: string, back: bool)
    requires back ==> '\r' !in a && '\r' !in c && x != "" && x[|x| - 1] != '\r'
    ensures Seen(a + x + c, back, false) == a + Seen(x, back, false) + c
  {
    hide ReadFrom;
    SeenAcross(a + x, c, back, false);
    SeenAcross(a, x, back, false);
    SeenKeeps(a, back);
    SeenKeeps(c, back);
    if back { assert a != "" ==> a[|a| - 1] in a; }
  }

  lemma SeenLine(y: string, back: bool) returns (z: string)
    ensures Seen(y + "\n", back, false) == z + "\n"
  {
    if back { z := ReadLine(y); } else { z := y; }
  }

  /** A block that was written with a backslash expanded is never rolled back. */
  lemma ExpandedRefuses(existing: string, f: Fence, content: string, prior: Option<string>, back: bool)
    requires Proper(f) && PlainFence(f) && !Literal(Block(f, content))
    requires back ==> '\r' !in existing && '\r' !in Block(f, content)
    requires WriteBlock(existing, f, content).Written? && WriteBlock(existing, f, content).prior.Some?
    ensures UndoBlock(Seen(WriteBlock(existing, f, content).text, back, false), f, Block(f, content), prior) == Refused
  {
    hide UndoBlock, Literal, PlainFence, WriteBlock, Split, Join, Unlines, Expand, Block, Seen, Behind;
    var p, x, q := ReplacedAround(existing, f, content);
    var m := Match(Join(x), Join(x));
    var z := ExpandedSeen(f, content, m, back);
    NoneInParts(Unlines(p), Join(x), Behind(q));
    SeenAround(Unlines(p), Inserted(f, content, Join(x)).text, Behind(q), back);
    Around(p, f.open + "\n" + (z + "\n" + f.close), q);
    LinesOfThree(f.open, z, f.close);
    PlacedRefuses(Seen(WriteBlock(existing, f, content).text, back, false), p, z, q, f, content, prior);
  }

  lemma ExpandedSeen(f: Fence, content: string, m: Match, back: bool) returns (z: string)
    requires Proper(f) && PlainFence(f) && !Literal(Block(f, content)) && Hashed(m) &&
             Expand(Block(f, content), m).Plainly?
    requires back ==> '\r' !in Block(f, content)
    ensures var text := Expand(Block(f, content), m).text;
            text != "" && (back ==> text[|text| - 1] != '\r') &&
            Seen(text, back, false) == f.open + "\n" + (z + "\n" + f.close) &&
            !(Block(f, content) <= f.open + "\n" + (z + "\n" + f.close))
  {
    ReturnFree(f, content);
    hide Literal, PlainFence, Expand, Block, Seen;
    var y := ExpandedBlock(f, content, m);
    var text := Expand(Block(f, content), m).text;
    z := SeenLine(y, back);
    assert text == (f.open + "\n") + (y + "\n") + f.close;
    SeenAround(f.open + "\n", y + "\n", f.close, back);
    assert f.open + "\n" + (z + "\n") + f.close == f.open + "\n" + (z + "\n" + f.close);
    ReproducesIffLiteral(Block(f, content), m, back);
    assert text[|text| - 1] == f.close[|f.close| - 1];
  }

  lemma ReturnFree(f: Fence, content: string)
    ensures '\r' !in Block(f, content) ==> '\r' !in f.open + "\n" && '\r' !in f.close
  {
    assert Block(f, content) == (f.open + "\n") + (RStrip(content) + "\n") + f.close;
    NoneInParts(f.open + "\n", RStrip(content) + "\n", f.close);
  }

  /** Where another text stands at the place of the block, between its marker lines, it is refused unless it begins with
      the block. */
  lemma PlacedRefuses(t: string, p: seq<string>, y: string, q: seq<string>, f: Fence, content: string,
                      prior: Option<string>)
    requires Proper(f) && f.open !in p && Split(t) == p + ([f.open] + Split(y) + [f.close]) + q
    requires !(Block(f, content) <= f.open + "\n" + (y + "\n" + f.close))
    ensures UndoBlock(t, f, Block(f, content), prior) == Refused
  {
    hide UndoBlock, Split, Join, FindBlock, Block;
    LinesOfThree(f.open, y, f.close);
    JoinOfSplit(f.open + "\n" + (y + "\n" + f.close));
    SplitOfBlock(f, content);
    SplitGivesLines(RStrip(content));
    assert BlockLines(f, content) == [f.open] + Body(content) + [f.close];
    if UndoBlock(t, f, Block(f, content), prior) != Refused {
      var s := AcceptedMeans(t, Body(content), f, prior);
      FoundIsPrefix(p, [f.open] + Split(y) + [f.close], q, f, s);
    }
  }

  lemma FirstIsPlaced(p: seq<string>, b: seq<string>, q: seq<string>, f: Fence, s: Span)
    requires |b| >= 3 && b[0] == f.open && b[|b| - 1] == f.close && f.open !in p
    requires FindBlock(p + b + q, f, true, 0) == Some(s)
    ensures s.first == |p| <= s.last < |p| + |b|
    ensures f.close <= b[s.last - |p|]
  {
    hide FindBlock;
    var ls := p + b + q;
    FindBlockMeaning(ls, f, true, 0);
    assert forall i :: 0 <= i < |b| ==> ls[|p| + i] == b[i];
    assert forall i :: 0 <= i < |p| ==> ls[i] == p[i];
  }

  lemma FoundIsPrefix(p: seq<string>, b: seq<string>, q: seq<string>, f: Fence, s: Span)
    requires |b| >= 3 && b[0] == f.open && b[|b| - 1] == f.close && f.open !in p
    requires FindBlock(p + b + q, f, true, 0) == Some(s)
    ensures s.first <= s.last <= |p + b + q|
    ensures Join((p + b + q)[s.first..s.last] + [f.close]) <= Join(b)
  {
    hide FindBlock, Join;
    FirstIsPlaced(p, b, q, f, s);
    InTheMiddle(p, b, q, s.last - |p|);
    PrefixAtClose(b, f.close, s.last - |p|);
  }

  lemma InTheMiddle(p: seq<string>, b: seq<string>, q: seq<string>, m: nat)
    requires m < |b|
    ensures (p + b + q)[|p|..|p| + m] == b[..m]
  {
  }

  lemma PrefixAtClose(ls: seq<string>, close: string, m: nat)
    requires m < |ls| && close <= ls[m]
    ensures Join(ls[..m] + [close]) <= Join(ls)
  {
    hide Unlines;
    assert ls == ls[..m] + ls[m..];
    JoinAcross(ls[..m], ls[m..]);
    JoinAcross(ls[..m], [close]);
    assert close <= Join(ls[m..]);
    var u := Unlines(ls[..m]);
    assert Join(ls)[..|u| + |close|] == u + Join(ls[m..])[..|close|];
  }

  /** Expanding a marker with an active backslash loses the opening line. */
  lemma OpeningLost(f: Fence, content: string, m: Match, back: bool) returns (z: string, rest: string)
    requires Proper(f) && !PlainFence(f) && Hashed(m) && Expand(Block(f, content), m).Plainly?
    requires back ==> '\r' !in Block(f, content)
    ensures Expand(Block(f, content), m).text == z + "\n" + rest
    ensures !(f.open + "\n" <= Seen(z + "\n", back, false))
  {
    ReturnFree(f, content);
    hide Expand, Literal, Seen;
    var line, tail := f.open + "\n", RStrip(content) + "\n" + f.close;
    assert Block(f, content) == line + tail;
    ExpandAcross(line, tail, m);
    z := ExpandLine(f.open, m);
    rest := Expand(tail, m).text;
    ReproducesIffLiteral(line, m, back);
  }

  /** The first line of a text that begins with y and a newline. */
  lemma FirstLine(y: string, rest: string, l: string)
    requires IsLine(l) && !(l + "\n" <= y + "\n")
    ensures Split(y + "\n" + rest)[0] != l
  {
    hide Split;
    SplitAcrossNewline(y, rest);
    var ls := Split(y);
    SplitGivesLines(y);
    JoinOfSplit(y);
    assert |ls| > 1 ==> Join(ls) == ls[0] + "\n" + Join(ls[1..]);
  }

  /** ... so that no rollback of it gives back the original text. */
  lemma FenceExpands(existing: string, f: Fence, content: string, back: bool)
    requires Proper(f) && !PlainFence(f)
    requires back ==> '\r' !in existing && '\r' !in Block(f, content)
    requires WriteBlock(existing, f, content).Written? && WriteBlock(existing, f, content).prior.Some?
    ensures !Literal(Block(f, content))
    ensures var w := WriteBlock(existing, f, content);
            UndoBlock(Seen(w.text, back, false), f, Block(f, content), w.prior) != Undone(GivenBack(existing, f))
  {
    hide UndoBlock, Literal, PlainFence, WriteBlock, Split, Join, Unlines, Expand, FindBlock, Block, Seen, Behind;
    var w := WriteBlock(existing, f, content);
    var p, x, q := ReplacedAround(existing, f, content);
    if Literal(Block(f, content)) { PlainInside(f, content); }
    var y, tail := OpeningLost(f, content, Match(Join(x), Join(x)), back);
    var z, rest := FirstSeen(p, y, tail + Behind(q), back) by { NoneInParts(Unlines(p), Join(x), Behind(q)); }
    assert w.text == Unlines(p) + (y + "\n") + (tail + Behind(q));
    FirstLine(z, rest, f.open);
    Around(p, z + "\n" + rest, []);
    NothingBehind();
    assert Unlines(p) + (z + "\n" + rest) + "" == Unlines(p) + (z + "\n") + rest;
    SplitGivesLines(z + "\n" + rest);
    var t := Unlines(p) + (z + "\n") + rest;
    assert p + Split(z + "\n" + rest) + [] == p + Split(z + "\n" + rest);
    NotGivenBack(existing, t, f, content, w.prior, p, x, q, Split(z + "\n" + rest));
  }

  lemma FirstSeen(p: seq<string>, y: string, tail: string, back: bool) returns (z: string, rest: string)
    requires back ==> '\r' !in Unlines(p)
    ensures Seen(y + "\n", back, false) == z + "\n"
    ensures Seen(Unlines(p) + (y + "\n") + tail, back, false) == Unlines(p) + (z + "\n") + rest
  {
    hide Unlines, ReadFrom;
    z := SeenLine(y, back);
    rest := Seen(tail, back, false);
    SeenAround(Unlines(p), y + "\n", "", back);
    assert Unlines(p) + (y + "\n") + "" == Unlines(p) + (y + "\n");
    assert Unlines(p) + (z + "\n") + "" == Unlines(p) + (z + "\n");
    SeenAcross(Unlines(p) + (y + "\n"), tail, back, false);
  }

  lemma PlainInside(f: Fence, content: string)
    requires Proper(f) && Literal(Block(f, content))
    ensures PlainFence(f)
  {
    var line, rest := f.open + "\n", RStrip(content) + "\n" + f.close;
    assert Block(f, content) == line + rest;
    assert forall i :: 0 <= i < |line| ==> line[i] == (line + rest)[i];
  }

  lemma NotGivenBack(existing: string, t: string, f: Fence, content: string, prior: Option<string>,
                     p: seq<string>, x: seq<string>, q: seq<string>, y: seq<string>)
    requires Proper(f) && AllLines(p) && AllLines(x) && AllLines(y) && f.open !in p && |x| >= 3 && x[0] == f.open
    requires existing == Join(p + x + q) && 0 < |y| && y[0] != f.open && Split(t) == p + y
    ensures UndoBlock(t, f, Block(f, content), prior) != Undone(GivenBack(existing, f))
  {
    hide UndoBlock, Split, Join, Unlines, FindBlock, Block;
    if UndoBlock(t, f, Block(f, content), prior) == Undone(GivenBack(existing, f)) {
      var i, rest := UndoneBehind(t, f, Block(f, content), prior);
      assert p + y + [] == p + y;
      var more := KeepsFirst(p, y, [], f.open, i);
      var other := StartsWith(p, x, q);
      OneFirstLine(Unlines(p), y[0], f.open, more + rest,
                   other + (if GivenBack(existing, f) == existing then "" else "\n"), GivenBack(existing, f));
    }
  }

  /** A rollback keeps the lines before the block it takes out. */
  lemma UndoneBehind(t: string, f: Fence, installed: string, prior: Option<string>) returns (i: nat, rest: string)
    requires UndoBlock(t, f, installed, prior).Undone?
    ensures i < |Split(t)| && Split(t)[i] == f.open
    ensures UndoBlock(t, f, installed, prior).text == Unlines(Split(t)[..i]) + rest
  {
    hide Split, Join, Unlines, FindBlock, Expand, Restored, LinesAfter, Rest;
    var ls := Split(t);
    var s := FindBlock(ls, f, true, 0).value;
    i := s.first;
    var m := Found(installed, ls[s.last] == f.close && s.last + 1 < |ls|);
    rest := Expand(Restored(prior), m).text + Rest(LinesAfter(ls, f, s.last));
    assert UndoBlock(t, f, installed, prior) == UndoSpan(ls, f, s, installed, prior);
  }

  lemma KeepsFirst(p: seq<string>, x: seq<string>, q: seq<string>, open: string, i: nat) returns (more: string)
    requires 0 < |x| && i < |p + x + q| && (p + x + q)[i] == open && open !in p && x[0] != open
    ensures Unlines((p + x + q)[..i]) == Unlines(p) + x[0] + "\n" + more
  {
    hide Unlines;
    var ls := p + x + q;
    assert forall k :: 0 <= k < |p| ==> ls[k] == p[k];
    var tail := ls[|p| + 1..i];
    assert ls[..i] == p + ([x[0]] + tail);
    UnlinesAcross(p, [x[0]] + tail);
    OneUnline(x[0], tail);
    more := Unlines(tail);
    assert Unlines(p) + (x[0] + "\n" + more) == Unlines(p) + x[0] + "\n" + more;
  }

  lemma OneUnline(l: string, ls: seq<string>)
    ensures Unlines([l] + ls) == l + "\n" + Unlines(ls)
  {
    assert ([l] + ls)[1..] == ls;
  }

  lemma StartsWith(p: seq<string>, x: seq<string>, q: seq<string>) returns (rest: string)
    requires |x| > 1
    ensures Join(p + x + q) == Unlines(p) + x[0] + "\n" + rest
  {
    hide Unlines;
    var tail := x[1..] + q;
    assert p + x + q == p + ([x[0]] + tail);
    JoinAcross(p, [x[0]] + tail);
    assert ([x[0]] + tail)[1..] == tail;
    rest := Join(tail);
    assert Unlines(p) + (x[0] + "\n" + rest) == Unlines(p) + x[0] + "\n" + rest;
  }

  lemma OneFirstLine(u: string, a: string, b: string, r: string, s: string, t: string)
    requires IsLine(a) && IsLine(b) && t == u + a + "\n" + r && t == u + b + "\n" + s
    ensures a == b
  {
    assert t[|u|..] == a + "\n" + r && t[|u|..] == b + "\n" + s;
    SplitAcrossNewline(a, r);
    SplitAcrossNewline(b, s);
    SplitOfLine(a);
    SplitOfLine(b);
    assert Split(t[|u|..])[0] == a;
  }

  // ---- writing again after reading back ----

  /** A block that the next run finds in place: no line of its content is its closing line, and it holds no carriage
      return. */
  predicate Lasting(f: Fence, content: string) {
    Unbroken(f, content) && '\r' !in Block(f, content)
  }

  /** A block that was written is found in place by the next run, which reads it back, if and only if no line of its
      content is its closing line and it holds no carriage return. */
  lemma ReadBackIsIdempotent(existing: string, f: Fence, content: string)
    requires Guarded(existing, f, content) && WriteBlock(existing, f, content).Written? && '\r' !in existing
    ensures WriteBlock(Translate(WriteBlock(existing, f, content).text), f, content) == Unchanged
       <==> Lasting(f, content)
  {
    hide Guarded, WriteBlock, Block, Unbroken, Translate, Literal;
    var t := WriteBlock(existing, f, content).text;
    GuardedIsProper(existing, f, content);
    if '\r' in Block(f, content) {
      TranslateHasNone(t);
      CarriageRewrites(Translate(t), f, content);
    } else {
      GuardedIsSeen(existing, f, content);
      WriteIsIdempotent(existing, f, content);
    }
  }

  lemma GuardedIsSeen(existing: string, f: Fence, content: string)
    requires Guarded(existing, f, content) && WriteBlock(existing, f, content).Written?
    requires '\r' !in existing && '\r' !in Block(f, content)
    ensures Translate(WriteBlock(existing, f, content).text) == WriteBlock(existing, f, content).text
    ensures '\r' !in WriteBlock(existing, f, content).text
  {
    PriorFound(existing, f, content);
    hide WriteBlock, Block, Translate, Fresh, Literal, FindBlock, Split;
    var w := WriteBlock(existing, f, content);
    if w.prior.Some? {
      SeenHasNone(w.text);
      LiteralIsSeen(existing, f, content, true);
    } else {
      FreshIsWritten(existing, f, content);
      FreshKeeps(existing, f, content);
      TranslateKeeps(w.text);
    }
  }

  lemma FreshIsWritten(existing: string, f: Fence, content: string)
    requires WriteBlock(existing, f, content).Written? && WriteBlock(existing, f, content).prior.None?
    ensures WriteBlock(existing, f, content).text == Fresh(existing, f, content)
  {
    hide Fresh, Block, Split, Join, Expand;
  }
}
