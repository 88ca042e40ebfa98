/** The character-level meaning of the block patterns: the line search finds exactly the leftmost, laziest match. */
module BlockRegex {
  import opened Text
  import opened ManagedBlock

  predicate At(t: string, i: nat, s: string) {
    i + |s| <= |t| && t[i..i + |s|] == s
  }

  predicate LineStart(t: string, i: nat) {
    i <= |t| && (i == 0 || t[i - 1] == '\n')
  }

  /** The characters a..b form a match of: line start, opening line, newline, anything, newline, closing text;
      the strict pattern also asks for the end of a line. */
  predicate Match(t: string, f: Fence, loose: bool, a: nat, b: nat) {
    LineStart(t, a) && At(t, a, f.open + "\n") &&
    a + |f.open| + 2 + |f.close| <= b <= |t| && At(t, b - |f.close| - 1, "\n" + f.close) &&
    (loose || b == |t| || t[b] == '\n')
  }

  /** The match a regular expression engine reports: the leftmost one, ending as early as possible. */
  ghost predicate Reported(t: string, f: Fence, loose: bool, a: nat, b: nat) {
    Match(t, f, loose, a, b) &&
    (forall c: nat :: c < b ==> !Match(t, f, loose, a, c)) &&
    (forall x: nat, c: nat :: x < a ==> !Match(t, f, loose, x, c))
  }

  /** Where line i starts. */
  function Offset(ls: seq<string>, i: nat): nat
    requires i <= |ls|
  {
    |Unlines(ls[..i])|
  }

  lemma OffsetNext(ls: seq<string>, i: nat)
    requires i < |ls|
    ensures Offset(ls, i + 1) == Offset(ls, i) + |ls[i]| + 1
  {
    assert ls[..i + 1] == ls[..i] + [ls[i]];
    UnlinesAcross(ls[..i], [ls[i]]);
  }

  lemma {:induction false} OffsetGrows(ls: seq<string>, i: nat, j: nat)
    requires i < j <= |ls|
    ensures Offset(ls, i) + |ls[i]| + 1 <= Offset(ls, j)
    decreases j - i
  {
    OffsetNext(ls, i);
    if i + 1 < j {
      OffsetGrows(ls, i + 1, j);
    }
  }

  lemma AtOffset(t: string, ls: seq<string>, i: nat)
    requires ls == Split(t) && i < |ls|
    ensures Offset(ls, i) <= |t| && t[Offset(ls, i)..] == Join(ls[i..])
    ensures LineStart(t, Offset(ls, i))
  {
    hide Split, Join;
    JoinOfSplit(t);
    assert ls == ls[..i] + ls[i..];
    JoinAcross(ls[..i], ls[i..]);
    var u := Unlines(ls[..i]);
    assert t == u + Join(ls[i..]);
    if i > 0 {
      JoinThenNewline(ls[..i]);
      assert t[|u| - 1] == u[|u| - 1] == '\n';
    }
  }

  lemma {:induction false} StartsALine(t: string, a: nat) returns (i: nat)
    requires LineStart(t, a)
    ensures i < |Split(t)| && Offset(Split(t), i) == a
    decreases a
  {
    if a == 0 {
      i := 0;
    } else {
      var u, v := t[..a - 1], t[a..];
      assert t == u + "\n" + v;
      SplitAcrossNewline(u, v);
      i := |Split(u)|;
      assert Split(t)[..i] == Split(u);
      UnlinesIsJoin(Split(u));
      JoinOfSplit(u);
    }
  }

  lemma FirstLinePrefix(ls: seq<string>, s: string)
    requires 0 < |ls| && AllLines(ls) && IsLine(s)
    ensures s <= Join(ls) <==> s <= ls[0]
    ensures s + "\n" <= Join(ls) <==> s == ls[0] && |ls| > 1
    ensures s <= Join(ls) ==> (s == ls[0] <==> |s| == |Join(ls)| || Join(ls)[|s|] == '\n')
  {
    var t := Join(ls);
    assert ls[0] <= t;
    if |ls| > 1 {
      assert t == ls[0] + "\n" + Join(ls[1..]);
      assert t[|ls[0]|] == '\n';
    } else {
      assert t == ls[0];
    }
    assert forall x :: 0 <= x < |ls[0]| ==> t[x] == ls[0][x] && t[x] != '\n';
    if s <= t {
      assert forall x :: 0 <= x < |s| ==> s[x] == t[x] && s[x] != '\n';
      assert |s| <= |ls[0]|;
    }
    if s + "\n" <= t {
      assert t[|s|] == (s + "\n")[|s|];
      assert s <= t;
    }
  }

  lemma AtIsPrefix(t: string, i: nat, s: string)
    requires i <= |t|
    ensures At(t, i, s) <==> s <= t[i..]
  {
  }

  lemma OpensHere(t: string, ls: seq<string>, f: Fence, i: nat)
    requires Proper(f) && ls == Split(t) && i < |ls|
    ensures At(t, Offset(ls, i), f.open + "\n") <==> ls[i] == f.open && i + 1 < |ls|
  {
    hide Split, Join, Offset;
    SplitGivesLines(t);
    AtOffset(t, ls, i);
    AtIsPrefix(t, Offset(ls, i), f.open + "\n");
    FirstLinePrefix(ls[i..], f.open);
  }

  lemma ClosesHere(t: string, ls: seq<string>, f: Fence, loose: bool, j: nat)
    requires Proper(f) && ls == Split(t) && j < |ls|
    ensures var b := Offset(ls, j) + |f.close|;
            Closes(ls[j], f, loose) <==>
            At(t, Offset(ls, j), f.close) && (loose || b == |t| || (b < |t| && t[b] == '\n'))
  {
    hide Split, Join, Offset;
    SplitGivesLines(t);
    AtOffset(t, ls, j);
    var o := Offset(ls, j);
    AtIsPrefix(t, o, f.close);
    FirstLinePrefix(ls[j..], f.close);
    assert forall x :: 0 <= x < |t| - o ==> t[o..][x] == t[o + x];
  }

  /** Matches are the pairs of an opening line and a closing line at least two further on. */
  lemma MatchOfLines(t: string, ls: seq<string>, f: Fence, loose: bool, i: nat, j: nat)
    requires Proper(f) && ls == Split(t) && i < |ls| && j < |ls|
    ensures Match(t, f, loose, Offset(ls, i), Offset(ls, j) + |f.close|)
       <==> i + 2 <= j && ls[i] == f.open && Closes(ls[j], f, loose)
  {
    hide Split, Join, Offset, Closes;
    AtOffset(t, ls, i);
    AtOffset(t, ls, j);
    OpensHere(t, ls, f, i);
    ClosesHere(t, ls, f, loose, j);
    var a, o := Offset(ls, i), Offset(ls, j);
    assert Offset(ls, 0) == 0 by { ZeroOffset(ls); }
    if j > 0 { OffsetGrows(ls, 0, j); }
    if i < j { OffsetGrows(ls, i, j); }
    if j < i { OffsetGrows(ls, j, i); }
    if ls[i] == f.open && i + 1 < |ls| {
      OffsetNext(ls, i);
      if i + 1 < j { OffsetGrows(ls, i + 1, j); }
    }
    if o >= 1 {
      AtAfterNewline(t, o - 1, f.close);
      assert t[o - 1] == '\n';
    }
  }

  lemma ZeroOffset(ls: seq<string>)
    ensures Offset(ls, 0) == 0
  {
  }

  lemma AtAfterNewline(t: string, c: nat, s: string)
    requires c < |t|
    ensures At(t, c, "\n" + s) <==> t[c] == '\n' && At(t, c + 1, s)
  {
    if At(t, c, "\n" + s) {
      assert t[c..c + 1 + |s|][1..] == s;
      assert t[c] == ("\n" + s)[0];
    }
    if t[c] == '\n' && At(t, c + 1, s) {
      assert t[c..c + 1 + |s|] == [t[c]] + t[c + 1..c + 1 + |s|];
    }
  }

  /** Every match begins and ends at lines. */
  lemma LinesOfMatch(t: string, f: Fence, loose: bool, a: nat, b: nat) returns (i: nat, j: nat)
    requires Match(t, f, loose, a, b)
    ensures i < |Split(t)| && j < |Split(t)|
    ensures a == Offset(Split(t), i) && b == Offset(Split(t), j) + |f.close|
  {
    hide Split, Offset;
    var c := b - |f.close| - 1;
    AtAfterNewline(t, c, f.close);
    i := StartsALine(t, a);
    j := StartsALine(t, c + 1);
  }

  /** The line search reports the match of the regular expression, and nothing exactly when there is no match. */
  lemma SearchIsRegex(t: string, f: Fence, loose: bool)
    requires Proper(f)
    ensures match FindBlock(Split(t), f, loose, 0)
            case Some(s) => Reported(t, f, loose, Offset(Split(t), s.first), Offset(Split(t), s.last) + |f.close|)
            case None => forall a: nat, b: nat :: !Match(t, f, loose, a, b)
  {
    hide Split, Offset, Match, Closes;
    var ls := Split(t);
    FindBlockMeaning(ls, f, loose, 0);
    match FindBlock(ls, f, loose, 0)
    case Some(s) =>
      var a, b := Offset(ls, s.first), Offset(ls, s.last) + |f.close|;
      MatchOfLines(t, ls, f, loose, s.first, s.last);
      forall c: nat | Match(t, f, loose, a, c)
        ensures b <= c
      {
        var i, j := LinesOfMatch(t, f, loose, a, c);
        MatchOfLines(t, ls, f, loose, i, j);
        SameOffset(ls, i, s.first);
        assert s.last <= j;
        if s.last < j { OffsetGrows(ls, s.last, j); }
      }
      forall x: nat, c: nat | Match(t, f, loose, x, c)
        ensures a <= x
      {
        var i, j := LinesOfMatch(t, f, loose, x, c);
        MatchOfLines(t, ls, f, loose, i, j);
        assert s.first <= i;
        if s.first < i { OffsetGrows(ls, s.first, i); }
      }
    case None =>
      forall a: nat, b: nat
        ensures !Match(t, f, loose, a, b)
      {
        if Match(t, f, loose, a, b) {
          var i, j := LinesOfMatch(t, f, loose, a, b);
          MatchOfLines(t, ls, f, loose, i, j);
        }
      }
  }

  lemma SameOffset(ls: seq<string>, i: nat, j: nat)
    requires i < |ls| && j < |ls| && Offset(ls, i) == Offset(ls, j)
    ensures i == j
  {
    hide Offset;
    if i < j { OffsetGrows(ls, i, j); }
    if j < i { OffsetGrows(ls, j, i); }
  }
}
