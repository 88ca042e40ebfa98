/** Several owners' blocks in one file: undoing one of them leaves the others where they can be found as before. */
module BlockSites {
  import opened Text
  import opened ManagedBlock
  import opened BlockLaws
  import opened Templates

  /** What a receipt says of one owner's block. */
  datatype Owner = Owner(fence: Fence, installed: string, prior: Option<string>)

  function PriorLines(o: Owner): seq<string> {
    if o.prior.Some? then Split(o.prior.value) else []
  }

  function Where(ls: seq<string>, o: Owner): Option<Span> {
    FindBlock(ls, o.fence, true, 0)
  }

  function Undo(text: string, o: Owner): BlockUndo {
    UndoBlock(text, o.fence, o.installed, o.prior)
  }

  predicate Once(ls: seq<string>, l: string) {
    forall a, b :: 0 <= a < b < |ls| ==> !(ls[a] == l && ls[b] == l)
  }

  /** The prior block is another one, as it was read and taken literally, that closes at its end. */
  predicate PriorWhole(o: Owner) {
    o.prior.Some? ==>
      Literal(o.prior.value + "\n") && '\r' !in o.prior.value && o.prior.value != o.installed &&
      var ls := Split(o.prior.value);
      |ls| >= 3 && ls[0] == o.fence.open && ls[|ls| - 1] == o.fence.close && Once(ls, o.fence.open) &&
      forall k :: 2 <= k < |ls| - 1 ==> !(o.fence.close <= ls[k])
  }

  /** The opening line occurs once at most, and a block that is found ends with the whole closing line. */
  predicate Site(ls: seq<string>, o: Owner) {
    Proper(o.fence) && Once(ls, o.fence.open) && PriorWhole(o) &&
    (Where(ls, o).Some? ==> Where(ls, o).value.last < |ls| && ls[Where(ls, o).value.last] == o.fence.close)
  }

  /** Neither block lies inside the other. */
  predicate Unnested(ls: seq<string>, a: Owner, b: Owner) {
    Where(ls, a).Some? && Where(ls, b).Some? ==>
      Where(ls, a).value.last < Where(ls, b).value.first || Where(ls, b).value.last < Where(ls, a).value.first
  }

  predicate Strange(a: Owner, b: Owner) {
    Foreign(Split(a.installed), b.fence) && Foreign(PriorLines(a), b.fence)
  }

  /** What two owners install or put back holds no marker line of the other. */
  predicate Strangers(a: Owner, b: Owner) {
    Strange(a, b) && Strange(b, a)
  }

  /** The lines of a file around a block that is undone. */
  lemma UndoneAt(text: string, o: Owner) returns (p: seq<string>, q: seq<string>)
    requires Site(Split(text), o) && Undo(text, o).Undone?
    ensures var x := Split(o.installed);
            Split(text) == p + x + q && |x| > 2 && x[0] == o.fence.open && o.fence.open !in p && o.fence.open !in q &&
            Where(Split(text), o) == Some(Span(|p|, |p| + |x| - 1)) && AllLines(p) && AllLines(q)
    ensures Split(Undo(text, o).text) == p + PriorLines(o) + (if q == [] then [""] else q)
  {
    hide Split, Join, FindBlock, Literal, Expand, UndoneWith;
    var ls, f := Split(text), o.fence;
    SplitGivesLines(text);
    FindBlockMeaning(ls, f, true, 0);
    var s := FindBlock(ls, f, true, 0).value;
    p, q := ls[..s.first], ls[s.last + 1..];
    var x := ls[s.first..s.last + 1];
    assert x == ls[s.first..s.last] + [f.close];
    SplitOfJoin(x);
    assert o.installed == Join(x);
    assert ls == p + x + q;
    NotAround(p, x, q, f.open);
    assert LinesAfter(ls, f, s.last) == q by { assert ls[s.last][|f.close|..] == ""; assert [] + q == q; }
    var m := Found(o.installed, s.last + 1 < |ls|);
    assert Undo(text, o) == UndoneWith(p, Restored(o.prior), m, q);
    if o.prior.Some? { SplitGivesLines(o.prior.value); JoinOfSplit(o.prior.value); }
    PutBack(p, PriorLines(o), m, q);
  }

  lemma NotAround(p: seq<string>, x: seq<string>, q: seq<string>, l: string)
    requires Once(p + x + q, l) && x != [] && x[0] == l
    ensures l !in p && l !in q
  {
    var ls := p + x + q;
    assert ls[|p|] == l;
    forall i | 0 <= i < |p| ensures p[i] != l { assert ls[i] == p[i]; }
    forall i | 0 <= i < |q| ensures q[i] != l { assert ls[|p| + |x| + i] == q[i]; }
  }

  /** A block that was undone is refused the second time, with or without a prior block, and keeps its site. */
  lemma UndoOnce(text: string, o: Owner)
    requires Site(Split(text), o) && Undo(text, o).Undone?
    ensures Undo(Undo(text, o).text, o) == Refused && Site(Split(Undo(text, o).text), o)
  {
    hide Split, Join, FindBlock, Literal, Undo, UndoBlock, LinesAfter;
    var t, f := Undo(text, o).text, o.fence;
    var p, q := UndoneAt(text, o);
    var r := if q == [] then [""] else q;
    var y := PriorLines(o);
    AroundOnce(p, y, r, f.open);
    if o.prior.None? {
      assert p + y + r == p + r;
      NothingOpens(t, o, p + r);
    } else {
      PriorIsFound(p, o, r);
      OtherInstalled(t, o, p, r);
    }
  }

  lemma AroundOnce(p: seq<string>, y: seq<string>, r: seq<string>, l: string)
    requires l !in p && l !in r && Once(y, l)
    ensures Once(p + y + r, l)
  {
    var ls := p + y + r;
    assert forall i :: 0 <= i < |ls| && ls[i] == l ==> |p| <= i < |p| + |y| && y[i - |p|] == l;
  }

  lemma NothingOpens(t: string, o: Owner, ls: seq<string>)
    requires Proper(o.fence) && Split(t) == ls && o.fence.open !in ls
    ensures Where(ls, o) == None && Undo(t, o) == Refused
  {
    hide Split;
    FindBlockMeaning(ls, o.fence, true, 0);
    assert forall i :: 0 <= i < |ls| ==> ls[i] in ls;
  }

  lemma PriorIsFound(p: seq<string>, o: Owner, r: seq<string>)
    requires Proper(o.fence) && PriorWhole(o) && o.prior.Some? && o.fence.open !in p
    ensures Where(p + PriorLines(o) + r, o) == Some(Span(|p|, |p| + |PriorLines(o)| - 1))
  {
    hide Split, Join, FindBlock, Literal;
    var y := PriorLines(o);
    var body := y[1..|y| - 1];
    assert y == [o.fence.open] + body + [o.fence.close];
    FindsPlaced(p, body, r, o.fence, true);
  }

  lemma OtherInstalled(t: string, o: Owner, p: seq<string>, r: seq<string>)
    requires Proper(o.fence) && PriorWhole(o) && o.prior.Some? && Split(t) == p + PriorLines(o) + r
    requires Where(Split(t), o) == Some(Span(|p|, |p| + |PriorLines(o)| - 1))
    ensures Undo(t, o) == Refused
  {
    hide Split, Join, FindBlock, Literal;
    var y, ls := PriorLines(o), Split(t);
    assert ls[|p|..|p| + |y| - 1] + [o.fence.close] == y;
    JoinOfSplit(o.prior.value);
  }

  /** Where another owner's block lies after this one was undone. */
  lemma MovedWhere(text: string, o: Owner, a: Owner) returns (p: seq<string>, q: seq<string>)
    requires Site(Split(text), o) && Undo(text, o).Undone? && Site(Split(text), a)
    requires Unnested(Split(text), o, a) && Strangers(o, a)
    ensures var x, y := Split(o.installed), PriorLines(o);
            Split(text) == p + x + q && Split(Undo(text, o).text) == p + y + (if q == [] then [""] else q) && |x| > 2 &&
            Where(Split(text), o) == Some(Span(|p|, |p| + |x| - 1)) && o.fence.open !in p && o.fence.open !in q &&
            match Where(Split(text), a)
            case None => Where(Split(Undo(text, o).text), a) == None
            case Some(s) =>
              s.first <= s.last && (s.last < |p| || |p| + |x| <= s.first) &&
              Where(Split(Undo(text, o).text), a) == Some(Moved(s, p, x, y)) &&
              s.last < |p + x + q| && Outside(Moved(s, p, x, y), p, y, q) &&
              (p + y + q)[Moved(s, p, x, y).first..Moved(s, p, x, y).last + 1] == (p + x + q)[s.first..s.last + 1]
  {
    hide Split, Join, FindBlock, Undo, Foreign, Site, Moved, Outside;
    p, q := UndoneAt(text, o);
    var x, y := Split(o.installed), PriorLines(o);
    SiteProper(Split(text), a);
    EmptyLineAfter(p + y, q, a.fence);
    ExchangedWhere(p, x, y, q, a);
  }

  /** Exchanging lines foreign to an owner, around which its block does not lie. */
  lemma ExchangedWhere(p: seq<string>, x: seq<string>, y: seq<string>, q: seq<string>, a: Owner)
    requires 1 < |x| && Foreign(x, a.fence) && Foreign(y, a.fence)
    requires match Where(p + x + q, a)
             case None => true
             case Some(s) => s.last < |p| || |p| + |x| - 1 < s.first
    ensures match Where(p + x + q, a)
            case None => Where(p + y + q, a) == None
            case Some(s) =>
              s.first <= s.last < |p + x + q| && (s.last < |p| || |p| + |x| <= s.first) &&
              Where(p + y + q, a) == Some(Moved(s, p, x, y)) && Outside(Moved(s, p, x, y), p, y, q) &&
              (p + y + q)[Moved(s, p, x, y).first..Moved(s, p, x, y).last + 1] == (p + x + q)[s.first..s.last + 1]
  {
    hide FindBlock, Foreign, Moved, Outside;
    FindBlockMeaning(p + x + q, a.fence, true, 0);
    MovedOutside(p, x, y, q);
    match Where(p + x + q, a)
    case None => NoOtherBlock(p, x, y, q, a.fence, true, 0, 0);
    case Some(s) => OtherBlockStays(p, x, y, q, a.fence, true, s);
  }

  predicate Outside(m: Span, p: seq<string>, y: seq<string>, q: seq<string>) {
    m.first <= m.last < |p + y + q| && (m.last < |p| || |p| + |y| <= m.first)
  }

  lemma MovedOutside(p: seq<string>, x: seq<string>, y: seq<string>, q: seq<string>)
    ensures forall s: Span :: s.first <= s.last < |p + x + q| && (s.last < |p| || |p| + |x| <= s.first) ==>
              Outside(Moved(s, p, x, y), p, y, q)
  {
  }

  lemma SiteProper(ls: seq<string>, a: Owner)
    requires Site(ls, a)
    ensures Proper(a.fence)
  {
  }

  lemma EmptyLineAfter(ls: seq<string>, q: seq<string>, g: Fence)
    requires Proper(g)
    ensures FindBlock(ls + (if q == [] then [""] else q), g, true, 0) == FindBlock(ls + q, g, true, 0)
  {
    if q == [] { EmptyLineLast(ls, g); }
  }

  /** Undoing one owner's block keeps the site of another's, and whether it is refused. */
  lemma OtherSiteStays(text: string, o: Owner, a: Owner)
    requires Site(Split(text), o) && Undo(text, o).Undone? && Site(Split(text), a)
    requires Unnested(Split(text), o, a) && Strangers(o, a)
    ensures Site(Split(Undo(text, o).text), a) && Unnested(Split(Undo(text, o).text), o, a)
    ensures Undo(text, a) == Refused ==> Undo(Undo(text, o).text, a) == Refused
  {
    hide Split, Join, FindBlock, Undo, Foreign, UndoBlock, PriorWhole, Moved, Once, Outside;
    var t := Undo(text, o).text;
    var p, q := MovedWhere(text, o, a);
    var x, y, r := Split(o.installed), PriorLines(o), if q == [] then [""] else q;
    OnceStays(p, x, y, q, r, a.fence);
    UndoOnce(text, o);
    OwnPlace(p, o, r);
    if Where(Split(text), a).Some? {
      FoundStays(text, t, a, p, x, y, q, r, Where(Split(text), a).value, Moved(Where(Split(text), a).value, p, x, y));
    } else {
      NowhereRefuses(t, a);
    }
  }

  lemma FoundStays(text: string, t: string, a: Owner, p: seq<string>, x: seq<string>, y: seq<string>, q: seq<string>,
                   r: seq<string>, s: Span, m: Span)
    requires Split(text) == p + x + q && Split(t) == p + y + r && q <= r
    requires Where(Split(text), a) == Some(s) && Where(Split(t), a) == Some(m) && Outside(m, p, y, q)
    requires s.first <= s.last < |p + x + q| && (p + x + q)[s.last] == a.fence.close
    requires (p + y + q)[m.first..m.last + 1] == (p + x + q)[s.first..s.last + 1]
    ensures m.last < |Split(t)| && Split(t)[m.last] == a.fence.close && (m.last < |p| || |p| + |y| <= m.first <= m.last)
    ensures Undo(text, a) == Refused ==> Undo(t, a) == Refused
  {
    hide Split, FindBlock, Undo;
    assert (p + y + r)[..|p + y + q|] == p + y + q;
    SameLast(p + x + q, p + y + r, s, m, p + y + q);
    if Undo(text, a) == Refused { SameRefusal(text, t, a, s, m); }
  }

  lemma NowhereRefuses(t: string, a: Owner)
    requires Where(Split(t), a) == None
    ensures Undo(t, a) == Refused
  {
    hide Split, FindBlock;
  }

  /** After the undo the owner's own block is gone or is the prior one, in its place. */
  lemma OwnPlace(p: seq<string>, o: Owner, r: seq<string>)
    requires Proper(o.fence) && PriorWhole(o) && o.fence.open !in p && o.fence.open !in r
    ensures var y := PriorLines(o);
            Where(p + y + r, o) == if y == [] then None else Some(Span(|p|, |p| + |y| - 1))
  {
    hide FindBlock;
    if o.prior.Some? {
      PriorIsFound(p, o, r);
    } else {
      var ls := p + [] + r;
      FindBlockMeaning(ls, o.fence, true, 0);
      assert forall i :: 0 <= i < |ls| ==> ls[i] in ls;
    }
  }

  lemma OnceStays(p: seq<string>, x: seq<string>, y: seq<string>, q: seq<string>, r: seq<string>, g: Fence)
    requires Foreign(x, g) && Foreign(y, g) && Proper(g) && Once(p + x + q, g.open)
    requires r == if q == [] then [""] else q
    ensures Once(p + y + r, g.open)
  {
    var was, now := p + x + q, p + y + r;
    assert forall i :: 0 <= i < |now| && now[i] == g.open ==>
      if i < |p| then was[i] == g.open
      else |p| + |y| <= i && i - |y| + |x| < |was| && was[i - |y| + |x|] == g.open;
    forall a, b | 0 <= a < b < |now| ensures !(now[a] == g.open && now[b] == g.open) {
      var a0 := if a < |p| then a else a - |y| + |x|;
      var b0 := if b < |p| then b else b - |y| + |x|;
      if 0 <= a0 < b0 < |was| { assert !(was[a0] == g.open && was[b0] == g.open); }
    }
  }

  lemma SameLast(was: seq<string>, now: seq<string>, s: Span, m: Span, shorter: seq<string>)
    requires shorter <= now && s.first <= s.last < |was| && m.first <= m.last < |shorter|
    requires shorter[m.first..m.last + 1] == was[s.first..s.last + 1]
    ensures now[m.first..m.last + 1] == was[s.first..s.last + 1] && now[m.last] == was[s.last]
    ensures now[m.first..m.last] == was[s.first..s.last]
  {
    assert now[m.first..m.last + 1] == shorter[m.first..m.last + 1];
    var d := m.last - m.first;
    assert now[m.last] == now[m.first..m.last + 1][d] && was[s.last] == was[s.first..s.last + 1][d];
    assert now[m.first..m.last] == now[m.first..m.last + 1][..d] &&
           was[s.first..s.last] == was[s.first..s.last + 1][..d];
  }

  lemma SameRefusal(text: string, t: string, a: Owner, s: Span, m: Span)
    requires Where(Split(text), a) == Some(s) && Where(Split(t), a) == Some(m)
    requires s.first <= s.last < |Split(text)| && m.first <= m.last < |Split(t)|
    requires Split(t)[m.first..m.last] == Split(text)[s.first..s.last]
    requires Undo(text, a) == Refused
    ensures Undo(t, a) == Refused
  {
    hide Split, Join, FindBlock, UndoneWith;
    var ls := Split(text);
    NeverRefused(ls[..s.first], Restored(a.prior), Found(a.installed, ls[s.last] == a.fence.close && s.last + 1 < |ls|),
                 LinesAfter(ls, a.fence, s.last));
  }

  lemma NeverRefused(p: seq<string>, template: string, m: Match, q: seq<string>)
    ensures UndoneWith(p, template, m, q) != Refused
  {
  }

  /** What is left of a text that was read holds no carriage return either, and so is read back as it stands. */
  lemma UndoneIsRead(text: string, o: Owner)
    requires Site(Split(text), o) && Undo(text, o).Undone? && '\r' !in text
    ensures Translate(Undo(text, o).text) == Undo(text, o).text
  {
    hide Split, Join, Undo, Literal, Translate, Where;
    var p, q := UndoneAt(text, o);
    var r := if q == [] then [""] else q;
    JoinOfSplit(text);
    JoinOfSplit(Undo(text, o).text);
    LinesWithout(p + Split(o.installed) + q);
    if o.prior.Some? {
      JoinOfSplit(o.prior.value);
      LinesWithout(PriorLines(o));
    }
    LinesWithout(p + PriorLines(o) + r);
    OnlyThese(p, Split(o.installed), q, PriorLines(o), r);
    TranslateKeeps(Undo(text, o).text);
  }

  lemma OnlyThese(p: seq<string>, x: seq<string>, q: seq<string>, y: seq<string>, r: seq<string>)
    requires r == if q == [] then [""] else q
    requires (forall l :: l in p + x + q ==> '\r' !in l) && (forall l :: l in y ==> '\r' !in l)
    ensures forall l :: l in p + y + r ==> '\r' !in l
  {
    forall l | l in p + y + r ensures '\r' !in l {
      if l in p || l in q { assert l in p + x + q; }
    }
  }

  lemma {:induction false} LinesWithout(ls: seq<string>)
    requires 0 < |ls|
    ensures '\r' !in Join(ls) <==> forall l :: l in ls ==> '\r' !in l
  {
    if |ls| > 1 {
      LinesWithout(ls[1..]);
      var a, b := ls[0], Join(ls[1..]);
      assert forall c :: c in a + "\n" + b <==> c in a || c in "\n" || c in b;
      assert forall l :: l in ls <==> l == ls[0] || l in ls[1..];
    }
  }

  /** ... and two other owners' blocks stay apart. */
  lemma OthersStayApart(text: string, o: Owner, a: Owner, b: Owner)
    requires Site(Split(text), o) && Undo(text, o).Undone? && Site(Split(text), a) && Site(Split(text), b)
    requires Unnested(Split(text), o, a) && Strangers(o, a) && Unnested(Split(text), o, b) && Strangers(o, b)
    requires Unnested(Split(text), a, b)
    ensures Unnested(Split(Undo(text, o).text), a, b)
  {
    hide Split, Join, FindBlock, Undo, Foreign, Site;
    var p, q := MovedWhere(text, o, a);
    var p', q' := MovedWhere(text, o, b);
    assert |p| == |p'|;
  }
}
