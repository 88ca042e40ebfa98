/** What every compensation comes to: when it is done, what it takes away, and when it raises an error. */
module Compensations {
  import opened Text
  import opened JsonMerge
  import opened World
  import opened Runtime
  import opened Outcomes
  import MB = ManagedBlock
  import TP = Templates
  import S = Soundness

  // ---- taking out a block ----

  /** The first block of this owner, closed by the beginning of a line, has the installed lines. */
  ghost predicate Matches(ls: seq<string>, f: MB.Fence, installed: string, s: MB.Span) {
    MB.FirstBlock(ls, f, true, 0, s) && s.first <= s.last < |ls| && f.close <= ls[s.last] &&
    Join(ls[s.first..s.last] + [f.close]) == installed
  }

  /** What is put in its place: the prior block as a template for the matched text, which takes the newline behind the
      closing line with it. */
  function PutBack(ls: seq<string>, s: MB.Span, f: MB.Fence, c: BlockChange): TP.Expansion
    requires s.last < |ls|
  {
    TP.Expand(if c.prior.Some? then c.prior.value + "\n" else "",
              TP.Match(if ls[s.last] == f.close && s.last + 1 < |ls| then c.installed + "\n"
                       else c.installed, c.installed))
  }

  /** The lines before the block, what is put in its place, and what is behind it. */
  function Remaining(ls: seq<string>, s: MB.Span, f: MB.Fence, inserted: string): string
    requires s.first <= s.last < |ls| && f.close <= ls[s.last]
  {
    Unlines(ls[..s.first]) + inserted + MB.Rest(MB.LinesAfter(ls, f, s.last))
  }

  ghost predicate BlockGone(t: string, f: MB.Fence, c: BlockChange, now: string) {
    exists s :: Matches(Split(t), f, c.installed, s) && PutBack(Split(t), s, f, c).Plainly? &&
                now == Remaining(Split(t), s, f, PutBack(Split(t), s, f, c).text)
  }

  ghost predicate BadPrior(t: string, f: MB.Fence, c: BlockChange) {
    exists s :: Matches(Split(t), f, c.installed, s) && PutBack(Split(t), s, f, c).BadTemplate?
  }

  lemma OnlyMatch(ls: seq<string>, f: MB.Fence)
    ensures forall s :: MB.FirstBlock(ls, f, true, 0, s) <==> MB.FindBlock(ls, f, true, 0) == Some(s)
  {
    hide MB.FindBlock;
    MB.FindBlockMeaning(ls, f, true, 0);
    forall s | MB.FirstBlock(ls, f, true, 0, s) ensures MB.FindBlock(ls, f, true, 0) == Some(s) {
      MB.FindsFirst(ls, f, true, 0, s);
    }
  }

  /** A rollback of a block is refused if and only if the first block of the owner, if any, has other lines; otherwise
      it leaves what is around the block, with the prior one in its place, or fails. */
  lemma UndoMeans(t: string, f: MB.Fence, c: BlockChange)
    ensures var u := MB.UndoBlock(t, f, c.installed, c.prior);
            (u == MB.Refused <==> !exists s :: Matches(Split(t), f, c.installed, s)) &&
            (u == MB.UndoFails <==> BadPrior(t, f, c)) &&
            forall now :: u == MB.Undone(now) <==> BlockGone(t, f, c, now)
  {
    hide MB.FindBlock, MB.FirstBlock, Join, Split, Unlines, TP.Expand, MB.LinesAfter, MB.Rest;
    var ls := Split(t);
    OnlyMatch(ls, f);
    var r := MB.FindBlock(ls, f, true, 0);
    if r.Some? {
      var s := r.value;
      assert Matches(ls, f, c.installed, s) <==> Join(ls[s.first..s.last] + [f.close]) == c.installed;
      assert MB.UndoBlock(t, f, c.installed, c.prior) == MB.UndoSpan(ls, f, s, c.installed, c.prior);
      assert c.installed + "" == c.installed;
      assert PutBack(ls, s, f, c) ==
        TP.Expand(MB.Restored(c.prior), MB.Found(c.installed, ls[s.last] == f.close && s.last + 1 < |ls|));
    }
  }

  // ---- when a compensation is done ----

  /** The file goes: nothing is left in it, and the step had made it. */
  predicate Goes(empty: bool, fileExisted: bool) {
    empty && !fileExisted
  }

  /** Nothing lies under the directory. */
  predicate Childless(fs: Files, p: Path) {
    forall q :: q in fs && |p| < |q| ==> q[..|p|] != p
  }

  /** What the world and the answers must be for a receipt to be compensated. */
  ghost predicate Undoes(w: World, r: Receipt, a: Answers, codec: Codec) {
    match r
    case KeychainReceipt(item, created, replaced) => !replaced && (created ==> item in w.keychain && a.deleteOk)
    case BlockReceipt(p, marker, Some(c)) =>
      a.readable && a.writable && p in w.files && w.files[p].File? &&
      exists now :: BlockGone(TextOf(w.files[p]), MB.FenceOf(marker), c, now) &&
                    (Goes(now == "", c.fileExisted) || HasRoom(w.files, p))
    case MergeReceipt(p, Some(c)) =>
      !c.replaced && a.readable && a.writable && c.keys != [] && !(c.frozen && HasList(c.installed)) &&
      p in w.files && w.files[p].File? &&
      exists o, root :: codec.parse(TextOf(w.files[p])) == Some(Object(o)) &&
                        UnmergeAt(o, c.keys, c.installed) == Some(root) &&
                        (Goes(root == map[], c.fileExisted) || HasRoom(w.files, p))
    case DirectoryReceipt(p, true) => a.writable && p in w.files && w.files[p] == Dir && Childless(w.files, p)
    case PullReceipt(_, preexisting) => preexisting
    case BuildReceipt(tag, _, preexisting) => preexisting || (tag in w.images && a.removeOk)
    case CustomReceipt(_, reversible) => reversible && a.customUndone == Good
    case _ => true
  }

  /** What is left: the world without what the receipt records, and everything else as it was. */
  ghost predicate Leaves(w: World, r: Receipt, v: World, codec: Codec) {
    match r
    case KeychainReceipt(item, created, _) => v == if created then w.(keychain := w.keychain - {item}) else w
    case BlockReceipt(p, marker, Some(c)) =>
      p in w.files && w.files[p].File? && v == w.(files := v.files) &&
      exists now :: BlockGone(TextOf(w.files[p]), MB.FenceOf(marker), c, now) &&
                    v.files == if Goes(now == "", c.fileExisted) then w.files - {p}
                               else Place(w.files, p, File(now, ModeOf(c.mode)))
    case MergeReceipt(p, Some(c)) =>
      c.keys != [] && p in w.files && w.files[p].File? && v == w.(files := v.files) &&
      exists o, root :: codec.parse(TextOf(w.files[p])) == Some(Object(o)) &&
                        UnmergeAt(o, c.keys, c.installed) == Some(root) &&
                        v.files == if Goes(root == map[], c.fileExisted) then w.files - {p}
                                   else Place(w.files, p, File(codec.render(root), ModeOf(c.mode)))
    case DirectoryReceipt(p, true) => v == w.(files := w.files - {p})
    case BuildReceipt(tag, _, preexisting) => v == if preexisting then w else w.(images := w.images - {tag})
    case _ => v == w
  }

  lemma EmptyIsChildless(fs: Files, p: Path)
    ensures EmptyDir(fs, p) <==> p in fs && fs[p] == Dir && Childless(fs, p)
  {
    forall q | q in fs ensures p in Above(q) <==> |p| < |q| && q[..|p|] == p {
      if |p| < |q| && q[..|p|] == p { assert p in Above(q); }
    }
  }

  lemma NoBlockInNothing(f: MB.Fence, c: BlockChange)
    ensures MB.UndoBlock("", f, c.installed, c.prior) == MB.Refused
  {
  }

  lemma BlockUndoneExactly(w: World, p: Path, marker: string, c: BlockChange, a: Answers, codec: Codec)
    ensures var o, r := BlockUndo(w, p, marker, c, a), BlockReceipt(p, marker, Some(c));
            (o.verdict == Done <==> Undoes(w, r, a, codec)) && (o.verdict == Done ==> Leaves(w, r, o.world, codec)) &&
            (o.verdict != Done ==> o.world == w)
  {
    hide MB.UndoBlock, MB.FenceOf, BlockGone, CanPlace, HasRoom, TextOf, Place;
    var f := MB.FenceOf(marker);
    RoomIsPlace(w.files, p);
    NoBlockInNothing(f, c);
    if p in w.files && w.files[p].File? { UndoMeans(TextOf(w.files[p]), f, c); }
  }

  lemma MergeUndoneExactly(w: World, p: Path, c: MergeChange, a: Answers, codec: Codec)
    requires Lawful(codec)
    ensures var o, r := MergeUndo(w, p, c, a, codec), MergeReceipt(p, Some(c));
            (o.verdict == Done <==> Undoes(w, r, a, codec)) && (o.verdict == Done ==> Leaves(w, r, o.world, codec)) &&
            (o.verdict != Done ==> o.world == w)
  {
    hide UnmergeAt, CanPlace, HasRoom, TextOf, Place, HasList;
    RoomIsPlace(w.files, p);
    assert codec.parse("") == None;
  }

  /** A compensation is done if and only if this holds of the world and the answers, leaves what it should, and changes
      nothing when it is not done. */
  lemma UndoneExactly(w: World, r: Receipt, a: Answers, codec: Codec)
    requires Lawful(codec)
    ensures var o := RollbackReceipt(w, r, a, codec);
            (o.verdict == Done <==> Undoes(w, r, a, codec)) && (o.verdict == Done ==> Leaves(w, r, o.world, codec)) &&
            (o.verdict != Done ==> o.world == w)
  {
    match r
    case BlockReceipt(p, marker, Some(c)) =>
      hide BlockUndo, Undoes, Leaves;
      BlockUndoneExactly(w, p, marker, c, a, codec);
    case MergeReceipt(p, Some(c)) =>
      hide MergeUndo, Undoes, Leaves;
      MergeUndoneExactly(w, p, c, a, codec);
    case DirectoryReceipt(p, true) => EmptyIsChildless(w.files, p);
    case _ =>
  }

  /** A compensation raises an error that a rollback does not handle if and only if it reads bytes that are not UTF-8,
      or a prior block that is no template, or a result of a script that is not UTF-8. */
  lemma ThrowsExactly(w: World, r: Receipt, a: Answers, codec: Codec)
    ensures RollbackReceipt(w, r, a, codec).verdict == Threw <==>
            match r
            case BlockReceipt(p, marker, Some(c)) =>
              a.readable && p in w.files &&
              (w.files[p].Binary? || (w.files[p].File? && BadPrior(TextOf(w.files[p]), MB.FenceOf(marker), c)))
            case MergeReceipt(p, Some(c)) => a.readable && !c.replaced && p in w.files && w.files[p].Binary?
            case CustomReceipt(_, reversible) => reversible && a.customUndone == Garbled
            case _ => false
  {
    hide MB.UndoBlock, MB.FenceOf, BadPrior, CanPlace, TextOf, Place, UnmergeAt, HasList, ParsedObject, EmptyDir;
    match r
    case BlockReceipt(p, marker, Some(c)) =>
      NoBlockInNothing(MB.FenceOf(marker), c);
      if p in w.files && w.files[p].File? { UndoMeans(TextOf(w.files[p]), MB.FenceOf(marker), c); }
    case _ =>
  }
}
