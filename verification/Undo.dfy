/** The undo review: a prediction of what a later rollback of a record will do. */
module Undo {
  import opened Text
  import opened JsonMerge
  import opened World
  import opened Runtime
  import opened Soundness
  import MB = ManagedBlock
  import BL = BlockLaws
  import RT = RoundTrips
  import TP = Templates

  datatype Disposition = Reverses | Keeps

  function DispositionOf(e: Entry): Disposition {
    if e.compensated then Keeps
    else match e.receipt
      case KeychainReceipt(_, created, replaced) => if replaced then Keeps else if created then Reverses else Keeps
      case BlockReceipt(_, _, block) => if block.Some? then Reverses else Keeps
      case DirectoryReceipt(_, made) => if made then Reverses else Keeps
      case MergeReceipt(_, merge) =>
        if merge.Some? && merge.value.replaced then Keeps else if merge.Some? then Reverses else Keeps
      case CustomReceipt(_, reversible) => if reversible then Reverses else Keeps
      case PullReceipt(_, _) => Keeps
      case BuildReceipt(_, _, preexisting) => if preexisting then Keeps else Reverses
      case _ => Keeps
  }

  /** One line of the review: the position of the receipt, counted from one, and what will happen to it. */
  datatype UndoStep = UndoStep(index: nat, disposition: Disposition)

  function Review(rs: seq<Entry>): (steps: seq<UndoStep>)
    ensures |steps| == |rs| && forall i :: 0 <= i < |steps| ==> 1 <= steps[i].index <= |rs|
  {
    if rs == [] then []
    else [UndoStep(|rs|, DispositionOf(rs[|rs| - 1]))] + Review(rs[..|rs| - 1])
  }

  lemma {:induction false} ReviewAt(rs: seq<Entry>, i: nat)
    requires i < |rs|
    ensures Review(rs)[i] == UndoStep(|rs| - i, DispositionOf(rs[|rs| - 1 - i]))
  {
    if i > 0 {
      ReviewAt(rs[..|rs| - 1], i - 1);
    }
  }

  /** The review, built one receipt at a time from the last one back. */
  method PlanUndo(rs: seq<Entry>) returns (steps: seq<UndoStep>)
    ensures steps == Review(rs)
  {
    steps := [];
    for offset := 0 to |rs|
      invariant |steps| == offset
      invariant forall i :: 0 <= i < offset ==> steps[i] == UndoStep(|rs| - i, DispositionOf(rs[|rs| - 1 - i]))
    {
      var entry := rs[|rs| - 1 - offset];
      steps := steps + [UndoStep(|rs| - offset, DispositionOf(entry))];
    }
    forall i | 0 <= i < |rs| ensures steps[i] == Review(rs)[i] {
      ReviewAt(rs, i);
    }
  }

  function Count(steps: seq<UndoStep>, d: Disposition): nat {
    if steps == [] then 0 else (if steps[0].disposition == d then 1 else 0) + Count(steps[1..], d)
  }

  /** The two counts of the payload cover every receipt. */
  lemma {:induction false} CountsCover(steps: seq<UndoStep>)
    ensures Count(steps, Reverses) + Count(steps, Keeps) == |steps|
  {
    if steps != [] {
      CountsCover(steps[1..]);
    }
  }

  /** The receipts with this disposition, by their positions. */
  function Positions(rs: seq<Entry>, d: Disposition): set<nat> {
    set i | 0 <= i < |rs| && DispositionOf(rs[i]) == d
  }

  lemma PositionsNext(rs: seq<Entry>, d: Disposition)
    requires rs != []
    ensures var n := |rs| - 1;
            |Positions(rs, d)| == |Positions(rs[..n], d)| + (if DispositionOf(rs[n]) == d then 1 else 0)
  {
    hide DispositionOf;
    var n := |rs| - 1;
    var before := Positions(rs[..n], d);
    assert Positions(rs, d) == before + (if DispositionOf(rs[n]) == d then {n} else {});
    assert n !in before;
  }

  /** Each count of the payload is the number of receipts with that disposition. */
  lemma {:induction false} CountsExactly(rs: seq<Entry>, d: Disposition)
    ensures Count(Review(rs), d) == |Positions(rs, d)|
  {
    hide DispositionOf, Positions;
    if rs == [] {
      NoPositions(d);
    } else {
      var n := |rs| - 1;
      CountsExactly(rs[..n], d);
      PositionsNext(rs, d);
      assert Review(rs)[1..] == Review(rs[..n]);
    }
  }

  lemma NoPositions(d: Disposition)
    ensures Positions([], d) == {}
  {
  }

  // ---- the order ----

  /** Compensates the receipts that the steps name, in the order of the steps. */
  function Follow(w: World, rs: seq<Entry>, steps: seq<UndoStep>, undo: nat -> Answers, codec: Codec): Outcome
    requires forall i :: 0 <= i < |steps| ==> 1 <= steps[i].index <= |rs|
    decreases |steps|
  {
    if steps == [] then Outcome(w, Done)
    else
      var n := steps[0].index - 1;
      var o := Rollback(w, rs[n], undo(n), codec);
      if o.verdict == Threw then o
      else
        var rest := Follow(o.world, rs, steps[1..], undo, codec);
        Outcome(rest.world, if rest.verdict == Done then o.verdict else rest.verdict)
  }

  lemma {:induction false} FollowPrefix(w: World, rs: seq<Entry>, n: nat, undo: nat -> Answers, codec: Codec)
    requires n <= |rs|
    ensures Follow(w, rs, Review(rs[..n]), undo, codec) == RollbackAll(w, rs[..n], undo, codec)
    decreases n
  {
    hide Rollback;
    if n > 0 {
      var steps := Review(rs[..n]);
      assert rs[..n][..n - 1] == rs[..n - 1];
      var rest := Review(rs[..n - 1]);
      assert steps[1..] == rest;
      assert rs[..n][n - 1] == rs[n - 1];
      var o := Rollback(w, rs[n - 1], undo(n - 1), codec);
      FollowPrefix(o.world, rs, n - 1, undo, codec);
    }
  }

  /** The rollback compensates the receipts in exactly the order in which the review lists them. */
  lemma RollbackFollowsReview(w: World, rs: seq<Entry>, undo: nat -> Answers, codec: Codec)
    ensures RollbackAll(w, rs, undo, codec) == Follow(w, rs, Review(rs), undo, codec)
  {
    assert rs[..|rs|] == rs;
    FollowPrefix(w, rs, |rs|, undo, codec);
  }

  // ---- the prediction ----

  /** What a rollback answers for a receipt that it keeps. */
  function KeptVerdict(e: Entry): Verdict {
    if !e.compensated &&
       ((e.receipt.KeychainReceipt? && e.receipt.replaced) ||
        (e.receipt.MergeReceipt? && e.receipt.merge.Some? && e.receipt.merge.value.replaced) ||
        (e.receipt.PullReceipt? && !e.receipt.preexisting) ||
        (e.receipt.CustomReceipt? && !e.receipt.reversible))
    then NotDone else Done
  }

  /** A receipt whose compensation is impossible. */
  predicate Impossible(e: Entry) {
    DispositionOf(e) == Keeps && KeptVerdict(e) == NotDone
  }

  /** Nothing a rollback finds or is answered changes what it does with a kept receipt: nothing. */
  lemma KeepsChangesNothing(w: World, e: Entry, a: Answers, codec: Codec)
    requires DispositionOf(e) == Keeps
    ensures Rollback(w, e, a, codec) == Outcome(w, KeptVerdict(e))
  {
  }

  /** A receipt that some rollback can compensate. The installed block is one of its marker: it does not close itself
      early, it holds no carriage return, and what is put back is a template. A merged value is no frozen list. */
  predicate Sound(r: Receipt) {
    match r
    case BlockReceipt(_, marker, Some(c)) => IsLine(marker) && SoundBlock(MB.FenceOf(marker), c)
    case MergeReceipt(_, Some(c)) => c.keys != [] && !(c.frozen && HasList(c.installed))
    case _ => true
  }

  predicate SoundBlock(f: MB.Fence, c: BlockChange) {
    '\r' !in c.installed && TP.Expand(MB.Restored(c.prior), TP.Match("", "")).Plainly? &&
    var ls := Split(c.installed);
    |ls| >= 3 && ls[0] == f.open && ls[|ls| - 1] == f.close && forall k :: 2 <= k < |ls| - 1 ==> !(f.close <= ls[k])
  }

  /** Every step issues such a receipt when its block can be taken out again and what it replaces is a template, and the
      record keeps it one unless it merged a list. */
  lemma IssuedSound(v: World, e: Effect, a: Answers, codec: Codec, w: World, r: Receipt)
    requires WellFormed(e) && !e.Custom? && Issued(v, e, a, codec, w, r)
    requires e.OwnedBlock? ==> IsLine(e.marker) && RT.Removable(MB.FenceOf(e.marker), e.content)
    requires r.BlockReceipt? && r.block.Some? ==> TP.Expand(MB.Restored(r.block.value.prior), TP.Match("", "")).Plainly?
    ensures Sound(r)
    ensures !(e.Merging? && HasList(e.value)) ==> Sound(Frozen(Entry(r, false)).receipt)
  {
    hide Issued, ApplyEffect, MB.WriteBlock, MB.Block, MergeAt, MB.FenceOf, HasList, SoundBlock, ReadRegular,
         RT.Removable;
    IssuedKind(v, e, a, codec, w, r);
    if e.OwnedBlock? && r.block.Some? {
      IssuedBlock(v, e, a, codec, w, r);
      MB.MarkersAreProper(e.marker);
      RemovableIsSound(MB.FenceOf(e.marker), e.content, r.block.value);
    } else if e.Merging? && r.merge.Some? {
      IssuedMerge(v, e, a, codec, w, r);
    }
  }

  /** An installed block is sound if and only if it can be taken out again and what it replaced is a template. */
  lemma RemovableIsSound(f: MB.Fence, content: string, c: BlockChange)
    requires MB.Proper(f) && c.installed == MB.Block(f, content)
    ensures SoundBlock(f, c) <==>
            RT.Removable(f, content) && TP.Expand(MB.Restored(c.prior), TP.Match("", "")).Plainly?
  {
    hide MB.Block, Split, TP.Expand, MB.Body, MB.Restored;
    MB.SplitOfBlock(f, content);
    var b, body := MB.BlockLines(f, content), MB.Body(content);
    assert forall k :: 0 <= k < |body| ==> b[k + 1] == body[k];
    assert forall k :: 2 <= k < |b| - 1 ==> b[k] == body[k - 1];
  }

  function Answering(yes: bool): Answers {
    var reply := if yes then Good else Bad;
    Answers(true, true, true, false, None, true, yes, None, true, None, true, yes, reply, true, CustomFailed, reply)
  }

  /** A world in which the compensation of a sound receipt succeeds. */
  lemma CanSucceed(e: Entry, codec: Codec) returns (w: World)
    requires Lawful(codec) && Sound(e.receipt) && DispositionOf(e) == Reverses
    ensures Rollback(w, e, Answering(true), codec).verdict == Done
  {
    hide MB.UndoBlock, UnmergeAt, MergeAt, MB.FenceOf, Split, SoundBlock, Translate;
    var empty := World(map[], map[], map[]);
    w := empty;
    match e.receipt
    case KeychainReceipt(item, _, _) => w := empty.(keychain := map[item := ""]);
    case BuildReceipt(tag, _, _) => w := empty.(images := map[tag := ""]);
    case DirectoryReceipt(p, _) =>
      w := empty.(files := map[p := Dir]);
      assert p !in Above(p);
    case BlockReceipt(p, marker, Some(c)) =>
      BlockAlone(marker, c);
      w := empty.(files := map[p := File(c.installed, 0)]);
      assert CanPlace(w.files, p);
    case MergeReceipt(p, Some(c)) =>
      var m := MergeAlone(c);
      w := empty.(files := map[p := File(codec.render(m), 0)]);
      RenderedRoot(codec, m);
      assert CanPlace(w.files, p);
    case CustomReceipt(_, _) =>
  }

  /** The installed block, alone in a file, is taken out. */
  lemma BlockAlone(marker: string, c: BlockChange)
    requires IsLine(marker) && SoundBlock(MB.FenceOf(marker), c)
    ensures Translate(c.installed) == c.installed
    ensures MB.UndoBlock(c.installed, MB.FenceOf(marker), c.installed, c.prior).Undone?
  {
    hide MB.UndoBlock, MB.FenceOf, Split, Join, TP.Expand, Translate, MB.Restored;
    var f := MB.FenceOf(marker);
    MB.MarkersAreProper(marker);
    TranslateKeeps(c.installed);
    JoinOfSplit(c.installed);
    SplitGivesLines(c.installed);
    var ls := Split(c.installed);
    var body := ls[1..|ls| - 1];
    assert ls == [f.open] + body + [f.close];
    assert [] + ls + [] == ls;
    MB.UndoesPlaced([], body, [], f, c.installed, c.prior);
    TP.BadAnyway(MB.Restored(c.prior), MB.Found(c.installed, false), TP.Match("", ""));
  }

  lemma MergeAlone(c: MergeChange) returns (m: Fields)
    requires c.keys != []
    ensures UnmergeAt(m, c.keys, c.installed).Some?
  {
    hide MergeAt, UnmergeAt, Lookup;
    CollisionExactly(map[], c.keys, c.installed, true);
    NothingBlocksEmpty(c.keys);
    MergeInstalls(map[], c.keys, c.installed, true);
    var r := MergeAt(map[], c.keys, c.installed, true);
    m := if r.Merged? then r.root else map[];
    UnmergeExactly(m, c.keys, c.installed);
  }

  /** The prediction, and its exact limit: whether a receipt is compensated is the same in every world, whatever the
      tools answer, if and only if it is listed as kept or is not sound. */
  lemma KeptExactlyWhenFixed(e: Entry, codec: Codec)
    requires Lawful(codec)
    ensures DispositionOf(e) == Keeps || !Sound(e.receipt) <==>
            forall w: World, a: Answers, v: World, b: Answers ::
              Rollback(w, e, a, codec).verdict == Done <==> Rollback(v, e, b, codec).verdict == Done
  {
    hide Sound, Rollback;
    if DispositionOf(e) == Keeps || !Sound(e.receipt) {
      forall w: World, a: Answers, v: World, b: Answers
        ensures Rollback(w, e, a, codec).verdict == Done <==> Rollback(v, e, b, codec).verdict == Done
      {
        FixedVerdict(w, e, a, codec);
        FixedVerdict(v, e, b, codec);
      }
    } else {
      var w := CanSucceed(e, codec);
      var empty := World(map[], map[], map[]);
      CannotSucceed(e, codec);
      assert !(Rollback(w, e, Answering(true), codec).verdict == Done <==>
               Rollback(empty, e, Answering(false), codec).verdict == Done);
    }
  }

  lemma FixedVerdict(w: World, e: Entry, a: Answers, codec: Codec)
    requires DispositionOf(e) == Keeps || !Sound(e.receipt)
    ensures Rollback(w, e, a, codec).verdict == Done <==> DispositionOf(e) == Keeps && KeptVerdict(e) == Done
  {
    hide Sound, Rollback;
    if DispositionOf(e) == Keeps {
      KeepsChangesNothing(w, e, a, codec);
    } else {
      UnsoundStays(w, e, a, codec);
    }
  }

  /** A receipt that is listed as reversed but is not sound is never compensated, in any world, and nothing changes. */
  lemma UnsoundStays(w: World, e: Entry, a: Answers, codec: Codec)
    requires DispositionOf(e) == Reverses && !Sound(e.receipt)
    ensures Rollback(w, e, a, codec).verdict != Done && Rollback(w, e, a, codec).world == w
  {
    hide MB.UndoBlock, UnmergeAt, MB.FenceOf, SoundBlock, Translate, ParsedObject, HasList;
    if e.receipt.BlockReceipt? && ReadRegular(w.files, e.receipt.path).Content? {
      ReadHasNone(w.files, e.receipt.path);
      var text := ReadRegular(w.files, e.receipt.path).text;
      var c := e.receipt.block.value;
      if MB.UndoBlock(text, MB.FenceOf(e.receipt.marker), c.installed, c.prior).Undone? {
        OnlySoundUndone(text, e.receipt.marker, c);
      }
    }
  }

  /** Only a sound block of a single-line marker is ever taken out. */
  lemma OnlySoundUndone(t: string, marker: string, c: BlockChange)
    requires '\r' !in t && MB.UndoBlock(t, MB.FenceOf(marker), c.installed, c.prior).Undone?
    ensures IsLine(marker) && SoundBlock(MB.FenceOf(marker), c)
  {
    hide Split, Join, MB.FindBlock, TP.Expand, MB.LinesAfter, MB.Restored, MB.FenceOf;
    var f, ls := MB.FenceOf(marker), Split(t);
    SplitGivesLines(t);
    JoinOfSplit(t);
    MB.FindBlockMeaning(ls, f, true, 0);
    var s := MB.FindBlock(ls, f, true, 0).value;
    var m := MB.Found(c.installed, ls[s.last] == f.close && s.last + 1 < |ls|);
    TP.BadAnyway(MB.Restored(c.prior), m, TP.Match("", ""));
    RT.WithinText(ls, s.first, s.last, f.close);
    OpeningIsLine(marker, ls, s.first);
    var x := ls[s.first..s.last] + [f.close];
    CloseIsLine(marker);
    SplitOfJoin(x);
  }

  lemma OpeningIsLine(marker: string, ls: seq<string>, i: nat)
    requires AllLines(ls) && i < |ls| && ls[i] == MB.FenceOf(marker).open
    ensures IsLine(marker)
  {
    MB.MarkerInside(marker);
    var l := MB.FenceOf(marker).open;
    assert forall k :: 0 <= k < |marker| ==> marker[k] == l[18 + k];
  }

  lemma CloseIsLine(marker: string)
    requires IsLine(marker)
    ensures IsLine(MB.FenceOf(marker).close)
  {
    MB.MarkersAreProper(marker);
  }

  /** The review is wrong for three kinds of receipts that runs issue. A block whose content closes it early or holds a
      carriage return is listed as reversed, but no rollback takes it out again, in any world. */
  lemma UnremovableStays(w: World, p: Path, marker: string, content: string, c: BlockChange, a: Answers, codec: Codec)
    requires IsLine(marker) && !RT.Removable(MB.FenceOf(marker), content)
    requires c.installed == MB.Block(MB.FenceOf(marker), content)
    ensures var e := Entry(BlockReceipt(p, marker, Some(c)), false);
            DispositionOf(e) == Reverses && !Sound(e.receipt) && Rollback(w, e, a, codec).verdict != Done &&
            Rollback(w, e, a, codec).world == w
  {
    hide MB.FenceOf, RT.Removable, SoundBlock, Rollback, MB.Block;
    MB.MarkersAreProper(marker);
    RemovableIsSound(MB.FenceOf(marker), content, c);
    UnsoundStays(w, Entry(BlockReceipt(p, marker, Some(c)), false), a, codec);
  }

  /** ... nor a block that replaced one which is no template: that rollback raises an error. */
  lemma BadPriorStays(w: World, p: Path, marker: string, c: BlockChange, a: Answers, codec: Codec)
    requires c.prior.Some? && TP.Expand(c.prior.value + "\n", TP.Match("", "")).BadTemplate?
    ensures var e := Entry(BlockReceipt(p, marker, Some(c)), false);
            DispositionOf(e) == Reverses && !Sound(e.receipt) && Rollback(w, e, a, codec).verdict != Done &&
            Rollback(w, e, a, codec).world == w
  {
    hide MB.FenceOf, Rollback, TP.Expand;
    UnsoundStays(w, Entry(BlockReceipt(p, marker, Some(c)), false), a, codec);
  }

  /** ... and a merged value with a list in it is listed as reversed, but once the record has frozen its receipts no
      rollback takes it out again. */
  lemma FrozenListStays(w: World, e: Entry, a: Answers, codec: Codec)
    requires !e.compensated && e.receipt.MergeReceipt? && e.receipt.merge.Some? && !e.receipt.merge.value.replaced
    requires HasList(e.receipt.merge.value.installed)
    ensures DispositionOf(Frozen(e)) == Reverses && !Sound(Frozen(e).receipt)
    ensures Rollback(w, Frozen(e), a, codec).verdict != Done && Rollback(w, Frozen(e), a, codec).world == w
  {
    hide HasList, Rollback;
    UnsoundStays(w, Frozen(e), a, codec);
  }

  lemma CannotSucceed(e: Entry, codec: Codec)
    requires Lawful(codec) && DispositionOf(e) == Reverses
    ensures Rollback(World(map[], map[], map[]), e, Answering(false), codec).verdict == NotDone
  {
  }

  // ---- what the prediction says about the whole rollback ----

  /** A receipt that no rollback compensates. */
  predicate Stuck(e: Entry) {
    Impossible(e) || (DispositionOf(e) == Reverses && !Sound(e.receipt))
  }

  lemma {:induction false} StuckStops(w: World, rs: seq<Entry>, i: nat, undo: nat -> Answers, codec: Codec)
    requires i < |rs| && Stuck(rs[i])
    ensures RollbackAll(w, rs, undo, codec).verdict != Done
    decreases |rs|
  {
    hide Rollback, Sound;
    var n := |rs| - 1;
    var o := Rollback(w, rs[n], undo(n), codec);
    if i == n {
      FixedVerdict(w, rs[n], undo(n), codec);
    } else if o.verdict != Threw {
      StuckStops(o.world, rs[..n], i, undo, codec);
    }
  }

  /** A record with a receipt that cannot be compensated comes out of every rollback, in any world, as an incomplete
      rollback that keeps all its receipts. */
  lemma StuckForcesIncomplete(w: World, record: Record, i: nat, undo: nat -> Answers, codec: Codec)
    requires i < |record.receipts| && Stuck(record.receipts[i])
    ensures var r := RollbackRecord(w, record, undo, codec);
            r.Returned? ==> r.record == Record(RollbackIncomplete, record.receipts)
  {
    hide Stuck, Rollback;
    StuckStops(w, record.receipts, i, undo, codec);
  }

  /** A record in which every receipt is kept and none is impossible is undone by doing nothing. */
  lemma {:induction false} AllKept(w: World, rs: seq<Entry>, undo: nat -> Answers, codec: Codec)
    requires forall i :: 0 <= i < |rs| ==> DispositionOf(rs[i]) == Keeps && !Impossible(rs[i])
    ensures RollbackAll(w, rs, undo, codec) == Outcome(w, Done)
    decreases |rs|
  {
    hide Rollback;
    if rs != [] {
      var n := |rs| - 1;
      KeepsChangesNothing(w, rs[n], undo(n), codec);
      AllKept(w, rs[..n], undo, codec);
    }
  }
}
