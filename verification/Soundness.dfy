/** A run that says it was rolled back has put the world back. */
module Soundness {
  import opened Text
  import opened JsonMerge
  import opened World
  import opened Runtime
  import MB = ManagedBlock
  import RT = RoundTrips
  import SB = SafeBlocks

  // ---- when the world counts as restored ----

  /** What a plan may leave behind: directories above its targets, and new images behind tags it built over. */
  datatype Scope = Scope(above: set<Path>, builds: set<string>)

  function NodeAt(fs: Files, p: Path): Option<Node> {
    if p in fs then Some(fs[p]) else None
  }

  predicate FileOrMissing(n: Option<Node>) {
    n.Some? ==> n.value.File?
  }

  function TextAt(n: Option<Node>): string
    requires FileOrMissing(n)
  {
    if n.Some? then TextOf(n.value) else ""
  }

  /** The same text up to trailing newlines, or the same JSON object up to hollow objects in place of missing
      or null values. */
  ghost predicate SameContent(codec: Codec, s: string, t: string) {
    SameText(s, t) ||
    (RootOf(codec, s).Some? && RootOf(codec, t).Some? && GrownFields(RootOf(codec, s).value, RootOf(codec, t).value))
  }

  ghost predicate Kept(codec: Codec, scope: Scope, p: Path, was: Option<Node>, now: Option<Node>) {
    was == now ||
    (was.None? && now == Some(Dir) && p in scope.above) ||
    (FileOrMissing(was) && FileOrMissing(now) && now.Some? &&
     now.value.mode == (if was.Some? then was.value.mode else PRIVATE_MODE) &&
     SameContent(codec, TextAt(was), TextAt(now)))
  }

  ghost predicate FilesRestored(codec: Codec, scope: Scope, was: Files, now: Files) {
    forall p: Path :: Kept(codec, scope, p, NodeAt(was, p), NodeAt(now, p))
  }

  predicate ImagesRestored(scope: Scope, was: map<string, string>, now: map<string, string>) {
    was.Keys == now.Keys && forall t :: t in was && t !in scope.builds ==> now[t] == was[t]
  }

  ghost predicate Restored(codec: Codec, scope: Scope, was: World, now: World) {
    now.keychain == was.keychain && ImagesRestored(scope, was.images, now.images) &&
    FilesRestored(codec, scope, was.files, now.files)
  }

  predicate InScope(scope: Scope, e: Effect) {
    match e
    case OwnedBlock(p, _, _) => Above(p) <= scope.above
    case Merging(p, _, _, _) => Above(p) <= scope.above
    case Directory(p) => Above(p) <= scope.above
    case Build(tag) => tag in scope.builds
    case Custom(_) => false                    // scripts may do anything
    case _ => true
  }

  // ---- what a caller checks before a block is written ----

  /** A block step is safe when undoing it cannot give back another text. */
  predicate SafeStep(w: World, e: Effect) {
    e.OwnedBlock? ==>
      match ReadRegular(w.files, e.path)
      case Content(text, _, _) => SB.SafeBlock(text, MB.FenceOf(e.marker), e.content)
      case _ => true
  }

  // ---- files ----

  lemma SameTextSelf(codec: Codec, scope: Scope, w: World)
    ensures Restored(codec, scope, w, w)
  {
  }

  lemma {:induction false} ParseNewlines(codec: Codec, t: string, n: nat)
    requires Lawful(codec)
    ensures codec.parse(t + Newlines(n)) == codec.parse(t)
  {
    if n == 0 {
      assert t + "" == t;
    } else {
      ParseNewlines(codec, t, n - 1);
      assert t + Newlines(n) == t + Newlines(n - 1) + "\n";
    }
  }

  lemma ParseSameText(codec: Codec, s: string, t: string)
    requires Lawful(codec) && SameText(s, t)
    ensures codec.parse(s) == codec.parse(t)
  {
    var m := ChompSplits(s);
    var n := ChompSplits(t);
    ParseNewlines(codec, Chomp(s), m);
    ParseNewlines(codec, Chomp(t), n);
  }

  /** After a block was written the file is not a JSON text. */
  lemma BlockIsNotJson(codec: Codec, text: string, f: MB.Fence, content: string)
    requires Lawful(codec) && MB.Proper(f) && MB.WriteBlock(text, f, content).Written? && '\r' !in text
    ensures RootOf(codec, Translate(MB.WriteBlock(text, f, content).text)) == None
  {
    hide MB.WriteBlock, MB.Proper, Translate, Split, Unlines, Blank;
    var p, y := RT.WrittenHash(text, f, content);
    HashIsNotJson(p, y);
  }

  lemma HashIsNotJson(p: seq<string>, y: string)
    requires AllLines(p) && "#" <= y
    ensures HashLine(Unlines(p) + y) && !Blank(Unlines(p) + y)
  {
    hide Split, Unlines;
    RT.Around(p, y, []);
    RT.NothingBehind();
    var t := Unlines(p) + y;
    assert t + "" == t && p + Split(y) + [] == p + Split(y);
    FirstChar(y);
    assert (p + Split(y))[|p|] == Split(y)[0];
    assert t[|Unlines(p)|] == '#';
  }

  lemma FirstChar(y: string)
    requires "#" <= y
    ensures "#" <= Split(y)[0]
  {
  }

  /** Undoing a placed node: apart from its own path, what was restored before it was placed is restored still. */
  lemma OthersKept(codec: Codec, scope: Scope, was: Files, p: Path, n: Node, now: Files)
    requires Above(p) <= scope.above && CanPlace(was, p)
    requires FilesRestored(codec, scope, Place(was, p, n), now)
    ensures forall q: Path :: q != p ==> Kept(codec, scope, q, NodeAt(was, q), NodeAt(now, q))
    ensures Above(p) <= now.Keys
  {
    var placed := Place(was, p, n);
    forall q: Path | q != p
      ensures Kept(codec, scope, q, NodeAt(was, q), NodeAt(now, q))
      ensures q in Above(p) ==> q in now
    {
      assert Kept(codec, scope, q, NodeAt(placed, q), NodeAt(now, q));
    }
    assert p !in Above(p);
  }

  lemma RewriteKeeps(codec: Codec, scope: Scope, was: Files, p: Path, n: Node, now: Files, m: Node)
    requires Above(p) <= scope.above && CanPlace(was, p)
    requires FilesRestored(codec, scope, Place(was, p, n), now)
    requires Kept(codec, scope, p, NodeAt(was, p), Some(m))
    ensures FilesRestored(codec, scope, was, Place(now, p, m))
  {
    OthersKept(codec, scope, was, p, n, now);
    var r := Place(now, p, m);
    forall q: Path
      ensures Kept(codec, scope, q, NodeAt(was, q), NodeAt(r, q))
    {
      if q != p {
        assert NodeAt(r, q) == NodeAt(now, q);
      }
    }
  }

  lemma RemoveKeeps(codec: Codec, scope: Scope, was: Files, p: Path, n: Node, now: Files)
    requires Above(p) <= scope.above && CanPlace(was, p)
    requires FilesRestored(codec, scope, Place(was, p, n), now)
    requires p !in was
    ensures FilesRestored(codec, scope, was, now - {p})
  {
    OthersKept(codec, scope, was, p, n, now);
    forall q: Path
      ensures Kept(codec, scope, q, NodeAt(was, q), NodeAt(now - {p}, q))
    {
      if q != p {
        assert NodeAt(now - {p}, q) == NodeAt(now, q);
      }
    }
  }

  // ---- one compensation ----

  /** The world a step leaves behind and the receipt it issued, if it issued one. */
  predicate Issued(v: World, e: Effect, a: Answers, codec: Codec, w: World, r: Receipt)
    requires WellFormed(e)
  {
    match ApplyEffect(v, e, a, codec)
    case Applied(x, receipt, _) => x == w && receipt == r
    case FailedOwing(x, receipt) => x == w && receipt == r
    case _ => false
  }

  /** What a block step that changed its file wrote and issued. */
  lemma IssuedBlock(v: World, e: Effect, a: Answers, codec: Codec, w: World, r: Receipt)
    requires e.OwnedBlock? && r.BlockReceipt? && r.block.Some? && Issued(v, e, a, codec, w, r)
    ensures var reading := ReadRegular(v.files, e.path);
            reading.Content? && CanPlace(v.files, e.path) &&
            var wb := MB.WriteBlock(reading.text, MB.FenceOf(e.marker), e.content);
            wb.Written? && w == v.(files := Place(v.files, e.path, File(wb.text, ModeOf(reading.mode)))) &&
            r == BlockReceipt(e.path, e.marker,
                              Some(BlockChange(reading.existed, reading.mode, wb.prior,
                                               MB.Block(MB.FenceOf(e.marker), e.content))))
  {
    hide MB.WriteBlock, MB.Block, ReadRegular, Place, CanPlace, MB.FenceOf;
  }

  /** What a merge that changed its file wrote and issued. */
  lemma IssuedMerge(v: World, e: Effect, a: Answers, codec: Codec, w: World, r: Receipt)
    requires e.Merging? && WellFormed(e) && r.MergeReceipt? && r.merge.Some? && Issued(v, e, a, codec, w, r)
    ensures var reading := ReadRegular(v.files, e.path);
            reading.Content? && CanPlace(v.files, e.path) && RootOf(codec, reading.text).Some? &&
            var m := MergeAt(RootOf(codec, reading.text).value, e.keys, e.value, e.replaceExisting);
            m.Merged? &&
            w == v.(files := Place(v.files, e.path, File(codec.render(m.root), ModeOf(reading.mode)))) &&
            r == MergeReceipt(e.path, Some(MergeChange(e.keys, reading.existed, reading.mode, m.replaced, e.value,
                                                       false)))
  {
    hide MergeAt, ReadRegular, Place, CanPlace, RootOf;
  }

  /** Whatever the later steps left behind, undoing the block is refused or gives the text from before its step. */
  lemma BlockStillThere(codec: Codec, scope: Scope, v: World, e: Effect, a: Answers, w: World, r: Receipt, cur: World)
    requires Lawful(codec) && e.OwnedBlock? && SafeStep(v, e)
    requires r.BlockReceipt? && r.block.Some? && Issued(v, e, a, codec, w, r)
    requires Restored(codec, scope, w, cur)
    ensures e.path in cur.files && cur.files[e.path].File?
    ensures var c := r.block.value;
            var u := MB.UndoBlock(TextOf(cur.files[e.path]), MB.FenceOf(e.marker), c.installed, c.prior);
            var before := ReadRegular(v.files, e.path).text;
            SB.ComesBack(u, before) && (SB.SureBlock(before, MB.FenceOf(e.marker), e.content) ==> u.Undone?)
  {
    hide MB.WriteBlock, MB.UndoBlock, MB.Block, SB.SafeBlock, SB.SureBlock, SB.ComesBack, RootOf, Chomp, Restored,
         FilesRestored, Translate,
         ApplyEffect, MB.FenceOf, Issued;
    IssuedBlock(v, e, a, codec, w, r);
    var p, f := e.path, MB.FenceOf(e.marker);
    var reading := ReadRegular(v.files, p);
    var wb := MB.WriteBlock(reading.text, f, e.content);
    var c := r.block.value;
    var placed := File(wb.text, ModeOf(reading.mode));
    assert NodeAt(w.files, p) == Some(placed);
    ReadHasNone(v.files, p);
    SafeIsProper(reading.text, f, e.content);
    BlockIsNotJson(codec, reading.text, f, e.content);
    RestoredAt(codec, scope, w, cur, p);
    var now := cur.files[p];
    assert SameText(Translate(wb.text), TextOf(now));
    TranslateHasNone(now.text);
    SB.ComesBackLater(reading.text, f, e.content, TextOf(now));
  }

  lemma ReadHasNone(fs: Files, p: Path)
    requires ReadRegular(fs, p).Content?
    ensures '\r' !in ReadRegular(fs, p).text
  {
    hide Translate;
    if p in fs { TranslateHasNone(fs[p].text); }
  }

  lemma BlockCompensated(codec: Codec, scope: Scope, v: World, e: Effect, a: Answers, w: World, r: Receipt,
                         cur: World, b: Answers)
    requires Lawful(codec) && e.OwnedBlock? && InScope(scope, e) && SafeStep(v, e)
    requires r.BlockReceipt? && r.block.Some? && Issued(v, e, a, codec, w, r)
    requires Restored(codec, scope, w, cur)
    requires RollbackReceipt(cur, r, b, codec).verdict == Done
    ensures Restored(codec, scope, v, RollbackReceipt(cur, r, b, codec).world)
  {
    hide MB.WriteBlock, MB.UndoBlock, MB.Block, SB.SafeBlock, SB.SureBlock, RootOf, Chomp, Restored, FilesRestored,
         Translate,
         ApplyEffect, MB.FenceOf, Issued, Rewrite, SafeStep, CanPlace, Place;
    IssuedBlock(v, e, a, codec, w, r);
    var p, f := e.path, MB.FenceOf(e.marker);
    var reading := ReadRegular(v.files, p);
    var c := r.block.value;
    var placed := File(MB.WriteBlock(reading.text, f, e.content).text, ModeOf(reading.mode));
    BlockStillThere(codec, scope, v, e, a, w, r, cur);
    var u := MB.UndoBlock(TextOf(cur.files[p]), f, c.installed, c.prior);
    ReadHasNone(v.files, p);
    SameHasNone(u.text, reading.text);
    AfterRewrite(codec, scope, v, w, p, placed, cur, reading, u.text, u.text == "" && !c.fileExisted, b);
  }

  /** A text that is the same up to trailing newlines as one without carriage returns is read as it stands. */
  lemma SameHasNone(s: string, t: string)
    requires SameText(s, t) && '\r' !in t
    ensures Translate(s) == s
  {
    hide Chomp, Translate;
    var m := ChompSplits(s);
    var n := ChompSplits(t);
    assert forall k :: 0 <= k < |Chomp(t)| ==> Chomp(t)[k] == t[k];
    NewlinesOnly(m);
    assert forall c :: c in Chomp(s) + Newlines(m) ==> c in Chomp(s) || c in Newlines(m);
    TranslateKeeps(s);
  }

  lemma {:induction false} NewlinesOnly(n: nat)
    ensures '\r' !in Newlines(n)
  {
    if n > 0 { NewlinesOnly(n - 1); }
  }

  lemma RestoredAt(codec: Codec, scope: Scope, w: World, cur: World, p: Path)
    requires Restored(codec, scope, w, cur)
    ensures Kept(codec, scope, p, NodeAt(w.files, p), NodeAt(cur.files, p))
  {
  }

  lemma SafeIsProper(text: string, f: MB.Fence, content: string)
    requires SB.SafeBlock(text, f, content)
    ensures MB.Proper(f)
  {
  }

  /** Rewriting or removing the file a step wrote restores the files, when the new content is the old content. */
  lemma AfterRewrite(codec: Codec, scope: Scope, v: World, w: World, p: Path, placed: Node, cur: World,
                     reading: Reading, text: string, remove: bool, b: Answers)
    requires Above(p) <= scope.above && CanPlace(v.files, p)
    requires reading == ReadRegular(v.files, p) && reading.Content?
    requires w == v.(files := Place(v.files, p, placed))
    requires Restored(codec, scope, w, cur)
    requires SameContent(codec, reading.text, Translate(text))
    requires remove ==> !reading.existed
    requires Rewrite(cur, p, text, reading.mode, remove, b).verdict == Done
    ensures Restored(codec, scope, v, Rewrite(cur, p, text, reading.mode, remove, b).world)
  {
    hide SameContent, Translate;
    if remove {
      RemoveKeeps(codec, scope, v.files, p, placed, cur.files);
    } else {
      var m := File(text, ModeOf(reading.mode));
      assert TextAt(NodeAt(v.files, p)) == reading.text;
      RewriteKeeps(codec, scope, v.files, p, placed, cur.files, m);
    }
  }

  lemma MergeCompensated(codec: Codec, scope: Scope, v: World, e: Effect, a: Answers, w: World, r: Receipt,
                         cur: World, b: Answers)
    requires Lawful(codec) && e.Merging? && WellFormed(e) && InScope(scope, e)
    requires r.MergeReceipt? && r.merge.Some? && Issued(v, e, a, codec, w, r)
    requires Restored(codec, scope, w, cur)
    requires RollbackReceipt(cur, r, b, codec).verdict == Done
    ensures Restored(codec, scope, v, RollbackReceipt(cur, r, b, codec).world)
  {
    hide MergeAt, UnmergeAt, Restored, FilesRestored, Chomp, Grown, Translate, ApplyEffect, Issued, Rewrite;
    IssuedMerge(v, e, a, codec, w, r);
    var p := e.path;
    var reading := ReadRegular(v.files, p);
    var o := RootOf(codec, reading.text).value;
    var m := MergeAt(o, e.keys, e.value, e.replaceExisting);
    var c := r.merge.value;
    var placed := File(codec.render(m.root), ModeOf(reading.mode));
    assert NodeAt(w.files, p) == Some(placed);
    RestoredAt(codec, scope, w, cur, p);
    var now := TextOf(cur.files[p]);
    var found := ParsedObject(codec, now).value;
    RenderedRoot(codec, m.root);
    assert GrownFields(m.root, found) by {
      if SameText(placed.text, now) {
        ParseSameText(codec, placed.text, now);
        GrownSelf(m.root);
      } else {
        assert !Blank(now);
      }
    }
    UnmergeGrown(o, e.keys, e.value, e.replaceExisting, found);
    var root := UnmergeAt(found, e.keys, c.installed).value;
    RenderedRoot(codec, root);
    AfterRewrite(codec, scope, v, w, p, placed, cur, reading, codec.render(root),
                 root == map[] && !c.fileExisted, b);
  }

  lemma RenderedRoot(codec: Codec, o: Fields)
    requires Lawful(codec)
    ensures RootOf(codec, codec.render(o)) == Some(o) && ParsedObject(codec, codec.render(o)) == Some(o)
    ensures Translate(codec.render(o)) == codec.render(o)
  {
    TranslateKeeps(codec.render(o));
  }

  lemma DirectoryCompensated(codec: Codec, scope: Scope, v: World, e: Effect, a: Answers, w: World, r: Receipt,
                             cur: World, b: Answers)
    requires e.Directory? && InScope(scope, e)
    requires r.DirectoryReceipt? && r.made && Issued(v, e, a, codec, w, r)
    requires Restored(codec, scope, w, cur)
    requires RollbackReceipt(cur, r, b, codec).verdict == Done
    ensures Restored(codec, scope, v, RollbackReceipt(cur, r, b, codec).world)
  {
    RemoveKeeps(codec, scope, v.files, e.path, Dir, cur.files);
  }

  lemma ImageCompensated(codec: Codec, scope: Scope, v: World, e: Effect, a: Answers, w: World, r: Receipt,
                         cur: World, b: Answers)
    requires (e.Pull? || e.Build?) && InScope(scope, e)
    requires Issued(v, e, a, codec, w, r)
    requires Restored(codec, scope, w, cur)
    requires RollbackReceipt(cur, r, b, codec).verdict == Done
    ensures Restored(codec, scope, v, RollbackReceipt(cur, r, b, codec).world)
  {
    hide FilesRestored;
  }

  lemma KeychainCompensated(codec: Codec, scope: Scope, v: World, e: Effect, a: Answers, w: World, r: Receipt,
                            cur: World, b: Answers)
    requires e.Keychain?
    requires Issued(v, e, a, codec, w, r)
    requires Restored(codec, scope, w, cur)
    requires RollbackReceipt(cur, r, b, codec).verdict == Done
    ensures Restored(codec, scope, v, RollbackReceipt(cur, r, b, codec).world)
  {
  }

  /** The receipt of a step is of its kind, and a receipt without a change comes with the same world. */
  lemma IssuedKind(v: World, e: Effect, a: Answers, codec: Codec, w: World, r: Receipt)
    requires WellFormed(e) && !e.Custom? && Issued(v, e, a, codec, w, r)
    ensures match e
            case OwnedBlock(_, _, _) => r.BlockReceipt? && (r.block.None? ==> w == v)
            case Merging(_, _, _, _) => r.MergeReceipt? && (r.merge.None? ==> w == v)
            case Directory(_) => r.DirectoryReceipt? && (!r.made ==> w == v)
            case Keychain(_, _) => r.KeychainReceipt?
            case Pull(_) => r.PullReceipt?
            case Build(_) => r.BuildReceipt?
            case _ => (r.ExportReceipt? || r.VerifyReceipt? || r.NoticeReceipt?) && w == v
  {
    hide MB.WriteBlock, MB.Block, MergeAt, RootOf, ReadRegular, Place, CanPlace;
  }

  /** A compensation that reports success gives back the world from before its step, whatever later steps and
      their compensations left behind. */
  lemma Compensated(codec: Codec, scope: Scope, v: World, e: Effect, a: Answers, w: World, r: Receipt,
                    cur: World, b: Answers)
    requires Lawful(codec) && WellFormed(e) && InScope(scope, e) && SafeStep(v, e)
    requires Issued(v, e, a, codec, w, r)
    requires Restored(codec, scope, w, cur)
    requires RollbackReceipt(cur, r, b, codec).verdict == Done
    ensures Restored(codec, scope, v, RollbackReceipt(cur, r, b, codec).world)
  {
    hide Restored, SafeStep, Issued, ApplyEffect, BlockUndo, MergeUndo;
    IssuedKind(v, e, a, codec, w, r);
    match e
    case Keychain(_, _) => KeychainCompensated(codec, scope, v, e, a, w, r, cur, b);
    case OwnedBlock(_, _, _) => if r.block.Some? { BlockCompensated(codec, scope, v, e, a, w, r, cur, b); }
    case Merging(_, _, _, _) => if r.merge.Some? { MergeCompensated(codec, scope, v, e, a, w, r, cur, b); }
    case Directory(_) => if r.made { DirectoryCompensated(codec, scope, v, e, a, w, r, cur, b); }
    case Pull(_) => ImageCompensated(codec, scope, v, e, a, w, r, cur, b);
    case Build(_) => ImageCompensated(codec, scope, v, e, a, w, r, cur, b);
    case _ =>
  }

  // ---- whole runs ----

  /** Whatever is left of the world w, compensating all these receipts successfully gives back the start. */
  ghost predicate Recoverable(codec: Codec, scope: Scope, start: World, rs: seq<Entry>, w: World) {
    forall cur: World, undo: nat -> Answers ::
      Restored(codec, scope, w, cur) && RollbackAll(cur, rs, undo, codec).verdict == Done ==>
      Restored(codec, scope, start, RollbackAll(cur, rs, undo, codec).world)
  }

  lemma RecoverableStep(codec: Codec, scope: Scope, start: World, rs: seq<Entry>, v: World, e: Effect, a: Answers,
                        w: World, r: Receipt)
    requires Lawful(codec) && WellFormed(e) && InScope(scope, e) && SafeStep(v, e)
    requires Issued(v, e, a, codec, w, r)
    requires Recoverable(codec, scope, start, rs, v)
    ensures Recoverable(codec, scope, start, rs + [Entry(r, false)], w)
  {
    hide Restored, Issued, SafeStep, InScope, RollbackReceipt;
    var all := rs + [Entry(r, false)];
    forall cur: World, undo: nat -> Answers |
      Restored(codec, scope, w, cur) && RollbackAll(cur, all, undo, codec).verdict == Done
      ensures Restored(codec, scope, start, RollbackAll(cur, all, undo, codec).world)
    {
      var o := RollbackReceipt(cur, r, undo(|rs|), codec);
      assert all[..|rs|] == rs;
      Compensated(codec, scope, v, e, a, w, r, cur, undo(|rs|));
      assert Restored(codec, scope, v, o.world);
    }
  }

  /** An error that is handled leaves the world as it was, up to directories above the target. */
  lemma FailureKeeps(codec: Codec, scope: Scope, v: World, e: Effect, a: Answers)
    requires WellFormed(e) && InScope(scope, e) && ApplyEffect(v, e, a, codec).Failed?
    ensures Restored(codec, scope, v, ApplyEffect(v, e, a, codec).world)
  {
    hide MB.WriteBlock, MB.Block, MergeAt, RootOf, ReadRegular, SameContent, TextAt, Kept;
    FailureShape(v, e, a, codec);
    var w := ApplyEffect(v, e, a, codec).world;
    KeptSame(codec, scope, v, w, e);
  }

  lemma FailureShape(v: World, e: Effect, a: Answers, codec: Codec)
    requires WellFormed(e) && !e.Custom? && ApplyEffect(v, e, a, codec).Failed?
    ensures var w := ApplyEffect(v, e, a, codec).world;
            w.keychain == v.keychain && w.images == v.images &&
            (w.files != v.files ==>
               (e.OwnedBlock? || e.Merging? || e.Directory?) && w.files == WithParents(v.files, e.path))
  {
    hide MB.WriteBlock, MB.Block, MergeAt, RootOf, ReadRegular, WithParents, CanPlace;
  }

  lemma KeptSame(codec: Codec, scope: Scope, v: World, w: World, e: Effect)
    requires InScope(scope, e)
    requires w.files != v.files ==>
             (e.OwnedBlock? || e.Merging? || e.Directory?) && w.files == WithParents(v.files, e.path)
    ensures FilesRestored(codec, scope, v.files, w.files)
  {
    hide SameContent, TextAt;
  }

  /** Every block step that the run reaches is safe in the world it meets. */
  predicate SafeRun(w: World, es: seq<Effect>, k: nat, env: Environment, codec: Codec)
    requires k <= |es| && forall e :: e in es ==> WellFormed(e)
    decreases |es| - k
  {
    k < |es| && env.apply(k).consent ==>
      SafeStep(w, es[k]) &&
      match ApplyEffect(w, es[k], env.apply(k), codec)
      case Applied(v, _, _) => SafeRun(v, es, k + 1, env, codec)
      case _ => true
  }

  predicate SaysRestored(s: Status) {
    s == Cancelled || s == RolledBack || s == VerificationFailed
  }

  lemma AbandonSound(codec: Codec, scope: Scope, start: World, rs: seq<Entry>, w: World, cur: World,
                     status: Status, env: Environment)
    requires Recoverable(codec, scope, start, rs, w) && Restored(codec, scope, w, cur)
    ensures var r := Abandon(cur, rs, status, env, codec);
            r.Returned? && r.record.status != RollbackIncomplete ==>
              r.record.receipts == [] && Restored(codec, scope, start, r.world)
  {
  }

  lemma {:induction false} EffectsSound(codec: Codec, scope: Scope, start: World, w: World, es: seq<Effect>, k: nat,
                                        rs: seq<Entry>, changed: bool, env: Environment)
    requires Lawful(codec) && k <= |es|
    requires forall e :: e in es ==> WellFormed(e) && InScope(scope, e)
    requires SafeRun(w, es, k, env, codec)
    requires Recoverable(codec, scope, start, rs, w)
    ensures var r := ApplyEffects(w, es, k, rs, changed, env, codec);
            r.Returned? && SaysRestored(r.record.status) ==>
              r.record.receipts == [] && Restored(codec, scope, start, r.world)
    decreases |es| - k
  {
    hide Restored, Recoverable, SafeStep, InScope, ApplyEffect, Abandon;
    if k < |es| {
      if !env.apply(k).consent {
        SameTextSelf(codec, scope, w);
        AbandonSound(codec, scope, start, rs, w, w, Cancelled, env);
      } else {
        var e, a := es[k], env.apply(k);
        match ApplyEffect(w, e, a, codec)
        case Applied(v, receipt, c) =>
          RecoverableStep(codec, scope, start, rs, w, e, a, v, receipt);
          EffectsSound(codec, scope, start, v, es, k + 1, rs + [Entry(receipt, false)], changed || c, env);
        case Failed(v) =>
          FailureKeeps(codec, scope, w, e, a);
          AbandonSound(codec, scope, start, rs, w, v, FailureStatus(e), env);
        case FailedOwing(v, receipt) =>
          RecoverableStep(codec, scope, start, rs, w, e, a, v, receipt);
          SameTextSelf(codec, scope, v);
          AbandonSound(codec, scope, start, rs + [Entry(receipt, false)], v, v, FailureStatus(e), env);
        case Escaped(v) =>
      }
    }
  }

  /** What the plan may touch. */
  function ScopeOf(es: seq<Effect>): Scope {
    Scope(set i, p | 0 <= i < |es| && p in Targets(es[i]) :: p,
          set i | 0 <= i < |es| && es[i].Build? :: es[i].tag)
  }

  function Targets(e: Effect): set<Path> {
    match e
    case OwnedBlock(p, _, _) => Above(p)
    case Merging(p, _, _, _) => Above(p)
    case Directory(p) => Above(p)
    case _ => {}
  }

  /** Whenever a run of any plan without custom scripts, under any answers of the tools and the operator, returns
      a record that says it was cancelled, rolled back or failed verification, the record carries no receipts and
      the world is as it was: the same Keychain and image tags, the same files up to trailing newlines and
      hollow JSON objects. Left behind are at most directories above targets and new images under tags built over. */
  lemma RolledBackIsRestored(w: World, es: seq<Effect>, gates: Gates, env: Environment, codec: Codec)
    requires Lawful(codec)
    requires forall e :: e in es ==> WellFormed(e) && !e.Custom?
    requires SafeRun(w, es, 0, env, codec)
    ensures var r := ApplySetupPlan(w, es, gates, env, codec);
            r.Returned? && SaysRestored(r.record.status) ==>
              r.record.receipts == [] && Restored(codec, ScopeOf(es), w, r.world)
  {
    hide Restored, ApplyEffects, SafeRun;
    var scope := ScopeOf(es);
    SameTextSelf(codec, scope, w);
    assert Recoverable(codec, scope, w, [], w) by { StartRecoverable(codec, scope, w); }
    forall e | e in es ensures InScope(scope, e) {
      var i :| 0 <= i < |es| && es[i] == e;
      assert forall p :: p in Targets(es[i]) ==> p in scope.above;
    }
    EffectsSound(codec, scope, w, w, es, 0, [], false, env);
  }

  lemma StartRecoverable(codec: Codec, scope: Scope, w: World)
    ensures Recoverable(codec, scope, w, [], w)
  {
  }
}
