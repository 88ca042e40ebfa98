/** Undoing a record again, after an undo that was incomplete, changes nothing more. */
module Replay {
  import opened Text
  import opened JsonMerge
  import opened World
  import opened Runtime
  import opened Soundness
  import opened Completeness
  import MB = ManagedBlock
  import BS = BlockSites

  /** Everything above an entry is a directory. */
  predicate WellRooted(fs: Files) {
    forall q :: q in fs ==> Above(q) <= fs.Keys && CanPlace(fs, q)
  }

  /** Nothing is left for the compensation of this receipt to do. */
  predicate Inert(w: World, e: Entry, codec: Codec) {
    e.compensated ||
    match e.receipt
    case KeychainReceipt(item, created, replaced) => created && !replaced ==> item !in w.keychain
    case BlockReceipt(p, marker, Some(c)) =>
      (match ReadRegular(w.files, p)
       case Content(text, _, _) => MB.UndoBlock(text, MB.FenceOf(marker), c.installed, c.prior) == MB.Refused
       case _ => true)
    case MergeReceipt(p, Some(c)) => MergeInert(w.files, p, c, codec)
    case DirectoryReceipt(p, true) => !EmptyDir(w.files, p)
    case BuildReceipt(tag, _, preexisting) => !preexisting ==> tag !in w.images
    case _ => true
  }

  /** The value is gone or was changed; or it was null, which reads like a missing value, and is gone. */
  predicate MergeInert(fs: Files, p: Path, c: MergeChange, codec: Codec) {
    c.replaced || c.keys == [] || (c.frozen && HasList(c.installed)) ||
    match ReadRegular(fs, p)
    case Content(text, _, mode) =>
      ParsedObject(codec, text).None? ||
      (match UnmergeAt(ParsedObject(codec, text).value, c.keys, c.installed)
       case None => true
       case Some(root) =>
         !(root == map[] && !c.fileExisted) && p in fs && fs[p] == File(codec.render(root), ModeOf(c.mode)))
    case _ => true
  }

  lemma PlaceSame(fs: Files, p: Path)
    requires p in fs && Above(p) <= fs.Keys
    ensures Place(fs, p, fs[p]) == fs
  {
  }

  /** An inert receipt is compensated without touching the world. */
  lemma InertChangesNothing(w: World, e: Entry, a: Answers, codec: Codec)
    requires Inert(w, e, codec) && WellRooted(w.files)
    ensures Rollback(w, e, a, codec).world == w
  {
    hide MB.UndoBlock, UnmergeAt, MB.FenceOf, ParsedObject, HasList;
    if !e.compensated && e.receipt.MergeReceipt? && e.receipt.merge.Some? && e.receipt.path in w.files {
      PlaceSame(w.files, e.receipt.path);
    }
  }

  // ---- what the receipts of one record must have to do with each other ----

  /** The receipt has something of a file or directory to compensate. */
  predicate Active(e: Entry) {
    !e.compensated &&
    match e.receipt
    case BlockReceipt(_, _, block) => block.Some?
    case MergeReceipt(_, merge) => merge.Some?
    case DirectoryReceipt(_, made) => made
    case _ => false
  }

  function OwnerOf(r: Receipt): BS.Owner
    requires r.BlockReceipt? && r.block.Some?
  {
    BS.Owner(MB.FenceOf(r.marker), r.block.value.installed, r.block.value.prior)
  }

  /** Receipts of one record are for different files, for blocks of different owners or for values at diverging paths;
      and no earlier receipt lies under a directory made later. */
  predicate DistinctTargets(rs: seq<Entry>) {
    forall i, j :: 0 <= i < j < |rs| ==> Distinct(rs[i], rs[j])
  }

  predicate Distinct(earlier: Entry, later: Entry) {
    Active(earlier) && Active(later) ==>
      (earlier.receipt.path == later.receipt.path ==> Shared(earlier.receipt, later.receipt)) &&
      (later.receipt.DirectoryReceipt? ==> later.receipt.path !in Above(earlier.receipt.path))
  }

  predicate Shared(earlier: Receipt, later: Receipt) {
    (earlier.BlockReceipt? && later.BlockReceipt? && earlier.block.Some? && later.block.Some? &&
     BS.Strangers(OwnerOf(earlier), OwnerOf(later))) ||
    (earlier.MergeReceipt? && later.MergeReceipt? && earlier.merge.Some? && later.merge.Some? &&
     SharedFile(earlier.merge.value, later.merge.value))
  }

  /** Two values in one file; the later step found the file the earlier one left. */
  predicate SharedFile(earlier: MergeChange, later: MergeChange) {
    Diverge(earlier.keys, later.keys) && later.fileExisted && ModeOf(later.mode) == ModeOf(earlier.mode)
  }

  /** What can be checked before an undo: in the files of the record each owner's opening line occurs once at most, a
      block that is found ends with its closing line, and no block lies inside another one. */
  predicate AllReplayable(w: World, rs: seq<Entry>) {
    (forall i :: 0 <= i < |rs| ==> Laid(w.files, rs[i])) &&
    (forall i, j :: 0 <= i < j < |rs| ==> LaidApart(w.files, rs[i], rs[j]))
  }

  predicate ActiveBlock(e: Entry) {
    Active(e) && e.receipt.BlockReceipt?
  }

  predicate Laid(fs: Files, e: Entry) {
    ActiveBlock(e) && ReadRegular(fs, e.receipt.path).Content? ==>
      BS.Site(Split(ReadRegular(fs, e.receipt.path).text), OwnerOf(e.receipt))
  }

  predicate LaidApart(fs: Files, a: Entry, b: Entry) {
    ActiveBlock(a) && ActiveBlock(b) && a.receipt.path == b.receipt.path && ReadRegular(fs, a.receipt.path).Content? ==>
      BS.Unnested(Split(ReadRegular(fs, a.receipt.path).text), OwnerOf(a.receipt), OwnerOf(b.receipt))
  }

  // ---- records of runs share files as asked ----

  /** The file a merge wrote is there, with the mode it had or was given. */
  predicate ModesKept(fs: Files, rs: seq<Entry>) {
    forall i :: 0 <= i < |rs| ==> ModeKept(fs, rs[i].receipt)
  }

  predicate ModeKept(fs: Files, r: Receipt) {
    r.MergeReceipt? && r.merge.Some? ==>
      r.path in fs && fs[r.path].File? && fs[r.path].mode == ModeOf(r.merge.value.mode)
  }

  predicate FoundLater(earlier: Receipt, later: Receipt) {
    earlier.MergeReceipt? && later.MergeReceipt? && earlier.merge.Some? && later.merge.Some? &&
      earlier.path == later.path ==>
      later.merge.value.fileExisted && ModeOf(later.merge.value.mode) == ModeOf(earlier.merge.value.mode)
  }

  predicate FilesShared(rs: seq<Entry>) {
    forall i, j :: 0 <= i < j < |rs| ==> FoundLater(rs[i].receipt, rs[j].receipt)
  }

  lemma IssuedLater(v: World, e: Effect, a: Answers, codec: Codec, w: World, r: Receipt, earlier: Receipt)
    requires WellFormed(e) && Issued(v, e, a, codec, w, r) && ModeKept(v.files, earlier)
    ensures ModeKept(w.files, earlier) && ModeKept(w.files, r) && FoundLater(earlier, r)
  {
    hide MB.WriteBlock, MB.Block, MergeAt, RootOf, MB.FenceOf;
  }

  /** Of two merges of one file in a record, the later one found the file as the earlier one left it. */
  lemma {:induction false} RecordsShareFiles(w: World, es: seq<Effect>, k: nat, rs: seq<Entry>, changed: bool,
                                             env: Environment, codec: Codec)
    requires k <= |es| && forall e :: e in es ==> WellFormed(e)
    requires ModesKept(w.files, rs) && FilesShared(rs)
    ensures var r := ApplyEffects(w, es, k, rs, changed, env, codec);
            r.Returned? ==> FilesShared(r.record.receipts)
    decreases |es| - k
  {
    hide ApplyEffect, RollbackAll, ModeKept, FoundLater;
    assert FilesShared(Freeze(rs)) by { FrozenShared(rs); }
    if k < |es| && env.apply(k).consent {
      var s := ApplyEffect(w, es[k], env.apply(k), codec);
      if s.Applied? || s.FailedOwing? {
        var all := rs + [Entry(s.receipt, false)];
        SharedStep(w, es[k], env.apply(k), codec, s.world, s.receipt, rs);
        FrozenShared(all);
        if s.Applied? { RecordsShareFiles(s.world, es, k + 1, all, changed || s.changed, env, codec); }
      }
    }
  }

  lemma SharedStep(v: World, e: Effect, a: Answers, codec: Codec, w: World, r: Receipt, rs: seq<Entry>)
    requires WellFormed(e) && Issued(v, e, a, codec, w, r) && ModesKept(v.files, rs) && FilesShared(rs)
    ensures ModesKept(w.files, rs + [Entry(r, false)]) && FilesShared(rs + [Entry(r, false)])
  {
    hide Issued, ModeKept, FoundLater;
    IssuedLater(v, e, a, codec, w, r, NoticeReceipt) by { NoticeKept(v.files); }
    forall i | 0 <= i < |rs| ensures ModeKept(w.files, rs[i].receipt) && FoundLater(rs[i].receipt, r) {
      IssuedLater(v, e, a, codec, w, r, rs[i].receipt);
    }
  }

  lemma NoticeKept(fs: Files)
    ensures ModeKept(fs, NoticeReceipt)
  {
  }

  lemma FrozenShared(rs: seq<Entry>)
    requires FilesShared(rs)
    ensures FilesShared(Freeze(rs))
  {
    forall i, j | 0 <= i < j < |rs| ensures FoundLater(Freeze(rs)[i].receipt, Freeze(rs)[j].receipt) {
      assert FoundLater(rs[i].receipt, rs[j].receipt);
    }
  }

  // ---- one compensation ----

  lemma {:induction false} UnmergeAgain(o: Fields, keys: seq<string>, v: Json)
    requires keys != [] && UnmergeAt(o, keys, v).Some?
    ensures var r := UnmergeAt(o, keys, v).value;
            UnmergeAt(r, keys, v) == if v == Null then Some(r) else None
    decreases |keys|
  {
    if |keys| == 1 {
      assert (o - {keys[0]}) - {keys[0]} == o - {keys[0]};
    } else {
      UnmergeAgain(o[keys[0]].fields, keys[1..], v);
      var c := UnmergeAt(o[keys[0]].fields, keys[1..], v).value;
      var r := o[keys[0] := Object(c)];
      assert r[keys[0] := Object(c)] == r;
    }
  }

  /** Taking out one value does not change whether another one, at a diverging path, can be taken out; where that one
      takes out nothing, it still does not. */
  lemma {:induction false} UnmergeOther(o: Fields, k: seq<string>, v: Json, l: seq<string>, u: Json)
    requires k != [] && l != [] && Diverge(k, l) && UnmergeAt(o, k, v).Some?
    ensures var r := UnmergeAt(o, k, v).value;
            (UnmergeAt(o, l, u).None? ==> UnmergeAt(r, l, u).None?) &&
            (UnmergeAt(o, l, u) == Some(o) ==> UnmergeAt(r, l, u) == Some(r))
    decreases |k|
  {
    var r := UnmergeAt(o, k, v).value;
    if k[0] == l[0] {
      TailDiverges(k, l);
      var c := o[k[0]].fields;
      UnmergeOther(c, k[1..], v, l[1..], u);
      if UnmergeAt(o, l, u) == Some(o) { SameChild(o, l, u); }
      var d := UnmergeAt(c, k[1..], v).value;
      assert r[l[0]] == Object(d) && r[l[0] := Object(d)] == r;
    } else {
      assert Get(r, l[0]) == Get(o, l[0]) && (l[0] in r <==> l[0] in o);
      if UnmergeAt(o, l, u) == Some(o) && |l| > 1 { SameChild(o, l, u); }
      if UnmergeAt(o, l, u) == Some(o) && |l| == 1 { assert l[0] !in o - {l[0]}; assert r - {l[0]} == r; }
    }
  }

  lemma SameChild(o: Fields, l: seq<string>, u: Json)
    requires |l| > 1 && UnmergeAt(o, l, u) == Some(o)
    ensures Get(o, l[0]).Object? && UnmergeAt(o[l[0]].fields, l[1..], u) == Some(o[l[0]].fields)
    ensures forall r: Fields :: l[0] in r && r[l[0]] == o[l[0]] ==> UnmergeAt(r, l, u) == Some(r)
  {
    var c := UnmergeAt(o[l[0]].fields, l[1..], u).value;
    assert o[l[0] := Object(c)][l[0]] == Object(c);
    forall r: Fields | l[0] in r && r[l[0]] == o[l[0]] ensures UnmergeAt(r, l, u) == Some(r) {
      assert r[l[0] := Object(c)] == r;
    }
  }

  /** A compensation, done or refused, leaves its receipt inert and the files well rooted. */
  lemma CompensationMakesInert(w: World, e: Entry, a: Answers, codec: Codec)
    requires Lawful(codec) && WellRooted(w.files) && Laid(w.files, e) && Working(a)
    requires Rollback(w, e, a, codec).verdict != Threw
    ensures var o := Rollback(w, e, a, codec);
            Inert(o.world, e, codec) && WellRooted(o.world.files)
  {
    hide MB.UndoBlock, UnmergeAt, MB.FenceOf, ParsedObject, HasList, BS.Site, MB.Block;
    if !e.compensated {
      match e.receipt
      case BlockReceipt(p, marker, Some(c)) => BlockInert(w, p, marker, c, a);
      case MergeReceipt(p, Some(c)) => MergeMakesInert(w, p, c, a, codec);
      case DirectoryReceipt(p, true) =>
        if EmptyDir(w.files, p) { RemoveRooted(w.files, p); }
      case _ =>
    }
  }

  lemma RemoveRooted(fs: Files, p: Path)
    requires WellRooted(fs) && p in fs && forall q :: q in fs ==> p !in Above(q)
    ensures WellRooted(fs - {p})
  {
  }

  lemma FileIsLeaf(fs: Files, p: Path)
    requires WellRooted(fs) && p in fs && fs[p] != Dir
    ensures forall q :: q in fs ==> p !in Above(q)
  {
  }

  lemma RewriteRooted(fs: Files, p: Path, n: Node)
    requires WellRooted(fs) && p in fs && fs[p] != Dir
    ensures WellRooted(Place(fs, p, n))
    ensures forall q :: q != p ==> NodeAt(Place(fs, p, n), q) == NodeAt(fs, q)
  {
  }

  /** A rewrite of an existing file with working tools. */
  lemma RewriteEffect(w: World, p: Path, text: string, mode: Option<nat>, remove: bool, a: Answers)
    requires WellRooted(w.files) && p in w.files && w.files[p].File? && Working(a)
    ensures var o := Rewrite(w, p, text, mode, remove, a);
            o.verdict == Done && WellRooted(o.world.files) && o.world.keychain == w.keychain &&
              o.world.images == w.images &&
            (forall q :: q != p ==> NodeAt(o.world.files, q) == NodeAt(w.files, q)) &&
            NodeAt(o.world.files, p) == (if remove then None else Some(File(text, ModeOf(mode))))
  {
    if remove {
      FileIsLeaf(w.files, p);
      RemoveRooted(w.files, p);
    } else {
      RewriteRooted(w.files, p, File(text, ModeOf(mode)));
    }
  }

  /** The text of a file before and after one owner's block was compensated in it. */
  predicate TextStep(was: Files, now: Files, p: Path, o: BS.Owner) {
    ReadRegular(now, p) == ReadRegular(was, p) ||
    (ReadRegular(was, p).Content? && ReadRegular(now, p).Content? && BS.Undo(ReadRegular(was, p).text, o).Undone? &&
     ReadRegular(now, p).text == BS.Undo(ReadRegular(was, p).text, o).text)
  }

  lemma BlockTextStep(w: World, p: Path, marker: string, c: BlockChange, a: Answers)
    requires WellRooted(w.files) && Working(a) && BlockUndo(w, p, marker, c, a).verdict != Threw
    requires Laid(w.files, Entry(BlockReceipt(p, marker, Some(c)), false))
    ensures var o := BlockUndo(w, p, marker, c, a);
            var owner := BS.Owner(MB.FenceOf(marker), c.installed, c.prior);
            WellRooted(o.world.files) && TextStep(w.files, o.world.files, p, owner) &&
            (ReadRegular(w.files, p).Content? && BS.Undo(ReadRegular(w.files, p).text, owner).Undone? ==>
               ReadRegular(o.world.files, p).Content? &&
               ReadRegular(o.world.files, p).text == BS.Undo(ReadRegular(w.files, p).text, owner).text) &&
            (forall q :: q != p ==> NodeAt(o.world.files, q) == NodeAt(w.files, q))
  {
    hide MB.FenceOf, MB.UndoBlock, WellRooted, Rewrite, BS.Site, Translate;
    var f := MB.FenceOf(marker);
    EmptyRefuses(f, c);
    var reading := ReadRegular(w.files, p);
    if reading.Content? && MB.UndoBlock(reading.text, f, c.installed, c.prior).Undone? {
      ReadHasNone(w.files, p);
      BS.UndoneIsRead(reading.text, BS.Owner(f, c.installed, c.prior));
      var u := MB.UndoBlock(reading.text, f, c.installed, c.prior);
      RewriteEffect(w, p, u.text, c.mode, u.text == "" && !c.fileExisted, a);
    }
  }

  lemma BlockInert(w: World, p: Path, marker: string, c: BlockChange, a: Answers)
    requires WellRooted(w.files) && Working(a)
    requires Laid(w.files, Entry(BlockReceipt(p, marker, Some(c)), false))
    requires BlockUndo(w, p, marker, c, a).verdict != Threw
    ensures var o := BlockUndo(w, p, marker, c, a);
            WellRooted(o.world.files) && Laid(o.world.files, Entry(BlockReceipt(p, marker, Some(c)), false)) &&
            match ReadRegular(o.world.files, p)
            case Content(text, _, _) => MB.UndoBlock(text, MB.FenceOf(marker), c.installed, c.prior) == MB.Refused
            case _ => true
  {
    hide MB.FenceOf, MB.UndoBlock, BS.Site, WellRooted, Rewrite;
    var owner := BS.Owner(MB.FenceOf(marker), c.installed, c.prior);
    BlockTextStep(w, p, marker, c, a);
    var reading := ReadRegular(w.files, p);
    if reading.Content? && BS.Undo(reading.text, owner).Undone? { BS.UndoOnce(reading.text, owner); }
  }

  lemma EmptyRefuses(f: MB.Fence, c: BlockChange)
    ensures MB.UndoBlock("", f, c.installed, c.prior) == MB.Refused
  {
  }

  lemma MergeMakesInert(w: World, p: Path, c: MergeChange, a: Answers, codec: Codec)
    requires Lawful(codec) && WellRooted(w.files) && Working(a)
    ensures var o := MergeUndo(w, p, c, a, codec);
            WellRooted(o.world.files) && MergeInert(o.world.files, p, c, codec)
  {
    hide UnmergeAt, ParsedObject, HasList, Rewrite, Translate;
    NothingParses(codec);
    var reading := ReadRegular(w.files, p);
    if !c.replaced && reading.Content? && ParsedObject(codec, reading.text).Some? && c.keys != [] &&
       !(c.frozen && HasList(c.installed)) {
      var found := ParsedObject(codec, reading.text).value;
      if UnmergeAt(found, c.keys, c.installed).Some? {
        var root := UnmergeAt(found, c.keys, c.installed).value;
        UnmergeAgain(found, c.keys, c.installed);
        RenderedRoot(codec, root);
        RewriteEffect(w, p, codec.render(root), c.mode, root == map[] && !c.fileExisted, a);
      }
    }
  }

  lemma NothingParses(codec: Codec)
    requires Lawful(codec)
    ensures ParsedObject(codec, "") == None
  {
  }

  /** Compensating another receipt leaves an inert receipt inert. */
  lemma InertStays(w: World, e: Entry, other: Entry, a: Answers, codec: Codec)
    requires Lawful(codec) && WellRooted(w.files) && Inert(w, e, codec) && Working(a)
    requires Distinct(other, e) && Laid(w.files, e) && Laid(w.files, other) && LaidApart(w.files, other, e)
    requires Rollback(w, other, a, codec).verdict != Threw
    ensures Inert(Rollback(w, other, a, codec).world, e, codec)
  {
    if Active(e) && Active(other) && e.receipt.path == other.receipt.path {
      InertInFile(w, e, other, a, codec);
    } else {
      InertElsewhere(w, e, other, a, codec);
    }
  }

  lemma InertInFile(w: World, e: Entry, other: Entry, a: Answers, codec: Codec)
    requires Lawful(codec) && WellRooted(w.files) && Inert(w, e, codec) && Working(a)
    requires Laid(w.files, e) && Laid(w.files, other) && LaidApart(w.files, other, e)
    requires Active(e) && Active(other) && e.receipt.path == other.receipt.path && Shared(other.receipt, e.receipt)
    requires Rollback(w, other, a, codec).verdict != Threw
    ensures Inert(Rollback(w, other, a, codec).world, e, codec)
  {
    hide MB.UndoBlock, UnmergeAt, MB.FenceOf, ParsedObject, HasList, BS.Site, BS.Unnested, BS.Strangers, WellRooted,
         Working,
         BlockUndo, MergeUndo, MergeInert, SharedFile, Lawful;
    if e.receipt.BlockReceipt? {
      BlockTextStep(w, other.receipt.path, other.receipt.marker, other.receipt.block.value, a);
      var reading := ReadRegular(w.files, e.receipt.path);
      if reading.Content? && BS.Undo(reading.text, OwnerOf(other.receipt)).Undone? {
        BS.OtherSiteStays(reading.text, OwnerOf(other.receipt), OwnerOf(e.receipt));
      }
    } else {
      MergeInertStays(w, e.receipt.path, e.receipt.merge.value, other.receipt.merge.value, a, codec);
    }
  }

  lemma MergeInertStays(w: World, p: Path, c: MergeChange, k: MergeChange, a: Answers, codec: Codec)
    requires Lawful(codec) && WellRooted(w.files) && Working(a)
    requires MergeInert(w.files, p, c, codec) && SharedFile(k, c)
    ensures MergeInert(MergeUndo(w, p, k, a, codec).world.files, p, c, codec)
  {
    hide UnmergeAt, ParsedObject, HasList, Rewrite, Diverge, WellRooted, Translate;
    NothingParses(codec);
    var reading := ReadRegular(w.files, p);
    if !k.replaced && reading.Content? && ParsedObject(codec, reading.text).Some? && k.keys != [] &&
       !(k.frozen && HasList(k.installed)) {
      var found := ParsedObject(codec, reading.text).value;
      if UnmergeAt(found, k.keys, k.installed).Some? {
        var root := UnmergeAt(found, k.keys, k.installed).value;
        RenderedRoot(codec, root);
        RewriteEffect(w, p, codec.render(root), k.mode, root == map[] && !k.fileExisted, a);
        if c.keys != [] {
          UnmergeOther(found, k.keys, k.installed, c.keys, c.installed);
          if UnmergeAt(found, c.keys, c.installed).Some? {
            RenderedRoot(codec, UnmergeAt(found, c.keys, c.installed).value);
          }
        }
      }
    }
  }

  lemma InertElsewhere(w: World, e: Entry, other: Entry, a: Answers, codec: Codec)
    requires Lawful(codec) && WellRooted(w.files) && Inert(w, e, codec) && Working(a)
    requires Distinct(other, e) && !(Active(e) && Active(other) && e.receipt.path == other.receipt.path)
    requires Rollback(w, other, a, codec).verdict != Threw
    ensures Inert(Rollback(w, other, a, codec).world, e, codec)
  {
    hide Rollback, Lawful, WellRooted, Working, MB.UndoBlock, UnmergeAt, MB.FenceOf, ParsedObject, HasList, EmptyDir,
         Shared;
    var o := Rollback(w, other, a, codec);
    OtherPaths(w, other, a, codec);
    if Active(e) {
      assert NodeAt(o.world.files, e.receipt.path) == NodeAt(w.files, e.receipt.path);
    }
    if Active(e) && e.receipt.DirectoryReceipt? {
      var changed := if Active(other) then Some(other.receipt.path) else None;
      DirectoryStaysFull(w.files, o.world.files, e.receipt.path, changed);
    }
  }

  /** A compensation changes at most its own path. */
  lemma OtherPaths(w: World, e: Entry, a: Answers, codec: Codec)
    requires Lawful(codec) && WellRooted(w.files) && Working(a) && Rollback(w, e, a, codec).verdict != Threw
    ensures var o := Rollback(w, e, a, codec);
            o.world.keychain.Keys <= w.keychain.Keys && o.world.images.Keys <= w.images.Keys &&
            (forall q :: (Active(e) ==> q != e.receipt.path) ==> NodeAt(o.world.files, q) == NodeAt(w.files, q))
  {
    hide MB.UndoBlock, UnmergeAt, MB.FenceOf, ParsedObject, HasList, Rewrite;
    if !e.compensated {
      match e.receipt
      case BlockReceipt(p, marker, Some(c)) =>
        if p in w.files && w.files[p].File? {
          var u := MB.UndoBlock(TextOf(w.files[p]), MB.FenceOf(marker), c.installed, c.prior);
          if u.Undone? { RewriteEffect(w, p, u.text, c.mode, u.text == "" && !c.fileExisted, a); }
        } else {
          EmptyRefuses(MB.FenceOf(marker), c);
        }
      case MergeReceipt(p, Some(c)) =>
        NothingParses(codec);
        if p in w.files && w.files[p].File? && ParsedObject(codec, TextOf(w.files[p])).Some? && c.keys != [] {
          var root := UnmergeAt(ParsedObject(codec, TextOf(w.files[p])).value, c.keys, c.installed);
          if root.Some? {
            RewriteEffect(w, p, codec.render(root.value), c.mode, root.value == map[] && !c.fileExisted, a);
          }
        }
      case _ =>
    }
  }

  lemma DirectoryStaysFull(was: Files, now: Files, d: Path, changed: Option<Path>)
    requires !EmptyDir(was, d)
    requires forall q :: changed != Some(q) ==> NodeAt(now, q) == NodeAt(was, q)
    requires changed.Some? ==> changed.value != d && d !in Above(changed.value)
    ensures !EmptyDir(now, d)
  {
    assert NodeAt(now, d) == NodeAt(was, d);
    if d in was && was[d] == Dir {
      var q :| q in was && d in Above(q);
      assert NodeAt(now, q) == NodeAt(was, q);
    }
  }

  // ---- the whole record ----

  predicate AllInert(w: World, rs: seq<Entry>, from: nat, codec: Codec) {
    forall i :: from <= i < |rs| ==> Inert(w, rs[i], codec)
  }

  /** Compensating the first n receipts leaves those inert and the later ones inert. */
  lemma {:induction false} UndoMakesInert(w: World, rs: seq<Entry>, n: nat, undo: nat -> Answers, codec: Codec)
    requires Lawful(codec) && n <= |rs| && WellRooted(w.files) && DistinctTargets(rs) && AllReplayable(w, rs)
    requires AllInert(w, rs, n, codec) && (forall i :: 0 <= i < n ==> Working(undo(i)))
    requires RollbackAll(w, rs[..n], undo, codec).verdict != Threw
    ensures var o := RollbackAll(w, rs[..n], undo, codec);
            AllInert(o.world, rs, 0, codec) && WellRooted(o.world.files)
    decreases n
  {
    hide Rollback, Inert, Laid, LaidApart, WellRooted, Distinct, Working, Lawful;
    if n > 0 {
      var m := n - 1;
      assert rs[..n][m] == rs[m] && rs[..n][..m] == rs[..m];
      var o := Rollback(w, rs[m], undo(m), codec);
      CompensationMakesInert(w, rs[m], undo(m), codec);
      forall i | m <= i < |rs|
        ensures Inert(o.world, rs[i], codec)
      {
        if i > m { InertStays(w, rs[i], rs[m], undo(m), codec); }
      }
      ReplayableStays(w, rs, m, undo(m), codec);
      UndoMakesInert(o.world, rs, m, undo, codec);
    }
  }

  lemma ReplayableStays(w: World, rs: seq<Entry>, m: nat, a: Answers, codec: Codec)
    requires Lawful(codec) && WellRooted(w.files) && Working(a) && m < |rs| && DistinctTargets(rs)
    requires Rollback(w, rs[m], a, codec).verdict != Threw
    requires AllReplayable(w, rs)
    ensures AllReplayable(Rollback(w, rs[m], a, codec).world, rs)
  {
    hide Rollback, Laid, LaidApart, Distinct, WellRooted, Working, Lawful;
    var o := Rollback(w, rs[m], a, codec);
    if ActiveBlock(rs[m]) { FilesStep(w, rs[m], a, codec); } else { OtherPaths(w, rs[m], a, codec); }
    forall i | 0 <= i < |rs| ensures Laid(o.world.files, rs[i]) {
      if ActiveBlock(rs[m]) {
        if i != m { assert LaidApart(w.files, rs[m], rs[i]) by { ApartEitherWay(w.files, rs, m, i); } }
        LaidStays(w.files, o.world.files, rs, m, i);
      } else {
        SameTexts(w.files, o.world.files, rs, m, i);
        LaidSame(w.files, o.world.files, rs[i]);
      }
    }
    forall i, j | 0 <= i < j < |rs| ensures LaidApart(o.world.files, rs[i], rs[j]) {
      if ActiveBlock(rs[m]) {
        PairStays(w.files, o.world.files, rs, m, i, j);
      } else {
        SameTexts(w.files, o.world.files, rs, m, i);
        ApartSame(w.files, o.world.files, rs[i], rs[j]);
      }
    }
  }

  /** The files before and after an owner's block was compensated. */
  ghost predicate StepOf(was: Files, now: Files, e: Entry) {
    ActiveBlock(e) && TextStep(was, now, e.receipt.path, OwnerOf(e.receipt)) &&
    forall q :: q != e.receipt.path ==> NodeAt(now, q) == NodeAt(was, q)
  }

  lemma FilesStep(w: World, e: Entry, a: Answers, codec: Codec)
    requires WellRooted(w.files) && Working(a) && ActiveBlock(e) && Rollback(w, e, a, codec).verdict != Threw
    requires Laid(w.files, e)
    ensures StepOf(w.files, Rollback(w, e, a, codec).world.files, e)
  {
    hide WellRooted, Working, BlockUndo, TextStep;
    BlockTextStep(w, e.receipt.path, e.receipt.marker, e.receipt.block.value, a);
  }

  lemma ApartEitherWay(fs: Files, rs: seq<Entry>, m: nat, i: nat)
    requires m < |rs| && i < |rs| && i != m
    requires forall i, j :: 0 <= i < j < |rs| ==> LaidApart(fs, rs[i], rs[j])
    ensures LaidApart(fs, rs[m], rs[i])
  {
    hide BS.Where;
    if i < m { assert LaidApart(fs, rs[i], rs[m]); }
  }

  /** Two active blocks of one file belong to strangers. */
  lemma AreStrangers(rs: seq<Entry>, m: nat, i: nat)
    requires DistinctTargets(rs) && m < |rs| && i < |rs| && i != m
    requires ActiveBlock(rs[m]) && ActiveBlock(rs[i]) && rs[m].receipt.path == rs[i].receipt.path
    ensures BS.Strangers(OwnerOf(rs[m].receipt), OwnerOf(rs[i].receipt))
  {
    hide BS.Strange;
    if i < m { assert Distinct(rs[i], rs[m]); } else { assert Distinct(rs[m], rs[i]); }
  }

  lemma LaidStays(was: Files, now: Files, rs: seq<Entry>, m: nat, i: nat)
    requires DistinctTargets(rs) && m < |rs| && i < |rs| && StepOf(was, now, rs[m])
    requires Laid(was, rs[m]) && Laid(was, rs[i]) && (i != m ==> LaidApart(was, rs[m], rs[i]))
    ensures Laid(now, rs[i])
    ensures i != m ==> LaidApart(now, rs[m], rs[i])
  {
    hide BS.Site, BS.Undo, BS.Strangers, BS.Unnested, DistinctTargets;
    var p := rs[m].receipt.path;
    if ActiveBlock(rs[i]) && rs[i].receipt.path == p {
      if ReadRegular(now, p) != ReadRegular(was, p) {
        var text, o := ReadRegular(was, p).text, OwnerOf(rs[m].receipt);
        if i == m {
          BS.UndoOnce(text, o);
        } else {
          AreStrangers(rs, m, i);
          BS.OtherSiteStays(text, o, OwnerOf(rs[i].receipt));
        }
      }
    } else if ActiveBlock(rs[i]) {
      assert NodeAt(now, rs[i].receipt.path) == NodeAt(was, rs[i].receipt.path);
    }
  }

  lemma PairStays(was: Files, now: Files, rs: seq<Entry>, m: nat, i: nat, j: nat)
    requires DistinctTargets(rs) && m < |rs| && i < j < |rs| && StepOf(was, now, rs[m])
    requires forall i :: 0 <= i < |rs| ==> Laid(was, rs[i])
    requires forall i, j :: 0 <= i < j < |rs| ==> LaidApart(was, rs[i], rs[j])
    ensures LaidApart(now, rs[i], rs[j])
  {
    hide BS.Site, BS.Undo, BS.Strangers, BS.Unnested, DistinctTargets, Laid, LaidApart, StepOf;
    if i == m {
      ApartEitherWay(was, rs, m, j);
      LaidStays(was, now, rs, m, j);
    } else if j == m {
      ApartEitherWay(was, rs, m, i);
      LaidStays(was, now, rs, m, i);
      ApartTurned(now, rs[m], rs[i]);
    } else {
      ApartEitherWay(was, rs, m, i);
      ApartEitherWay(was, rs, m, j);
      OthersApart(was, now, rs, m, i, j);
    }
  }

  lemma ApartTurned(fs: Files, a: Entry, b: Entry)
    requires LaidApart(fs, a, b)
    ensures LaidApart(fs, b, a)
  {
    hide BS.Where;
  }

  lemma OthersApart(was: Files, now: Files, rs: seq<Entry>, m: nat, i: nat, j: nat)
    requires DistinctTargets(rs) && m < |rs| && i < j < |rs| && i != m && j != m && StepOf(was, now, rs[m])
    requires Laid(was, rs[m]) && Laid(was, rs[i]) && Laid(was, rs[j])
    requires LaidApart(was, rs[m], rs[i]) && LaidApart(was, rs[m], rs[j]) && LaidApart(was, rs[i], rs[j])
    ensures LaidApart(now, rs[i], rs[j])
  {
    hide BS.Site, BS.Undo, BS.Strangers, BS.Unnested, DistinctTargets;
    var p := rs[m].receipt.path;
    if ActiveBlock(rs[i]) && ActiveBlock(rs[j]) && rs[i].receipt.path == rs[j].receipt.path {
      if rs[i].receipt.path == p {
        if ReadRegular(now, p) != ReadRegular(was, p) {
          AreStrangers(rs, m, i);
          AreStrangers(rs, m, j);
          BS.OthersStayApart(ReadRegular(was, p).text, OwnerOf(rs[m].receipt), OwnerOf(rs[i].receipt),
                             OwnerOf(rs[j].receipt));
        }
      } else {
        assert NodeAt(now, rs[i].receipt.path) == NodeAt(was, rs[i].receipt.path);
      }
    }
  }

  /** A compensation of something else than a block leaves the text of every file with blocks. */
  lemma SameTexts(was: Files, now: Files, rs: seq<Entry>, m: nat, i: nat)
    requires DistinctTargets(rs) && m < |rs| && i < |rs| && !ActiveBlock(rs[m])
    requires forall q :: (Active(rs[m]) ==> q != rs[m].receipt.path) ==> NodeAt(now, q) == NodeAt(was, q)
    ensures ActiveBlock(rs[i]) ==> ReadRegular(now, rs[i].receipt.path) == ReadRegular(was, rs[i].receipt.path)
  {
    hide BS.Strangers;
    if ActiveBlock(rs[i]) {
      assert i != m;
      if i < m { assert Distinct(rs[i], rs[m]); } else { assert Distinct(rs[m], rs[i]); }
      assert NodeAt(now, rs[i].receipt.path) == NodeAt(was, rs[i].receipt.path);
    }
  }

  lemma LaidSame(was: Files, now: Files, e: Entry)
    requires ActiveBlock(e) ==> ReadRegular(now, e.receipt.path) == ReadRegular(was, e.receipt.path)
    requires Laid(was, e)
    ensures Laid(now, e)
  {
  }

  lemma ApartSame(was: Files, now: Files, a: Entry, b: Entry)
    requires ActiveBlock(a) ==> ReadRegular(now, a.receipt.path) == ReadRegular(was, a.receipt.path)
    requires LaidApart(was, a, b)
    ensures LaidApart(now, a, b)
  {
  }

  lemma {:induction false} InertUndo(w: World, rs: seq<Entry>, undo: nat -> Answers, codec: Codec)
    requires WellRooted(w.files) && AllInert(w, rs, 0, codec)
    ensures RollbackAll(w, rs, undo, codec).world == w
    decreases |rs|
  {
    hide Rollback, Inert, WellRooted;
    if rs != [] {
      var n := |rs| - 1;
      InertChangesNothing(w, rs[n], undo(n), codec);
      assert forall i :: 0 <= i < n ==> rs[..n][i] == rs[i];
      InertUndo(w, rs[..n], undo, codec);
    }
  }

  /** Undoing the record that an incomplete undo left behind changes nothing: with distinct targets, in files that may
      be shared by several owners' blocks or several values, working tools the first time and nothing else touching
      the world, the second undo leaves the world as the first one left it, whatever its own answers are. */
  lemma SecondUndoChangesNothing(w: World, record: Record, first: nat -> Answers, second: nat -> Answers, codec: Codec)
    requires Lawful(codec) && WellRooted(w.files)
    requires DistinctTargets(record.receipts) && AllReplayable(w, record.receipts)
    requires forall i :: 0 <= i < |record.receipts| ==> Working(first(i))
    requires RollbackRecord(w, record, first, codec).Returned?
    ensures var r := RollbackRecord(w, record, first, codec);
            RollbackRecord(r.world, r.record, second, codec).world == r.world &&
            (r.record.status == Skipped ==>
             RollbackRecord(r.world, r.record, second, codec).record == Record(Skipped, []))
  {
    hide WellRooted, DistinctTargets, Working, Inert, Rollback;
    var rs := record.receipts;
    assert rs[..|rs|] == rs;
    UndoMakesInert(w, rs, |rs|, first, codec);
    var r := RollbackRecord(w, record, first, codec);
    InertUndo(r.world, rs, second, codec);
  }
}
