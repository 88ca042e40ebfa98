/** When nothing but the run touches the world, abandoning a run compensates every step. */
module Completeness {
  import opened Text
  import opened JsonMerge
  import opened World
  import opened Runtime
  import opened Soundness
  import MB = ManagedBlock
  import RT = RoundTrips
  import SB = SafeBlocks

  /** Directories above every entry are entries. */
  predicate Rooted(fs: Files) {
    forall q :: q in fs ==> Above(q) <= fs.Keys
  }

  /** The tools do what they are asked while the run is compensated. */
  predicate Working(a: Answers) {
    a.readable && a.writable && a.deleteOk && a.removeOk
  }

  /** A Keychain tool that reports success has stored something. */
  predicate Truthful(a: Answers) {
    a.addOk ==> a.addStores.Some?
  }

  predicate Reversible(w: World, e: Effect) {
    match e
    case Keychain(_, replaceExisting) => !replaceExisting
    case Merging(_, _, _, replaceExisting) => !replaceExisting
    case Pull(image) => image in w.images       // a new image is never removed
    case Custom(_) => false
    case _ => true
  }

  predicate WritesFile(e: Effect) {
    e.OwnedBlock? || e.Merging?
  }

  predicate HasPath(e: Effect) {
    e.OwnedBlock? || e.Merging? || e.Directory?
  }

  predicate PlanMakes(es: seq<Effect>, d: Path) {
    exists i :: 0 <= i < |es| && es[i] == Directory(d)
  }

  /** The target lies under a directory that the plan makes, not being there at the start. */
  predicate Under(start: Files, es: seq<Effect>, p: Path) {
    exists d :: d in Above(p) && PlanMakes(es, d) && d !in start
  }

  // ---- what the receipts still rely on ----

  predicate UnderMade(rs: seq<Entry>, p: Path) {
    exists i :: 0 <= i < |rs| && rs[i].receipt.DirectoryReceipt? && rs[i].receipt.made && rs[i].receipt.path in Above(p)
  }

  predicate ChangesFile(r: Receipt) {
    (r.BlockReceipt? && r.block.Some?) || (r.MergeReceipt? && r.merge.Some?)
  }

  predicate CreatesFile(r: Receipt) {
    (r.BlockReceipt? && r.block.Some? && !r.block.value.fileExisted) ||
    (r.MergeReceipt? && r.merge.Some? && !r.merge.value.fileExisted)
  }

  predicate LeafThere(fs: Files, r: Receipt, codec: Codec) {
    r.MergeReceipt? && r.merge.Some? ==>
      var c := r.merge.value;
      c.keys != [] && r.path in fs && fs[r.path].File? &&
      ParsedObject(codec, TextOf(fs[r.path])).Some? &&
      Lookup(ParsedObject(codec, TextOf(fs[r.path])).value, c.keys) == Some(c.installed)
  }

  predicate LeavesThere(fs: Files, rs: seq<Entry>, codec: Codec) {
    forall i :: 0 <= i < |rs| ==> LeafThere(fs, rs[i].receipt, codec)
  }

  predicate FilesThere(fs: Files, rs: seq<Entry>) {
    forall i :: 0 <= i < |rs| && ChangesFile(rs[i].receipt) ==> rs[i].receipt.path in fs && fs[rs[i].receipt.path].File?
  }

  /** Under a directory the run made there is nothing but what was there after the last remaining step. */
  predicate Tidy(w: Files, rs: seq<Entry>, cur: Files) {
    forall q :: q in cur && UnderMade(rs, q) ==> q in w
  }

  /** Files that the run created under such a directory are exactly as they were written. */
  predicate CreatedIntact(w: Files, rs: seq<Entry>, cur: Files) {
    forall i :: 0 <= i < |rs| && CreatesFile(rs[i].receipt) && UnderMade(rs, rs[i].receipt.path) ==>
      NodeAt(cur, rs[i].receipt.path) == NodeAt(w, rs[i].receipt.path)
  }

  predicate Undisturbed(w: World, rs: seq<Entry>, cur: World, codec: Codec) {
    LeavesThere(cur.files, rs, codec) && Tidy(w.files, rs, cur.files) && CreatedIntact(w.files, rs, cur.files)
  }

  /** Every compensation succeeds, whatever residue later compensations left. */
  ghost predicate Ready(codec: Codec, scope: Scope, rs: seq<Entry>, w: World) {
    forall cur: World, undo: nat -> Answers ::
      Restored(codec, scope, w, cur) && Undisturbed(w, rs, cur, codec) &&
      (forall i :: 0 <= i < |rs| ==> Working(undo(i))) ==>
      RollbackAll(cur, rs, undo, codec).verdict == Done
  }

  /** How a new step must relate to the steps before it. */
  predicate Independent(rs: seq<Entry>, e: Effect) {
    forall i :: 0 <= i < |rs| ==> IndependentOf(rs, rs[i].receipt, e)
  }

  predicate IndependentOf(rs: seq<Entry>, r: Receipt, e: Effect) {
    WritesFile(e) && ChangesFile(r) && r.path == e.path ==>
      (e.OwnedBlock? ==> r.BlockReceipt?) && (e.Merging? ==> r.MergeReceipt? && Diverge(e.keys, r.merge.value.keys)) &&
      (CreatesFile(r) && UnderMade(rs, r.path) ==> e.Merging?)
  }

  /** Under a directory of the run, targets have their directory already and values go to the root of their file. */
  predicate Neat(v: World, rs: seq<Entry>, e: Effect) {
    HasPath(e) && UnderMade(rs, e.path) ==>
      Above(e.path) <= v.files.Keys && (e.Merging? ==> |e.keys| == 1)
  }

  /** The text of a JSON file that the run created is the rendering of its object, with the mode of new files. */
  predicate Rendered(fs: Files, p: Path, codec: Codec) {
    p in fs && fs[p].File? && fs[p].mode == PRIVATE_MODE && ParsedObject(codec, TextOf(fs[p])).Some? &&
    codec.render(ParsedObject(codec, TextOf(fs[p])).value) == fs[p].text
  }

  predicate AllRendered(fs: Files, rs: seq<Entry>, codec: Codec) {
    forall i :: 0 <= i < |rs| && CreatesFile(rs[i].receipt) && rs[i].receipt.MergeReceipt? ==>
      Rendered(fs, rs[i].receipt.path, codec)
  }

  /** What holds of the files while the run goes forward. */
  predicate Grounded(w: World, rs: seq<Entry>, codec: Codec) {
    Rooted(w.files) && FilesThere(w.files, rs) && LeavesThere(w.files, rs, codec) && AllRendered(w.files, rs, codec)
  }

  /** A block step that can surely be undone. */
  predicate SureStep(w: World, e: Effect) {
    e.OwnedBlock? ==>
      match ReadRegular(w.files, e.path)
      case Content(text, _, _) => SB.SureBlock(text, MB.FenceOf(e.marker), e.content)
      case _ => true
  }

  // ---- one compensation ----

  lemma UnderMadeGrows(rs: seq<Entry>, r: Receipt, q: Path)
    requires UnderMade(rs, q)
    ensures UnderMade(rs + [Entry(r, false)], q)
  {
    var all := rs + [Entry(r, false)];
    var i :| 0 <= i < |rs| && rs[i].receipt.DirectoryReceipt? && rs[i].receipt.made && rs[i].receipt.path in Above(q);
    assert all[i] == rs[i];
  }

  lemma UndisturbedPrefix(w: World, rs: seq<Entry>, r: Receipt, cur: World, codec: Codec)
    requires Undisturbed(w, rs + [Entry(r, false)], cur, codec)
    ensures Undisturbed(w, rs, cur, codec)
  {
    hide UnderMade, LeafThere;
    var all := rs + [Entry(r, false)];
    assert forall i :: 0 <= i < |rs| ==> all[i] == rs[i];
    forall q | q in cur.files && UnderMade(rs, q) ensures q in w.files {
      UnderMadeGrows(rs, r, q);
    }
    forall i | 0 <= i < |rs| && CreatesFile(rs[i].receipt) && UnderMade(rs, rs[i].receipt.path)
      ensures NodeAt(cur.files, rs[i].receipt.path) == NodeAt(w.files, rs[i].receipt.path)
    {
      UnderMadeGrows(rs, r, rs[i].receipt.path);
      assert all[i] == rs[i];
    }
  }

  lemma AboveIsUnder(rs: seq<Entry>, q: Path, p: Path)
    requires q in Above(p) && UnderMade(rs, q)
    ensures UnderMade(rs, p)
  {
    var i :| 0 <= i < |rs| && rs[i].receipt.DirectoryReceipt? && rs[i].receipt.made && rs[i].receipt.path in Above(q);
    var d := rs[i].receipt.path;
    var m :| 0 <= m < |p| && q == p[..m];
    var n :| 0 <= n < |q| && d == q[..n];
    assert d == p[..n];
  }

  /** Undoing one placed node keeps the rest of the world undisturbed. */
  lemma StillTidy(v: Files, p: Path, n: Node, rs: seq<Entry>, cur: Files, after: Files)
    requires CanPlace(v, p) && Tidy(Place(v, p, n), rs, cur) && CreatedIntact(Place(v, p, n), rs, cur)
    requires after.Keys <= cur.Keys && forall q :: q != p ==> NodeAt(after, q) == NodeAt(cur, q)
    requires UnderMade(rs, p) ==> Above(p) <= v.Keys && (p !in v ==> p !in after)
    requires FilesThere(v, rs)
    requires forall i :: 0 <= i < |rs| && CreatesFile(rs[i].receipt) && UnderMade(rs, rs[i].receipt.path) ==>
               rs[i].receipt.path != p || NodeAt(after, p) == NodeAt(v, p)
    ensures Tidy(v, rs, after) && CreatedIntact(v, rs, after)
  {
    hide UnderMade;
    forall q | q in after && UnderMade(rs, q)
      ensures q in v
    {
      if q in Above(p) { AboveIsUnder(rs, q, p); }
    }
    forall i | 0 <= i < |rs| && CreatesFile(rs[i].receipt) && UnderMade(rs, rs[i].receipt.path)
      ensures NodeAt(after, rs[i].receipt.path) == NodeAt(v, rs[i].receipt.path)
    {
      var q := rs[i].receipt.path;
      if q != p { assert q in v && NodeAt(after, q) == NodeAt(cur, q); }
    }
  }

  lemma DirsAbove(codec: Codec, scope: Scope, v: Files, p: Path, n: Node, cur: Files)
    requires CanPlace(v, p) && FilesRestored(codec, scope, Place(v, p, n), cur)
    ensures Above(p) <= cur.Keys && CanPlace(cur, p)
  {
    var placed := Place(v, p, n);
    forall q | q in Above(p)
      ensures q in cur && cur[q] == Dir
    {
      assert q != p;
      assert Kept(codec, scope, q, NodeAt(placed, q), NodeAt(cur, q));
    }
  }

  /** The files after a rewrite or a removal. */
  lemma RewriteDone(cur: World, p: Path, text: string, mode: Option<nat>, remove: bool, b: Answers)
    requires b.writable && p in cur.files && Above(p) <= cur.files.Keys && CanPlace(cur.files, p)
    ensures var o := Rewrite(cur, p, text, mode, remove, b);
            o.verdict == Done && o.world.files.Keys <= cur.files.Keys &&
            (forall q :: q != p ==> NodeAt(o.world.files, q) == NodeAt(cur.files, q)) &&
            (remove ==> p !in o.world.files) &&
            (!remove ==> p in o.world.files && o.world.files[p] == File(text, ModeOf(mode)))
  {
  }

  lemma LeavesElsewhere(cur: Files, after: Files, p: Path, rs: seq<Entry>, codec: Codec)
    requires LeavesThere(cur, rs, codec)
    requires forall q :: q != p ==> NodeAt(after, q) == NodeAt(cur, q)
    requires forall i :: 0 <= i < |rs| && rs[i].receipt.MergeReceipt? && rs[i].receipt.path == p ==>
               LeafThere(after, rs[i].receipt, codec)
    ensures LeavesThere(after, rs, codec)
  {
    hide Lookup, ParsedObject;
    forall i | 0 <= i < |rs|
      ensures LeafThere(after, rs[i].receipt, codec)
    {
      var r := rs[i].receipt;
      assert LeafThere(cur, r, codec);
      if r.MergeReceipt? && r.path != p {
        assert NodeAt(after, r.path) == NodeAt(cur, r.path);
      }
    }
  }

  lemma BlockReady(codec: Codec, scope: Scope, rs: seq<Entry>, v: World, e: Effect, a: Answers, w: World, r: Receipt,
                   cur: World, b: Answers)
    requires Lawful(codec) && e.OwnedBlock? && InScope(scope, e) && SafeStep(v, e) && SureStep(v, e)
    requires r.BlockReceipt? && r.block.Some? && Issued(v, e, a, codec, w, r)
    requires FilesThere(v.files, rs) && Independent(rs, e) && Neat(v, rs, e)
    requires Restored(codec, scope, w, cur) && Undisturbed(w, rs + [Entry(r, false)], cur, codec) && Working(b)
    ensures var o := RollbackReceipt(cur, r, b, codec);
            o.verdict == Done && Undisturbed(v, rs, o.world, codec)
  {
    hide MB.WriteBlock, MB.UndoBlock, MB.Block, SB.SafeBlock, SB.SureBlock, RootOf, ParsedObject, Chomp, Restored,
         FilesRestored, UnderMade, LeafThere, Tidy, CreatedIntact, Diverge, Rewrite, MB.FenceOf, Translate, Issued,
           ApplyEffect;
    IssuedBlock(v, e, a, codec, w, r);
    var p, f := e.path, MB.FenceOf(e.marker);
    var reading := ReadRegular(v.files, p);
    var c := r.block.value;
    var wb := MB.WriteBlock(reading.text, f, e.content);
    var placed := File(wb.text, ModeOf(reading.mode));
    UndisturbedPrefix(w, rs, r, cur, codec);
    BlockStillThere(codec, scope, v, e, a, w, r, cur);
    DirsAboveWorld(codec, scope, v, p, placed, w, cur);
    var u := MB.UndoBlock(TextOf(cur.files[p]), f, c.installed, c.prior);
    var remove := u.text == "" && !c.fileExisted;
    RewriteDone(cur, p, u.text, c.mode, remove, b);
    var o := Rewrite(cur, p, u.text, c.mode, remove, b);
    BlockUndoIs(cur, p, e.marker, c, b, u);
    if UnderMade(rs, p) && p !in v.files {
      UnderMadeGrows(rs, r, p);
      OwnIntact(w, rs, r, cur);
      BlockVanishes(v, e, wb, c);
    }
    StillTidy(v.files, p, placed, rs, cur.files, o.world.files);
    LeavesElsewhere(cur.files, o.world.files, p, rs, codec) by {
      NoMergeHere(rs, e, cur.files, o.world.files, codec);
    }
  }

  lemma BlockUndoIs(cur: World, p: Path, marker: string, c: BlockChange, b: Answers, u: MB.BlockUndo)
    requires p in cur.files && cur.files[p].File? && b.readable
    requires u == MB.UndoBlock(TextOf(cur.files[p]), MB.FenceOf(marker), c.installed, c.prior) && u.Undone?
    ensures BlockUndo(cur, p, marker, c, b) == Rewrite(cur, p, u.text, c.mode, u.text == "" && !c.fileExisted, b)
  {
    hide MB.UndoBlock, Rewrite;
  }

  /** Receipts of merges of the same file: there are none when the new step writes a block, unless unchanged. */
  lemma NoMergeHere(rs: seq<Entry>, e: Effect, cur: Files, after: Files, codec: Codec)
    requires Independent(rs, e) && e.OwnedBlock?
    ensures forall i :: 0 <= i < |rs| && rs[i].receipt.MergeReceipt? && rs[i].receipt.path == e.path ==>
              LeafThere(after, rs[i].receipt, codec)
  {
  }

  lemma DirsAboveWorld(codec: Codec, scope: Scope, v: World, p: Path, n: Node, w: World, cur: World)
    requires w.files == Place(v.files, p, n) && CanPlace(v.files, p) && Restored(codec, scope, w, cur)
    ensures Above(p) <= cur.files.Keys && CanPlace(cur.files, p)
  {
    DirsAbove(codec, scope, v.files, p, n, cur.files);
  }

  lemma OwnIntact(w: World, rs: seq<Entry>, r: Receipt, cur: World)
    requires CreatedIntact(w.files, rs + [Entry(r, false)], cur.files)
    requires CreatesFile(r) && UnderMade(rs + [Entry(r, false)], r.path)
    ensures NodeAt(cur.files, r.path) == NodeAt(w.files, r.path)
  {
    hide UnderMade;
    var all := rs + [Entry(r, false)];
    assert all[|rs|].receipt == r;
  }

  lemma BlockVanishes(v: World, e: Effect, wb: MB.BlockWrite, c: BlockChange)
    requires e.OwnedBlock? && SafeStep(v, e) && SureStep(v, e) && e.path !in v.files
    requires wb == MB.WriteBlock("", MB.FenceOf(e.marker), e.content) && wb.Written?
    requires c.installed == MB.Block(MB.FenceOf(e.marker), e.content) && c.prior == wb.prior
    ensures MB.UndoBlock(Translate(wb.text), MB.FenceOf(e.marker), c.installed, c.prior) == MB.Undone("")
  {
    hide MB.UndoBlock, MB.Block, MB.Fresh, MB.FenceOf, RT.Removable, MB.ReplaceSpan, MB.Begins, Translate;
    var f := MB.FenceOf(e.marker);
    assert Split("") == [""];
    RT.FreshIsWritten("", f, e.content);
    RT.FreshReadsBack("", f, e.content);
  }

  lemma MergeReady(codec: Codec, scope: Scope, rs: seq<Entry>, v: World, e: Effect, a: Answers, w: World, r: Receipt,
                   cur: World, b: Answers)
    requires Lawful(codec) && e.Merging? && !e.replaceExisting && WellFormed(e) && InScope(scope, e)
    requires r.MergeReceipt? && r.merge.Some? && Issued(v, e, a, codec, w, r)
    requires FilesThere(v.files, rs) && AllRendered(v.files, rs, codec) && Independent(rs, e) && Neat(v, rs, e)
    requires Restored(codec, scope, w, cur) && Undisturbed(w, rs + [Entry(r, false)], cur, codec) && Working(b)
    ensures var o := RollbackReceipt(cur, r, b, codec);
            o.verdict == Done && Undisturbed(v, rs, o.world, codec)
  {
    hide MergeAt, UnmergeAt, Lookup, RootOf, ParsedObject, Restored, FilesRestored, UnderMade, LeafThere,
         Tidy, CreatedIntact, Diverge, Rewrite, Translate, Issued, ApplyEffect;
    IssuedMerge(v, e, a, codec, w, r);
    var p := e.path;
    var reading := ReadRegular(v.files, p);
    var old_ := RootOf(codec, reading.text).value;
    var m := MergeAt(old_, e.keys, e.value, e.replaceExisting);
    var c := r.merge.value;
    var placed := File(codec.render(m.root), ModeOf(reading.mode));
    UndisturbedPrefix(w, rs, r, cur, codec);
    OwnLeaf(cur.files, rs, r, codec);
    var found := ParsedObject(codec, TextOf(cur.files[p])).value;
    UnmergeExactly(found, c.keys, c.installed);
    var root := UnmergeAt(found, c.keys, c.installed).value;
    DirsAboveWorld(codec, scope, v, p, placed, w, cur);
    var remove := root == map[] && !c.fileExisted;
    RewriteDone(cur, p, codec.render(root), c.mode, remove, b);
    var o := Rewrite(cur, p, codec.render(root), c.mode, remove, b);
    NotReplaced(old_, e.keys, e.value);
    MergeUndoIs(cur, p, c, b, codec, found, root);
    if UnderMade(rs, p) && p !in v.files {
      UnderMadeGrows(rs, r, p);
      OwnIntact(w, rs, r, cur);
      RenderedRoot(codec, m.root);
      SingleKeyVanishes(codec, v, e, m, c);
    }
    forall i | 0 <= i < |rs| && CreatesFile(rs[i].receipt) && UnderMade(rs, rs[i].receipt.path) &&
      rs[i].receipt.path == p
      ensures NodeAt(o.world.files, p) == NodeAt(v.files, p)
    {
      assert IndependentOf(rs, rs[i].receipt, e);
      CreatedStays(codec, rs, i, v, e, w, r, cur, m, found, root);
    }
    StillTidy(v.files, p, placed, rs, cur.files, o.world.files);
    forall i | 0 <= i < |rs| && rs[i].receipt.MergeReceipt? && rs[i].receipt.path == p
      ensures LeafThere(o.world.files, rs[i].receipt, codec)
    {
      assert IndependentOf(rs, rs[i].receipt, e);
      assert LeafThere(cur.files, rs[i].receipt, codec);
      OtherLeaf(codec, cur.files, o.world.files, rs[i].receipt, e, found, root, c, remove);
    }
    LeavesElsewhere(cur.files, o.world.files, p, rs, codec);
  }

  /** Undoing a later value of a file that the run created under such a directory gives the file as the earlier step
      left it. */
  lemma CreatedStays(codec: Codec, rs: seq<Entry>, i: nat, v: World, e: Effect, w: World, r: Receipt, cur: World,
                     m: Merge, found: Fields, root: Fields)
    requires Lawful(codec) && e.Merging? && |e.keys| == 1
    requires i < |rs| && CreatesFile(rs[i].receipt) && UnderMade(rs, rs[i].receipt.path) && rs[i].receipt.path == e.path
    requires rs[i].receipt.MergeReceipt? && AllRendered(v.files, rs, codec)
    requires m == MergeAt(RootOf(codec, TextOf(v.files[e.path])).value, e.keys, e.value, false) && m.Merged? &&
             !m.replaced
    requires NodeAt(w.files, e.path) == Some(File(codec.render(m.root), PRIVATE_MODE))
    requires CreatedIntact(w.files, rs, cur.files) && e.path in cur.files && cur.files[e.path].File?
    requires ParsedObject(codec, TextOf(cur.files[e.path])) == Some(found) &&
             UnmergeAt(found, e.keys, e.value) == Some(root)
    ensures v.files[e.path] == File(codec.render(root), PRIVATE_MODE)
  {
    hide UnderMade, MergeAt, UnmergeAt, ParsedObject;
    assert Rendered(v.files, e.path, codec);
    var o := ParsedObject(codec, TextOf(v.files[e.path])).value;
    RenderedRoot(codec, o);
    RenderedRoot(codec, m.root);
    MergeThenUnmerge(o, e.keys, e.value, false);
  }

  lemma OwnLeaf(cur: Files, rs: seq<Entry>, r: Receipt, codec: Codec)
    requires LeavesThere(cur, rs + [Entry(r, false)], codec) && r.MergeReceipt? && r.merge.Some?
    ensures r.path in cur && cur[r.path].File? && r.merge.value.keys != []
    ensures ParsedObject(codec, TextOf(cur[r.path])).Some?
    ensures Lookup(ParsedObject(codec, TextOf(cur[r.path])).value, r.merge.value.keys) == Some(r.merge.value.installed)
  {
    hide Lookup, ParsedObject;
    assert (rs + [Entry(r, false)])[|rs|].receipt == r;
    assert LeafThere(cur, r, codec);
  }

  lemma NotReplaced(o: Fields, keys: seq<string>, value: Json)
    requires keys != []
    ensures MergeAt(o, keys, value, false).Merged? ==> !MergeAt(o, keys, value, false).replaced
  {
    hide MergeAt, Lookup;
    MergeInstalls(o, keys, value, false);
    CollisionExactly(o, keys, value, false);
    if MergeAt(o, keys, value, false).Merged? && Lookup(o, keys) == Some(value) {
      SameWhenThere(o, keys, value);
    }
  }

  lemma {:induction false} SameWhenThere(o: Fields, keys: seq<string>, value: Json)
    requires keys != [] && Lookup(o, keys) == Some(value)
    ensures MergeAt(o, keys, value, false) == Same
    decreases |keys|
  {
    if |keys| > 1 {
      SameWhenThere(o[keys[0]].fields, keys[1..], value);
    }
  }

  lemma MergeUndoIs(cur: World, p: Path, c: MergeChange, b: Answers, codec: Codec, found: Fields, root: Fields)
    requires p in cur.files && cur.files[p].File? && b.readable && !c.replaced && c.keys != [] && !c.frozen
    requires ParsedObject(codec, TextOf(cur.files[p])) == Some(found)
    requires UnmergeAt(found, c.keys, c.installed) == Some(root)
    ensures MergeUndo(cur, p, c, b, codec)
         == Rewrite(cur, p, codec.render(root), c.mode, root == map[] && !c.fileExisted, b)
  {
    hide UnmergeAt, Rewrite, ParsedObject;
  }

  lemma SingleKeyVanishes(codec: Codec, v: World, e: Effect, m: Merge, c: MergeChange)
    requires e.Merging? && |e.keys| == 1
    requires m == MergeAt(RootOf(codec, "").value, e.keys, e.value, false) && RootOf(codec, "").Some? && m.Merged?
    requires c.keys == e.keys && c.installed == e.value
    ensures UnmergeAt(m.root, c.keys, c.installed) == Some(map[])
  {
  }

  lemma OtherLeaf(codec: Codec, cur: Files, after: Files, r: Receipt, e: Effect, found: Fields, root: Fields,
                  c: MergeChange, remove: bool)
    requires Lawful(codec) && e.Merging? && r.MergeReceipt? && r.path == e.path && c.keys == e.keys && e.keys != []
    requires e.path in cur && cur[e.path].File? && ParsedObject(codec, TextOf(cur[e.path])) == Some(found)
    requires UnmergeAt(found, c.keys, c.installed) == Some(root)
    requires remove ==> root == map[]
    requires !remove ==> e.path in after && after[e.path].File? && after[e.path].text == codec.render(root)
    requires LeafThere(cur, r, codec)
    requires r.merge.Some? ==> Diverge(e.keys, r.merge.value.keys)
    ensures LeafThere(after, r, codec)
  {
    hide UnmergeAt;
    if r.merge.Some? {
      var k := r.merge.value;
      UnmergeFrame(found, c.keys, c.installed, k.keys);
      RenderedRoot(codec, root);
      assert Lookup(root, k.keys) == Some(k.installed);
    }
  }

  lemma DirectoryReady(codec: Codec, scope: Scope, rs: seq<Entry>, v: World, e: Effect, a: Answers, w: World,
                       r: Receipt,
                       cur: World, b: Answers)
    requires e.Directory? && InScope(scope, e)
    requires r.DirectoryReceipt? && r.made && Issued(v, e, a, codec, w, r)
    requires Rooted(v.files) && FilesThere(v.files, rs) && Neat(v, rs, e)
    requires Restored(codec, scope, w, cur) && Undisturbed(w, rs + [Entry(r, false)], cur, codec) && Working(b)
    ensures var o := RollbackReceipt(cur, r, b, codec);
            o.verdict == Done && Undisturbed(v, rs, o.world, codec)
  {
    hide UnderMade, LeafThere, CreatedIntact, FilesRestored;
    var p := e.path;
    UndisturbedPrefix(w, rs, r, cur, codec);
    assert p in cur.files && cur.files[p] == Dir by {
      RestoredAt(codec, scope, w, cur, p);
      assert NodeAt(w.files, p) == Some(Dir);
    }
    forall q | q in cur.files
      ensures p !in Above(q)
    {
      if p in Above(q) {
        OwnUnder(rs, r, q);
        assert q in w.files;
        NotBothAbove(p, q);
      }
    }
    var o := RollbackReceipt(cur, r, b, codec);
    StillTidy(v.files, p, Dir, rs, cur.files, o.world.files);
    forall i | 0 <= i < |rs| && rs[i].receipt.MergeReceipt? && rs[i].receipt.path == p
      ensures LeafThere(o.world.files, rs[i].receipt, codec)
    {
      NotADirectory(rs, i, cur.files, o.world.files, p, codec);
    }
    LeavesElsewhere(cur.files, o.world.files, p, rs, codec);
  }

  lemma NotADirectory(rs: seq<Entry>, i: nat, cur: Files, after: Files, p: Path, codec: Codec)
    requires i < |rs| && LeavesThere(cur, rs, codec) && p in cur && cur[p] == Dir
    requires rs[i].receipt.MergeReceipt? && rs[i].receipt.path == p
    ensures LeafThere(after, rs[i].receipt, codec)
  {
  }

  lemma OwnUnder(rs: seq<Entry>, r: Receipt, q: Path)
    requires r.DirectoryReceipt? && r.made && r.path in Above(q)
    ensures UnderMade(rs + [Entry(r, false)], q)
  {
    assert (rs + [Entry(r, false)])[|rs|].receipt == r;
  }

  lemma NotBothAbove(p: Path, q: Path)
    requires p in Above(q)
    ensures q !in Above(p) && q != p
  {
  }

  /** The compensation of one step succeeds, and leaves what the earlier steps rely on. */
  lemma StepReady(codec: Codec, scope: Scope, rs: seq<Entry>, v: World, e: Effect, a: Answers, w: World, r: Receipt,
                  cur: World, b: Answers)
    requires Lawful(codec) && WellFormed(e) && InScope(scope, e) && SafeStep(v, e)
    requires Reversible(v, e) && Truthful(a) && SureStep(v, e)
    requires Issued(v, e, a, codec, w, r)
    requires Grounded(v, rs, codec) && Independent(rs, e) && Neat(v, rs, e)
    requires Restored(codec, scope, w, cur) && Undisturbed(w, rs + [Entry(r, false)], cur, codec) && Working(b)
    ensures var o := RollbackReceipt(cur, r, b, codec);
            o.verdict == Done && Undisturbed(v, rs, o.world, codec)
  {
    hide MB.WriteBlock, MergeAt, SafeStep, SureStep, FilesRestored, FilesThere, Independent, Neat, Undisturbed, Rooted,
         RootOf, AllRendered, LeavesThere;
    match e
    case OwnedBlock(_, _, _) =>
      if r.block.Some? {
        BlockReady(codec, scope, rs, v, e, a, w, r, cur, b);
      } else {
        SameFilesReady(v, rs, w, r, cur, cur, codec);
      }
    case Merging(_, _, _, _) =>
      if r.merge.Some? {
        MergeReady(codec, scope, rs, v, e, a, w, r, cur, b);
      } else {
        SameFilesReady(v, rs, w, r, cur, cur, codec);
      }
    case Directory(_) =>
      if r.made {
        DirectoryReady(codec, scope, rs, v, e, a, w, r, cur, b);
      } else {
        SameFilesReady(v, rs, w, r, cur, cur, codec);
      }
    case _ =>
      var o := RollbackReceipt(cur, r, b, codec);
      SameFilesReady(v, rs, w, r, cur, o.world, codec);
  }

  lemma SameFilesReady(v: World, rs: seq<Entry>, w: World, r: Receipt, cur: World, after: World, codec: Codec)
    requires v.files == w.files && cur.files == after.files
    requires Undisturbed(w, rs + [Entry(r, false)], cur, codec)
    ensures Undisturbed(v, rs, after, codec)
  {
    hide Tidy, CreatedIntact, LeavesThere;
    UndisturbedPrefix(w, rs, r, cur, codec);
  }

  lemma ReadyStep(codec: Codec, scope: Scope, rs: seq<Entry>, v: World, e: Effect, a: Answers, w: World, r: Receipt)
    requires Lawful(codec) && WellFormed(e) && InScope(scope, e) && SafeStep(v, e)
    requires Reversible(v, e) && Truthful(a) && SureStep(v, e)
    requires Issued(v, e, a, codec, w, r)
    requires Grounded(v, rs, codec) && Independent(rs, e) && Neat(v, rs, e)
    requires Ready(codec, scope, rs, v)
    ensures Ready(codec, scope, rs + [Entry(r, false)], w)
  {
    hide Restored, Issued, SafeStep, SureStep, InScope, RollbackReceipt, Undisturbed, Reversible, Truthful, Grounded,
         Independent, Neat, Working, Lawful;
    var all := rs + [Entry(r, false)];
    forall cur: World, undo: nat -> Answers |
      Restored(codec, scope, w, cur) && Undisturbed(w, all, cur, codec) &&
      (forall i :: 0 <= i < |all| ==> Working(undo(i)))
      ensures RollbackAll(cur, all, undo, codec).verdict == Done
    {
      assert Working(undo(|rs|));
      StepReady(codec, scope, rs, v, e, a, w, r, cur, undo(|rs|));
      Compensated(codec, scope, v, e, a, w, r, cur, undo(|rs|));
      assert all[..|rs|] == rs;
    }
  }

  // ---- whole runs ----

  predicate Belongs(r: Receipt, e: Effect) {
    match e
    case OwnedBlock(p, _, _) => r.BlockReceipt? && r.path == p
    case Merging(p, keys, _, _) => r.MergeReceipt? && r.path == p && (r.merge.Some? ==> r.merge.value.keys == keys)
    case Directory(p) => r.DirectoryReceipt? && r.path == p
    case _ => !r.BlockReceipt? && !r.MergeReceipt? && !r.DirectoryReceipt?
  }

  /** Two steps on one file either both write blocks or merge under diverging paths; in a file under a directory that
      the plan makes, only several merges are. */
  predicate Separate(start: Files, es: seq<Effect>) {
    forall i, j :: 0 <= i < j < |es| ==> SeparateSteps(start, es, es[i], es[j])
  }

  predicate SeparateSteps(start: Files, es: seq<Effect>, e: Effect, later: Effect) {
    WritesFile(e) && WritesFile(later) && e.path == later.path ==>
      (later.OwnedBlock? ==> e.OwnedBlock?) && (later.Merging? ==> e.Merging? && Diverge(later.keys, e.keys)) &&
      (Under(start, es, e.path) ==> later.Merging?)
  }

  /** Steps under such a directory find the directories above their target, and merge at the root of their file. */
  predicate NeatStep(start: Files, w: World, es: seq<Effect>, e: Effect) {
    HasPath(e) && Under(start, es, e.path) ==>
      Above(e.path) <= w.files.Keys && (e.Merging? ==> |e.keys| == 1)
  }

  predicate OrderlyRun(start: Files, w: World, es: seq<Effect>, k: nat, env: Environment, codec: Codec)
    requires k <= |es| && forall e :: e in es ==> WellFormed(e)
    decreases |es| - k
  {
    k < |es| && env.apply(k).consent ==>
      NeatStep(start, w, es, es[k]) && SureStep(w, es[k]) &&
      match ApplyEffect(w, es[k], env.apply(k), codec)
      case Applied(v, _, _) => OrderlyRun(start, v, es, k + 1, env, codec)
      case _ => true
  }

  predicate AllBelong(start: Files, rs: seq<Entry>, es: seq<Effect>, k: nat) {
    k == |rs| <= |es| && forall i :: 0 <= i < k ==> Belongs(rs[i].receipt, es[i]) && MadeLater(start, rs[i].receipt)
  }

  predicate MadeLater(start: Files, r: Receipt) {
    r.DirectoryReceipt? && r.made ==> r.path !in start
  }

  lemma StepFits(start: Files, rs: seq<Entry>, es: seq<Effect>, k: nat, w: World)
    requires AllBelong(start, rs, es, k) && k < |es| && Separate(start, es) && NeatStep(start, w, es, es[k])
    ensures Independent(rs, es[k]) && Neat(w, rs, es[k])
  {
    hide Diverge, Under, UnderMade;
    var e := es[k];
    if HasPath(e) && UnderMade(rs, e.path) { UnderMadeIsUnder(start, rs, es, e.path); }
    forall i | 0 <= i < |rs|
      ensures IndependentOf(rs, rs[i].receipt, e)
    {
      assert SeparateSteps(start, es, es[i], e) && Belongs(rs[i].receipt, es[i]);
    }
  }

  lemma UnderMadeIsUnder(start: Files, rs: seq<Entry>, es: seq<Effect>, p: Path)
    requires AllBelong(start, rs, es, |rs|) && UnderMade(rs, p)
    ensures Under(start, es, p)
  {
    var i :| 0 <= i < |rs| && rs[i].receipt.DirectoryReceipt? && rs[i].receipt.made && rs[i].receipt.path in Above(p);
    assert Belongs(rs[i].receipt, es[i]) && MadeLater(start, rs[i].receipt);
    assert PlanMakes(es, rs[i].receipt.path);
  }

  lemma PlaceRooted(fs: Files, p: Path, n: Node)
    requires Rooted(fs)
    ensures Rooted(Place(fs, p, n))
  {
    var placed := Place(fs, p, n);
    forall q | q in placed
      ensures Above(q) <= placed.Keys
    {
      if q in Above(p) {
        var m :| 0 <= m < |p| && q == p[..m];
        forall x | x in Above(q) ensures x in Above(p) {
          var l :| 0 <= l < |q| && x == q[..l];
          assert x == p[..l];
        }
      }
    }
  }

  /** Going forward, a step keeps what the receipts rely on, its own included. */
  lemma ForwardKeeps(rs: seq<Entry>, v: World, e: Effect, a: Answers, w: World, r: Receipt, codec: Codec)
    requires Lawful(codec) && WellFormed(e) && !e.Custom?
    requires Issued(v, e, a, codec, w, r)
    requires Grounded(v, rs, codec) && Independent(rs, e)
    ensures Grounded(w, rs + [Entry(r, false)], codec)
    ensures Belongs(r, e) && v.images.Keys <= w.images.Keys && v.files.Keys <= w.files.Keys && MadeLater(v.files, r)
  {
    hide Issued, Place, LeafThere, Rooted, UnderMade, Diverge, Belongs, Rendered, MadeLater;
    var all := rs + [Entry(r, false)];
    IssuedShape(v, e, a, w, r, codec);
    if w.files != v.files {
      PlaceRooted(v.files, e.path, w.files[e.path]);
    }
    forall i | 0 <= i < |all|
      ensures ChangesFile(all[i].receipt) ==> all[i].receipt.path in w.files && w.files[all[i].receipt.path].File?
      ensures LeafThere(w.files, all[i].receipt, codec)
      ensures CreatesFile(all[i].receipt) && all[i].receipt.MergeReceipt? ==>
              Rendered(w.files, all[i].receipt.path, codec)
    {
      if i < |rs| {
        assert all[i] == rs[i];
        assert LeafThere(v.files, rs[i].receipt, codec) && IndependentOf(rs, rs[i].receipt, e);
        LeafForward(v, e, a, w, r, rs[i].receipt, codec);
        if CreatesFile(rs[i].receipt) && rs[i].receipt.MergeReceipt? {
          RenderedForward(v, e, a, w, r, rs[i].receipt.path, codec);
        }
      } else {
        OwnForward(v, e, a, w, r, codec);
      }
    }
  }

  lemma RenderedForward(v: World, e: Effect, a: Answers, w: World, r: Receipt, p: Path, codec: Codec)
    requires Lawful(codec) && WellFormed(e) && Issued(v, e, a, codec, w, r)
    requires Rendered(v.files, p, codec) && (WritesFile(e) && e.path == p ==> e.Merging?)
    ensures Rendered(w.files, p, codec)
  {
    hide MB.WriteBlock, MB.Block, MergeAt, RootOf, ParsedObject;
    if e.Merging? && e.path == p && r.merge.Some? {
      var o := RootOf(codec, TextOf(v.files[p])).value;
      RenderedRoot(codec, MergeAt(o, e.keys, e.value, e.replaceExisting).root);
    }
  }

  lemma IssuedShape(v: World, e: Effect, a: Answers, w: World, r: Receipt, codec: Codec)
    requires WellFormed(e) && !e.Custom? && Issued(v, e, a, codec, w, r)
    ensures Belongs(r, e) && v.images.Keys <= w.images.Keys && v.files.Keys <= w.files.Keys && MadeLater(v.files, r)
    ensures w.files != v.files ==>
              HasPath(e) && e.path in w.files && w.files == Place(v.files, e.path, w.files[e.path]) &&
              CanPlace(v.files, e.path)
  {
    hide MB.WriteBlock, MB.Block, MergeAt, RootOf, ReadRegular, CanPlace;
  }

  lemma OwnForward(v: World, e: Effect, a: Answers, w: World, r: Receipt, codec: Codec)
    requires Lawful(codec) && WellFormed(e) && !e.Custom? && Issued(v, e, a, codec, w, r)
    ensures ChangesFile(r) ==> r.path in w.files && w.files[r.path].File?
    ensures LeafThere(w.files, r, codec)
    ensures CreatesFile(r) && r.MergeReceipt? ==> Rendered(w.files, r.path, codec)
  {
    hide Issued, ApplyEffect, LeafThere, Rendered, MB.WriteBlock, MB.Block, MergeAt, RootOf, ReadRegular, CanPlace;
    IssuedKind(v, e, a, codec, w, r);
    if e.OwnedBlock? && r.block.Some? {
      IssuedBlock(v, e, a, codec, w, r);
    } else if e.Merging? && r.merge.Some? {
      OwnMerge(v, e, a, w, r, codec);
    }
    if !r.MergeReceipt? || r.merge.None? { NoLeaf(w.files, r, codec); }
  }

  lemma NoLeaf(fs: Files, r: Receipt, codec: Codec)
    requires !r.MergeReceipt? || r.merge.None?
    ensures LeafThere(fs, r, codec)
  {
  }

  lemma OwnMerge(v: World, e: Effect, a: Answers, w: World, r: Receipt, codec: Codec)
    requires Lawful(codec) && WellFormed(e) && e.Merging? && r.MergeReceipt? && r.merge.Some? &&
             Issued(v, e, a, codec, w, r)
    ensures r.path in w.files && w.files[r.path].File? && LeafThere(w.files, r, codec)
    ensures CreatesFile(r) ==> Rendered(w.files, r.path, codec)
  {
    hide Issued, ApplyEffect, MergeAt, Lookup, RootOf, ParsedObject, CanPlace, Translate;
    IssuedMerge(v, e, a, codec, w, r);
    var o := RootOf(codec, ReadRegular(v.files, e.path).text).value;
    MergeInstalls(o, e.keys, e.value, e.replaceExisting);
    RenderedRoot(codec, MergeAt(o, e.keys, e.value, e.replaceExisting).root);
  }

  lemma LeafForward(v: World, e: Effect, a: Answers, w: World, r: Receipt, earlier: Receipt, codec: Codec)
    requires Lawful(codec) && WellFormed(e) && Issued(v, e, a, codec, w, r)
    requires ChangesFile(earlier) ==> earlier.path in v.files && v.files[earlier.path].File?
    requires LeafThere(v.files, earlier, codec)
    requires WritesFile(e) && ChangesFile(earlier) && earlier.path == e.path ==>
               (e.OwnedBlock? ==> earlier.BlockReceipt?) &&
               (e.Merging? ==> earlier.MergeReceipt? && Diverge(e.keys, earlier.merge.value.keys))
    ensures ChangesFile(earlier) ==> earlier.path in w.files && w.files[earlier.path].File?
    ensures LeafThere(w.files, earlier, codec)
  {
    hide MB.WriteBlock, MB.Block, MergeAt, Lookup, Diverge;
    if e.Merging? && earlier.MergeReceipt? && earlier.merge.Some? && earlier.path == e.path && r.merge.Some? {
      var text := TextOf(v.files[e.path]);
      assert codec.parse(text).Some?;
      assert !Blank(text);
      var o := RootOf(codec, text).value;
      var m := MergeAt(o, e.keys, e.value, e.replaceExisting);
      MergeFrame(o, e.keys, e.value, e.replaceExisting, earlier.merge.value.keys);
      RenderedRoot(codec, m.root);
    }
  }

  /** A failing step leaves everything the receipts rely on. */
  lemma FailureUndisturbed(rs: seq<Entry>, v: World, e: Effect, a: Answers, codec: Codec)
    requires WellFormed(e) && ApplyEffect(v, e, a, codec).Failed?
    requires LeavesThere(v.files, rs, codec) && FilesThere(v.files, rs) && Neat(v, rs, e)
    ensures Undisturbed(v, rs, ApplyEffect(v, e, a, codec).world, codec)
  {
    hide MB.WriteBlock, MergeAt, Lookup, RootOf, ParsedObject, UnderMade;
    var w := ApplyEffect(v, e, a, codec).world;
    forall q | q in w.files && UnderMade(rs, q) ensures q in v.files {
      if q !in v.files {
        assert q in Above(e.path);
        AboveIsUnder(rs, q, e.path);
      }
    }
    forall i | 0 <= i < |rs|
      ensures LeafThere(w.files, rs[i].receipt, codec)
      ensures ChangesFile(rs[i].receipt) ==> NodeAt(w.files, rs[i].receipt.path) == NodeAt(v.files, rs[i].receipt.path)
    {
      assert LeafThere(v.files, rs[i].receipt, codec);
    }
  }

  lemma AbandonComplete(codec: Codec, scope: Scope, rs: seq<Entry>, w: World, cur: World, status: Status,
                        env: Environment)
    requires Ready(codec, scope, rs, w) && Restored(codec, scope, w, cur) && Undisturbed(w, rs, cur, codec)
    requires forall i :: 0 <= i < |rs| ==> Working(env.undo(i))
    requires status != RollbackIncomplete
    ensures var r := Abandon(cur, rs, status, env, codec);
            r.Returned? && r.record == Record(status, [])
  {
  }

  lemma SelfUndisturbed(w: World, rs: seq<Entry>, codec: Codec)
    requires LeavesThere(w.files, rs, codec)
    ensures Undisturbed(w, rs, w, codec)
  {
  }

  lemma {:induction false} EffectsComplete(codec: Codec, scope: Scope, start: Files, w: World, es: seq<Effect>, k: nat,
                                           rs: seq<Entry>, changed: bool, env: Environment)
    requires Lawful(codec) && Separate(start, es) && AllBelong(start, rs, es, k) && start.Keys <= w.files.Keys
    requires forall e :: e in es ==> WellFormed(e) && InScope(scope, e) && !e.Custom?
    requires SafeRun(w, es, k, env, codec) && OrderlyRun(start, w, es, k, env, codec)
    requires forall i :: 0 <= i < |es| ==> Truthful(env.apply(i)) && Working(env.undo(i))
    requires forall i :: k <= i < |es| ==> Reversible(w, es[i])
    requires Grounded(w, rs, codec) && Ready(codec, scope, rs, w)
    ensures var r := ApplyEffects(w, es, k, rs, changed, env, codec);
            r.Returned? ==> r.record.status != RollbackIncomplete
    decreases |es| - k
  {
    hide Restored, Ready, SafeStep, SureStep, InScope, ApplyEffect, Abandon, Rooted, FilesThere, LeavesThere,
         AllRendered, NeatStep, Separate, Neat, Independent, Truthful, Working, Belongs, Lawful;
    if k < |es| {
      var e, a := es[k], env.apply(k);
      if !a.consent {
        SameTextSelf(codec, scope, w);
        SelfUndisturbed(w, rs, codec);
        AbandonComplete(codec, scope, rs, w, w, Cancelled, env);
      } else {
        StepFits(start, rs, es, k, w);
        match ApplyEffect(w, e, a, codec)
        case Applied(v, receipt, c) =>
          var all := rs + [Entry(receipt, false)];
          ReadyStep(codec, scope, rs, w, e, a, v, receipt);
          ForwardKeeps(rs, w, e, a, v, receipt, codec);
          forall i | k + 1 <= i < |es| ensures Reversible(v, es[i]) {
            assert Reversible(w, es[i]);
          }
          EffectsComplete(codec, scope, start, v, es, k + 1, all, changed || c, env);
        case Failed(v) =>
          FailureKeeps(codec, scope, w, e, a);
          FailureUndisturbed(rs, w, e, a, codec);
          AbandonComplete(codec, scope, rs, w, v, FailureStatus(e), env);
        case FailedOwing(v, receipt) =>
          var all := rs + [Entry(receipt, false)];
          ReadyStep(codec, scope, rs, w, e, a, v, receipt);
          ForwardKeeps(rs, w, e, a, v, receipt, codec);
          SameTextSelf(codec, scope, v);
          SelfUndisturbed(v, all, codec);
          AbandonComplete(codec, scope, all, v, v, FailureStatus(e), env);
        case Escaped(v) =>
      }
    }
  }

  /** A plan of reversible steps with separate targets, run and compensated with working tools and nothing else
      touching the world, never ends in an incomplete rollback: refused or failing at any step, every
      compensation succeeds and the world is as it was. */
  lemma RollbackAlwaysCompletes(w: World, es: seq<Effect>, gates: Gates, env: Environment, codec: Codec)
    requires Lawful(codec) && Separate(w.files, es) && Rooted(w.files)
    requires forall i :: 0 <= i < |es| ==> WellFormed(es[i]) && Reversible(w, es[i])
    requires forall e :: e in es ==> WellFormed(e) && !e.Custom?
    requires SafeRun(w, es, 0, env, codec) && OrderlyRun(w.files, w, es, 0, env, codec)
    requires forall i :: 0 <= i < |es| ==> Truthful(env.apply(i)) && Working(env.undo(i))
    requires gates.preflight != Some(RollbackIncomplete)
    ensures var r := ApplySetupPlan(w, es, gates, env, codec);
            r.Returned? ==> r.record.status != RollbackIncomplete &&
                            (SaysRestored(r.record.status) ==>
                               r.record.receipts == [] && Restored(codec, ScopeOf(es), w, r.world))
  {
    hide Restored, ApplyEffects, SafeRun, OrderlyRun, Separate, Reversible, Rooted, Truthful, Working;
    var scope := ScopeOf(es);
    RolledBackIsRestored(w, es, gates, env, codec);
    forall e | e in es ensures InScope(scope, e) {
      var i :| 0 <= i < |es| && es[i] == e;
      assert forall p :: p in Targets(es[i]) ==> p in scope.above;
    }
    StartReady(codec, scope, w);
    EffectsComplete(codec, scope, w.files, w, es, 0, [], false, env);
  }

  lemma StartReady(codec: Codec, scope: Scope, w: World)
    ensures Ready(codec, scope, [], w)
  {
  }

  // ---- undoing a configured run later ----

  predicate NoLists(rs: seq<Entry>) {
    forall i :: 0 <= i < |rs| ==> NoListIn(rs[i].receipt)
  }

  predicate NoListIn(r: Receipt) {
    r.MergeReceipt? && r.merge.Some? ==> !HasList(r.merge.value.installed)
  }

  lemma {:induction false} FrozenRollback(w: World, rs: seq<Entry>, undo: nat -> Answers, codec: Codec)
    requires NoLists(rs)
    ensures RollbackAll(w, Freeze(rs), undo, codec) == RollbackAll(w, rs, undo, codec)
    decreases |rs|
  {
    if rs != [] {
      var n := |rs| - 1;
      FrozenReceipt(w, rs[n], undo(n), codec);
      assert Freeze(rs)[..n] == Freeze(rs[..n]);
      FrozenRollback(Rollback(w, rs[n], undo(n), codec).world, rs[..n], undo, codec);
    }
  }

  lemma FrozenReceipt(w: World, e: Entry, a: Answers, codec: Codec)
    requires NoListIn(e.receipt)
    ensures Rollback(w, Frozen(e), a, codec) == Rollback(w, e, a, codec)
  {
    hide UnmergeAt, Rewrite, ParsedObject, HasList;
  }

  /** The receipts, before they were frozen, from which the world can be brought back to the start. */
  ghost predicate Undoable(codec: Codec, scope: Scope, start: World, w: World, receipts: seq<Entry>, n: nat,
                           rs: seq<Entry>) {
    receipts == Freeze(rs) && |rs| == n && NoLists(rs) && Ready(codec, scope, rs, w) &&
    Recoverable(codec, scope, start, rs, w) && LeavesThere(w.files, rs, codec)
  }

  lemma {:induction false} EffectsUndoable(codec: Codec, scope: Scope, start: World, w: World, es: seq<Effect>, k: nat,
                                           rs: seq<Entry>, changed: bool, env: Environment)
    requires Lawful(codec) && Separate(start.files, es) && AllBelong(start.files, rs, es, k)
    requires start.files.Keys <= w.files.Keys
    requires forall e :: e in es ==> WellFormed(e) && InScope(scope, e) && !e.Custom?
    requires forall e :: e in es && e.Merging? ==> !HasList(e.value)
    requires SafeRun(w, es, k, env, codec) && OrderlyRun(start.files, w, es, k, env, codec)
    requires forall i :: 0 <= i < |es| ==> Truthful(env.apply(i))
    requires forall i :: k <= i < |es| ==> Reversible(w, es[i])
    requires Grounded(w, rs, codec) && NoLists(rs)
    requires Ready(codec, scope, rs, w) && Recoverable(codec, scope, start, rs, w)
    ensures var r := ApplyEffects(w, es, k, rs, changed, env, codec);
            r.Returned? && r.record.status == Configured ==>
              exists all :: Undoable(codec, scope, start, r.world, r.record.receipts, |es|, all)
    decreases |es| - k
  {
    hide Restored, Ready, Recoverable, SafeStep, SureStep, InScope, ApplyEffect, Rooted, FilesThere, LeavesThere,
         AllRendered, NeatStep, Separate,
         Neat, Independent, Truthful, Belongs, Lawful, RollbackAll, HasList;
    if k == |es| {
      if changed { assert Undoable(codec, scope, start, w, Freeze(rs), |es|, rs); }
    } else if env.apply(k).consent {
      var e, a := es[k], env.apply(k);
      match ApplyEffect(w, e, a, codec)
      case Applied(v, receipt, c) =>
        var all := rs + [Entry(receipt, false)];
        StepFits(start.files, rs, es, k, w);
        ReadyStep(codec, scope, rs, w, e, a, v, receipt);
        RecoverableStep(codec, scope, start, rs, w, e, a, v, receipt);
        ForwardKeeps(rs, w, e, a, v, receipt, codec);
        MergedNoList(w, e, a, v, receipt, codec);
        forall i | k + 1 <= i < |es| ensures Reversible(v, es[i]) {
          assert Reversible(w, es[i]);
        }
        EffectsUndoable(codec, scope, start, v, es, k + 1, all, changed || c, env);
      case _ =>
    }
  }

  lemma MergedNoList(v: World, e: Effect, a: Answers, w: World, r: Receipt, codec: Codec)
    requires WellFormed(e) && !e.Custom? && Issued(v, e, a, codec, w, r)
    requires e.Merging? ==> !HasList(e.value)
    ensures NoListIn(r)
  {
    hide HasList, MergeAt, RootOf, MB.WriteBlock, MB.Block;
  }

  /** Undoing, with working tools, the record of a configured run that merged no lists succeeds completely as long as
      nothing else touched the world: the record comes back empty and the world is as it was before the run. */
  lemma ConfiguredCanBeUndone(w: World, es: seq<Effect>, gates: Gates, env: Environment, undo: nat -> Answers,
                              codec: Codec)
    requires Lawful(codec) && Separate(w.files, es) && Rooted(w.files) && gates.preflight.None?
    requires forall i :: 0 <= i < |es| ==> WellFormed(es[i]) && Reversible(w, es[i])
    requires forall e :: e in es ==> WellFormed(e) && !e.Custom? && (e.Merging? ==> !HasList(e.value))
    requires SafeRun(w, es, 0, env, codec) && OrderlyRun(w.files, w, es, 0, env, codec)
    requires forall i :: 0 <= i < |es| ==> Truthful(env.apply(i)) && Working(undo(i))
    requires var r := ApplySetupPlan(w, es, gates, env, codec); r.Returned? && r.record.status == Configured
    ensures var r := ApplySetupPlan(w, es, gates, env, codec);
            var u := RollbackRecord(r.world, r.record, undo, codec);
            u.Returned? && u.record == Record(Skipped, []) && Restored(codec, ScopeOf(es), w, u.world)
  {
    hide Restored, ApplyEffects, SafeRun, OrderlyRun, Separate, Reversible, Rooted, Truthful, Working, HasList, Ready,
         Recoverable, LeavesThere, NoLists, RollbackAll;
    var scope := ScopeOf(es);
    forall e | e in es ensures InScope(scope, e) {
      var i :| 0 <= i < |es| && es[i] == e;
      assert forall p :: p in Targets(es[i]) ==> p in scope.above;
    }
    StartReady(codec, scope, w);
    StartRecoverable(codec, scope, w);
    NothingThere(w.files, codec);
    EffectsUndoable(codec, scope, w, w, es, 0, [], false, env);
    var r := ApplySetupPlan(w, es, gates, env, codec);
    var rs :| Undoable(codec, scope, w, r.world, r.record.receipts, |es|, rs);
    FrozenRollback(r.world, rs, undo, codec);
    SameTextSelf(codec, scope, r.world);
    SelfUndisturbed(r.world, rs, codec);
    UseReady(codec, scope, w, rs, r.world, undo);
  }

  lemma NothingThere(fs: Files, codec: Codec)
    ensures LeavesThere(fs, [], codec) && NoLists([]) && FilesThere(fs, []) && AllRendered(fs, [], codec)
  {
  }

  lemma UseReady(codec: Codec, scope: Scope, start: World, rs: seq<Entry>, w: World, undo: nat -> Answers)
    requires Ready(codec, scope, rs, w) && Recoverable(codec, scope, start, rs, w)
    requires Restored(codec, scope, w, w) && Undisturbed(w, rs, w, codec)
    requires forall i :: 0 <= i < |rs| ==> Working(undo(i))
    ensures RollbackAll(w, rs, undo, codec).verdict == Done
    ensures Restored(codec, scope, start, RollbackAll(w, rs, undo, codec).world)
  {
    hide Restored, Undisturbed, RollbackAll, Working;
  }
}
