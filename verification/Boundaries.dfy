/** What single steps promise exactly, and the plans for which a run cannot put the world back. */
module Boundaries {
  import opened Text
  import opened JsonMerge
  import opened World
  import opened Runtime
  import MB = ManagedBlock
  import RT = RoundTrips
  import TP = Templates
  import C = Convergence
  import S = Soundness

  // ---- the Keychain step ----

  /** Something may be left of a Keychain step that does not succeed: a replacement always counts as such, an
      addition does when the item is there and cannot be deleted, or when success was reported for nothing. */
  predicate LeftOwing(w: World, item: Item, replaceExisting: bool, a: Answers) {
    var present := item in w.keychain || a.addStores.Some?;
    (item in w.keychain ==> replaceExisting) && !(a.addOk && present) &&
    (replaceExisting || a.addOk || (present && !a.deleteOk))
  }

  /** Every outcome of a Keychain step says what happened to the item, however the add command misreports. */
  lemma KeychainClassified(w: World, item: Item, replaceExisting: bool, a: Answers)
    ensures var s := KeychainApply(w, item, replaceExisting, a);
            s.world == w.(keychain := s.world.keychain) && s.world.keychain - {item} == w.keychain - {item} &&
            (s.Failed? ==> s.world == w) &&
            (s.Applied? ==> item in s.world.keychain && (!s.changed ==> s.world == w) &&
                            s.receipt == KeychainReceipt(item, s.changed && item !in w.keychain,
                                                         s.changed && item in w.keychain)) &&
            (s.FailedOwing? <==> LeftOwing(w, item, replaceExisting, a)) &&
            (s.FailedOwing? ==> s.receipt == KeychainReceipt(item, !replaceExisting, replaceExisting)) &&
            !s.Escaped?
  {
  }

  /** An add that reports success but stored nothing always ends the run as an incomplete rollback, though
      nothing was left behind by it: the compensation has nothing to delete. */
  lemma SilentAddIsIncomplete(w: World, es: seq<Effect>, k: nat, rs: seq<Entry>, changed: bool, env: Environment,
                              codec: Codec)
    requires k < |es| && forall e :: e in es ==> WellFormed(e)
    requires env.apply(k).consent && es[k].Keychain? && !es[k].replaceExisting
    requires es[k].item !in w.keychain && env.apply(k).addOk && env.apply(k).addStores.None?
    ensures ApplyEffect(w, es[k], env.apply(k), codec).world == w
    ensures var r := ApplyEffects(w, es, k, rs, changed, env, codec);
            r.Returned? ==> r.record.status == RollbackIncomplete
  {
  }

  // ---- the build step ----

  /** Undoing a build gives back the image tags exactly when the tag was new or already named the built image;
      over an older tag it reports success all the same. */
  lemma BuildUndoneExactly(w: World, tag: string, a: Answers, b: Answers, codec: Codec)
    requires ApplyEffect(w, Build(tag), a, codec).Applied?
    ensures var s := ApplyEffect(w, Build(tag), a, codec);
            var o := RollbackReceipt(s.world, s.receipt, b, codec);
            (tag in w.images ==> o.verdict == Done) &&
            (tag !in w.images ==> (o.verdict == Done <==> b.removeOk)) &&
            (o.verdict == Done ==> (o.world == w <==> (tag in w.images ==> w.images[tag] == a.built.value)))
  {
  }

  /** A run that builds over an older tag and is then cancelled says so with no receipts, and the tag has moved. */
  lemma CancelledBuildMovesTag(w: World, tag: string, env: Environment, codec: Codec)
    requires tag in w.images && env.apply(0).consent && !env.apply(1).consent
    requires env.apply(0).contextOk && env.apply(0).built.Some? && env.apply(0).built.value != w.images[tag]
    ensures var r := ApplyEffects(w, [Build(tag), Notice], 0, [], false, env, codec);
            r.Returned? && r.record == Record(Cancelled, []) && r.world != w &&
            r.world == w.(images := w.images[tag := env.apply(0).built.value])
  {
    var es := [Build(tag), Notice];
    var s := ApplyEffect(w, es[0], env.apply(0), codec);
    var rs := [Entry(s.receipt, false)];
    assert [] + rs == rs && rs[..0] == [];
    assert ApplyEffects(w, es, 0, [], false, env, codec) == ApplyEffects(s.world, es, 1, rs, true, env, codec);
    assert RollbackAll(s.world, rs[..0], env.undo, codec) == Outcome(s.world, Done);
    assert s.world.images[tag] != w.images[tag];
  }

  // ---- new files that are not unlinked ----

  /** A file that received two blocks from nothing is left with one newline when both are rolled back. */
  lemma TwoBlocksLeaveNewline(f: MB.Fence, c: string, g: MB.Fence, d: string)
    requires MB.Proper(f) && MB.Proper(g) && MB.Clean(f, c) && MB.Clean(g, d)
    requires !MB.Begins(MB.Fresh("", f, c), g)
    ensures var once := MB.Fresh("", f, c);
            var twice := MB.Fresh(once, g, d);
            var back := MB.UndoBlock(twice, g, MB.Block(g, d), None);
            back == MB.Undone(once + "\n") && MB.UndoBlock(back.text, f, MB.Block(f, c), None) == MB.Undone("\n")
  {
    hide MB.UndoBlock, MB.Block, MB.Begins, MB.Clean, Split, Join, MB.Body;
    var once := MB.Fresh("", f, c);
    MB.FreshRoundTrip(once, g, d);
    var b := MB.Block(f, c);
    assert once == b + "\n" by { assert "" + "" + b == b; }
    LastOfBlock(f, c);
    assert once[|once| - 2] == b[|b| - 1];
    UndoneAlone(f, c);
  }

  lemma LastOfBlock(f: MB.Fence, c: string)
    requires MB.Proper(f)
    ensures MB.Block(f, c) != "" && MB.Block(f, c)[|MB.Block(f, c)| - 1] != '\n'
  {
  }

  lemma UndoneAlone(f: MB.Fence, c: string)
    requires MB.Proper(f) && MB.Clean(f, c)
    ensures MB.UndoBlock(MB.Block(f, c) + "\n" + "\n", f, MB.Block(f, c), None) == MB.Undone("\n")
  {
    hide MB.UndoBlock, MB.Block, Split, Join, MB.Body;
    var ls := MB.BlockLines(f, c);
    MB.SplitOfBlock(f, c);
    JoinThenNewline(ls);
    JoinAcross(ls, ["", ""]);
    assert Join(["", ""]) == "\n" by { AfterAlone(TP.Match("", "")); }
    assert [] + ls + ["", ""] == ls + ["", ""];
    BodyIsLines(c);
    MB.UndoesPlaced([], MB.Body(c), ["", ""], f, MB.Block(f, c), None);
    AfterAlone(MB.Found(MB.Block(f, c), true));
  }

  lemma BodyIsLines(c: string)
    ensures AllLines(MB.Body(c))
  {
    SplitGivesLines(MB.RStrip(c));
  }

  lemma AfterAlone(m: TP.Match)
    ensures Join(["", ""]) == "\n"
    ensures MB.UndoneWith([], MB.Restored(None), m, ["", ""]) == MB.Undone("\n")
  {
  }

  /** The world in which a new directory holds one new file. */
  function Housed(w: World, d: Path, name: string, text: string): World {
    w.(files := Place(Place(w.files, d, Dir), d + [name], File(text, PRIVATE_MODE)))
  }

  predicate Vacant(w: World, d: Path) {
    CanPlace(w.files, d) && d !in w.files && forall q :: q in w.files ==> d !in Above(q)
  }

  lemma HousedFile(w: World, d: Path, name: string, text: string)
    requires Vacant(w, d)
    ensures var made := Place(w.files, d, Dir);
            d + [name] !in made && CanPlace(made, d + [name])
    ensures var h := Housed(w, d, name, text);
            ReadRegular(h.files, d + [name]) == Content(Translate(text), true, Some(PRIVATE_MODE)) &&
            CanPlace(h.files, d + [name]) && !EmptyDir(h.files, d)
  {
    var p := d + [name];
    assert p[..|d|] == d;
    assert d in Above(p);
    assert forall k :: 0 <= k <= |d| ==> p[..k] == d[..k];
    assert |d| + 1 == |p|;
    assert forall q :: q in Above(p) ==> q == d || q in Above(d);
  }

  lemma Rehoused(w: World, d: Path, name: string, text: string, t: string)
    requires Vacant(w, d)
    ensures Place(Housed(w, d, name, text).files, d + [name], File(t, PRIVATE_MODE)) == Housed(w, d, name, t).files
  {
  }

  /** All tools answer well while these effects are applied and compensated. */
  predicate Smooth(env: Environment, n: nat) {
    forall i :: 0 <= i < n ==>
      env.apply(i).consent && env.apply(i).readable && env.apply(i).writable &&
      env.undo(i).readable && env.undo(i).writable
  }

  lemma GoesOn(w: World, es: seq<Effect>, k: nat, rs: seq<Entry>, changed: bool, env: Environment, codec: Codec,
               v: World, r: Receipt)
    requires k < |es| && (forall e :: e in es ==> WellFormed(e)) && env.apply(k).consent
    requires ApplyEffect(w, es[k], env.apply(k), codec) == Applied(v, r, true)
    ensures ApplyEffects(w, es, k, rs, changed, env, codec)
         == ApplyEffects(v, es, k + 1, rs + [Entry(r, false)], true, env, codec)
  {
    hide ApplyEffect;
  }

  lemma Refuses(w: World, es: seq<Effect>, k: nat, rs: seq<Entry>, changed: bool, env: Environment, codec: Codec)
    requires k < |es| && (forall e :: e in es ==> WellFormed(e)) && !env.apply(k).consent
    ensures ApplyEffects(w, es, k, rs, changed, env, codec) == Abandon(w, rs, Cancelled, env, codec)
  {
    hide ApplyEffect;
  }

  lemma UndoesLast(w: World, rs: seq<Entry>, r: Receipt, undo: nat -> Answers, codec: Codec, v: World)
    requires RollbackReceipt(w, r, undo(|rs|), codec) == Outcome(v, Done)
    ensures RollbackAll(w, rs + [Entry(r, false)], undo, codec) == RollbackAll(v, rs, undo, codec)
  {
    hide RollbackReceipt;
    assert (rs + [Entry(r, false)])[..|rs|] == rs;
  }

  /** The directory a run made cannot be removed again while a file is left in it. */
  lemma DirectoryStays(w: World, d: Path, name: string, text: string, undo: nat -> Answers, codec: Codec)
    requires Vacant(w, d)
    ensures RollbackAll(Housed(w, d, name, text), [Entry(DirectoryReceipt(d, true), false)], undo, codec)
         == Outcome(Housed(w, d, name, text), NotDone)
  {
    hide Place, EmptyDir;
    HousedFile(w, d, name, text);
    var rs := [Entry(DirectoryReceipt(d, true), false)];
    assert rs[..0] == [];
  }

  lemma FirstMerge(keys: seq<string>, value: Json, replaceExisting: bool)
    requires keys != []
    ensures MergeAt(map[], keys, value, replaceExisting).Merged?
    ensures !MergeAt(map[], keys, value, replaceExisting).replaced
  {
  }

  /** A nested value in a new file of a new directory. */
  lemma MergeStep(w: World, d: Path, name: string, keys: seq<string>, value: Json, a: Answers, codec: Codec)
    requires Vacant(w, d) && keys != [] && a.readable && a.writable
    ensures MergeAt(map[], keys, value, false).Merged?
    ensures ApplyEffect(w.(files := Place(w.files, d, Dir)), Merging(d + [name], keys, value, false), a, codec) ==
            Applied(Housed(w, d, name, codec.render(MergeAt(map[], keys, value, false).root)),
                    MergeReceipt(d + [name], Some(MergeChange(keys, false, None, false, value, false))), true)
  {
    hide Place, MergeAt, Above;
    FirstMerge(keys, value, false);
    HousedFile(w, d, name, "");
    assert Blank("");
  }

  /** Taking a value at a longer path out of the file it created leaves the file, with the objects above the leaf. */
  lemma MergeBack(w: World, d: Path, name: string, keys: seq<string>, value: Json, b: Answers, codec: Codec)
    requires Lawful(codec) && Vacant(w, d) && |keys| > 1 && b.readable && b.writable
    requires MergeAt(map[], keys, value, false).Merged?
    ensures RollbackReceipt(Housed(w, d, name, codec.render(MergeAt(map[], keys, value, false).root)),
                            MergeReceipt(d + [name], Some(MergeChange(keys, false, None, false, value, false))),
                            b, codec) ==
            Outcome(Housed(w, d, name, codec.render(Opened(map[], keys))), Done)
  {
    hide Place, MergeAt, UnmergeAt, Opened, Above, Lawful, Vacant;
    var root := MergeAt(map[], keys, value, false).root;
    FirstMerge(keys, value, false);
    MergeThenUnmerge(map[], keys, value, false);
    OpenedHasKey(keys);
    HousedFile(w, d, name, codec.render(root));
    Rehoused(w, d, name, codec.render(root), codec.render(Opened(map[], keys)));
    S.RenderedRoot(codec, root);
  }

  lemma OpenedHasKey(keys: seq<string>)
    requires |keys| > 1
    ensures keys[0] in Opened(map[], keys)
  {
  }

  /** A directory and, in it, a new JSON file with a nested value: refusing the next step cannot be rolled back. */
  lemma NestedValueInNewDirectory(w: World, d: Path, name: string, keys: seq<string>, value: Json, env: Environment,
                                  codec: Codec)
    requires Lawful(codec) && Vacant(w, d) && |keys| > 1
    requires Smooth(env, 2) && !env.apply(2).consent
    ensures var r := ApplyEffects(w, [Directory(d), Merging(d + [name], keys, value, false), Notice], 0, [], false,
                                  env, codec);
            r.Returned? && r.record.status == RollbackIncomplete &&
            r.world == Housed(w, d, name, codec.render(Opened(map[], keys)))
  {
    hide Place, Housed, ApplyEffects, RollbackAll, ApplyEffect, RollbackReceipt, MergeAt, Opened, Vacant, Lawful;
    var es := [Directory(d), Merging(d + [name], keys, value, false), Notice];
    var made := w.(files := Place(w.files, d, Dir));
    MakesDirectory(w, d, env.apply(0), codec);
    MergeStep(w, d, name, keys, value, env.apply(1), codec);
    MergeBack(w, d, name, keys, value, env.undo(1), codec);
    var text := codec.render(MergeAt(map[], keys, value, false).root);
    var r0 := DirectoryReceipt(d, true);
    var r1 := MergeReceipt(d + [name], Some(MergeChange(keys, false, None, false, value, false)));
    assert [] + [Entry(r0, false)] == [Entry(r0, false)];
    GoesOn(w, es, 0, [], false, env, codec, made, r0);
    GoesOn(made, es, 1, [Entry(r0, false)], true, env, codec, Housed(w, d, name, text), r1);
    Refuses(Housed(w, d, name, text), es, 2, [Entry(r0, false)] + [Entry(r1, false)], true, env, codec);
    var rest := codec.render(Opened(map[], keys));
    UndoesLast(Housed(w, d, name, text), [Entry(r0, false)], r1, env.undo, codec, Housed(w, d, name, rest));
    DirectoryStays(w, d, name, rest, env.undo, codec);
  }

  lemma MakesDirectory(w: World, d: Path, a: Answers, codec: Codec)
    requires Vacant(w, d) && a.writable
    ensures ApplyEffect(w, Directory(d), a, codec)
         == Applied(w.(files := Place(w.files, d, Dir)), DirectoryReceipt(d, true), true)
  {
  }

  /** A fresh block in a file of a new directory, and its compensation. */
  lemma FreshStep(w: World, v: World, d: Path, name: string, text: string, existed: bool, marker: string,
                  content: string,
                  a: Answers, codec: Codec)
    requires Vacant(w, d) && '\r' !in text && !MB.Begins(text, MB.FenceOf(marker)) && a.readable && a.writable
    requires ReadRegular(v.files, d + [name]) == Content(text, existed, if existed then Some(PRIVATE_MODE) else None)
    requires if existed then v == Housed(w, d, name, text) else v == w.(files := Place(w.files, d, Dir))
    ensures var f := MB.FenceOf(marker);
            ApplyEffect(v, OwnedBlock(d + [name], marker, content), a, codec) ==
            Applied(Housed(w, d, name, MB.Fresh(text, f, content)),
                    BlockReceipt(d + [name], marker,
                                 Some(BlockChange(existed, if existed then Some(PRIVATE_MODE) else None, None,
                                                  MB.Block(f, content)))),
                    true)
  {
    hide Place, MB.Begins, MB.WriteBlock, MB.Fresh, MB.Block, MB.FenceOf, Above;
    var f := MB.FenceOf(marker);
    C.UnbegunNoPrior(text, f, content);
    HousedFile(w, d, name, text);
    if existed { Rehoused(w, d, name, text, MB.Fresh(text, f, content)); }
  }

  lemma FreshBack(w: World, d: Path, name: string, text: string, marker: string, c: BlockChange, back: string,
                  b: Answers, codec: Codec)
    requires Vacant(w, d) && '\r' !in text && b.readable && b.writable
    requires MB.UndoBlock(text, MB.FenceOf(marker), c.installed, c.prior) == MB.Undone(back) && back != ""
    requires ModeOf(c.mode) == PRIVATE_MODE
    ensures RollbackReceipt(Housed(w, d, name, text), BlockReceipt(d + [name], marker, Some(c)), b, codec)
         == Outcome(Housed(w, d, name, back), Done)
  {
    hide Place, MB.UndoBlock, MB.FenceOf, Above, Translate;
    HousedFile(w, d, name, text);
    TranslateKeeps(text);
    Rehoused(w, d, name, text, back);
  }

  /** A directory and, in it, a new file with two blocks: refusing the next step leaves the file with a newline in
      it, so the directory stays and the rollback is incomplete. */
  lemma TwoBlocksInNewDirectory(w: World, d: Path, name: string, m: string, c: string, n: string, e: string,
                                env: Environment, codec: Codec)
    requires Vacant(w, d) && IsLine(m) && IsLine(n)
    requires RT.Removable(MB.FenceOf(m), c) && RT.Removable(MB.FenceOf(n), e)
    requires !MB.Begins(MB.Fresh("", MB.FenceOf(m), c), MB.FenceOf(n))
    requires Smooth(env, 3) && !env.apply(3).consent
    ensures var p := d + [name];
            var r := ApplyEffects(w, [Directory(d), OwnedBlock(p, m, c), OwnedBlock(p, n, e), Notice], 0, [], false,
                                  env, codec);
            r.Returned? && r.record.status == RollbackIncomplete && r.world == Housed(w, d, name, "\n")
  {
    hide Place, Housed, ApplyEffects, RollbackAll, ApplyEffect, RollbackReceipt, Vacant,
         MB.Clean, MB.Begins, MB.Fresh, MB.UndoBlock, MB.Block, MB.FenceOf, MB.Proper;
    var p, f, g := d + [name], MB.FenceOf(m), MB.FenceOf(n);
    var es := [Directory(d), OwnedBlock(p, m, c), OwnedBlock(p, n, e), Notice];
    MB.MarkersAreProper(m);
    MB.MarkersAreProper(n);
    TwoBlocksLeaveNewline(f, c, g, e);
    NothingBegins(f);
    var once := MB.Fresh("", f, c);
    var twice := MB.Fresh(once, g, e);
    RT.FreshKeeps("", f, c);
    RT.FreshKeeps(once, g, e);
    assert '\r' !in once + "\n";
    var made := w.(files := Place(w.files, d, Dir));
    var c1 := BlockChange(false, None, None, MB.Block(f, c));
    var c2 := BlockChange(true, Some(PRIVATE_MODE), None, MB.Block(g, e));
    var r0, r1, r2 := DirectoryReceipt(d, true), BlockReceipt(p, m, Some(c1)), BlockReceipt(p, n, Some(c2));
    var h1, h2 := Housed(w, d, name, once), Housed(w, d, name, twice);
    MakesDirectory(w, d, env.apply(0), codec);
    NewFile(w, d, name);
    FreshStep(w, made, d, name, "", false, m, c, env.apply(1), codec);
    OldFile(w, d, name, once);
    FreshStep(w, h1, d, name, once, true, n, e, env.apply(2), codec);
    assert [] + [Entry(r0, false)] == [Entry(r0, false)];
    var two := [Entry(r0, false)] + [Entry(r1, false)];
    GoesOn(w, es, 0, [], false, env, codec, made, r0);
    GoesOn(made, es, 1, [Entry(r0, false)], true, env, codec, h1, r1);
    GoesOn(h1, es, 2, two, true, env, codec, h2, r2);
    Refuses(h2, es, 3, two + [Entry(r2, false)], true, env, codec);
    FreshBack(w, d, name, twice, n, c2, once + "\n", env.undo(2), codec);
    FreshBack(w, d, name, once + "\n", m, c1, "\n", env.undo(1), codec);
    UndoesLast(h2, two, r2, env.undo, codec, Housed(w, d, name, once + "\n"));
    UndoesLast(Housed(w, d, name, once + "\n"), [Entry(r0, false)], r1, env.undo, codec, Housed(w, d, name, "\n"));
    DirectoryStays(w, d, name, "\n", env.undo, codec);
  }

  lemma NewFile(w: World, d: Path, name: string)
    requires Vacant(w, d)
    ensures ReadRegular(Place(w.files, d, Dir), d + [name]) == Content("", false, None)
  {
    HousedFile(w, d, name, "");
  }

  lemma OldFile(w: World, d: Path, name: string, text: string)
    requires Vacant(w, d)
    requires '\r' !in text
    ensures ReadRegular(Housed(w, d, name, text).files, d + [name]) == Content(text, true, Some(PRIVATE_MODE))
  {
    TranslateKeeps(text);
  }

  lemma NothingBegins(f: MB.Fence)
    requires MB.Proper(f)
    ensures !MB.Begins("", f)
  {
  }

  // ---- line ends and bytes ----

  /** The world after the text of a file was exchanged. */
  predicate Rewritten(v: World, w: World, p: Path, text: string) {
    p in w.files && w.files[p].File? && v == w.(files := w.files[p := File(text, w.files[p].mode)])
  }

  lemma PlacedThere(fs: Files, p: Path, n: Node)
    requires p in fs && Above(p) <= fs.Keys
    ensures Place(fs, p, n) == fs[p := n]
  {
    assert p !in Above(p);
  }

  /** A run that adds a block to a file with other line ends and is then refused says that it was cancelled and keeps no
      receipts; but every line end of the file has become a newline. */
  lemma LineEndsChange(w: World, p: Path, marker: string, content: string, env: Environment, codec: Codec)
    requires p in w.files && w.files[p].File? && '\r' in w.files[p].text && Above(p) <= w.files.Keys &&
             CanPlace(w.files, p)
    requires var t, f := TextOf(w.files[p]), MB.FenceOf(marker);
             t != "" && IsLine(marker) && !MB.Begins(t, f) && RT.Removable(f, content)
    requires Smooth(env, 1) && !env.apply(1).consent
    ensures var t := TextOf(w.files[p]);
            var r := ApplyEffects(w, [OwnedBlock(p, marker, content), Notice], 0, [], false, env, codec);
            r.Returned? && r.record == Record(Cancelled, []) && Rewritten(r.world, w, p, t + MB.Separator(t)) &&
              r.world != w
  {
    hide ApplyEffects, RollbackAll, MB.WriteBlock, MB.UndoBlock, MB.Fresh, MB.Block, MB.FenceOf, MB.Begins,
         MB.Separator, RT.Removable, Place, Above, CanPlace, Translate;
    var node, f := w.files[p], MB.FenceOf(marker);
    var t := TextOf(node);
    var es := [OwnedBlock(p, marker, content), Notice];
    var added := MB.Fresh(t, f, content);
    var c := BlockChange(true, Some(node.mode), None, MB.Block(f, content));
    var v := w.(files := w.files[p := File(added, node.mode)]);
    var was := w.(files := w.files[p := File(t + MB.Separator(t), node.mode)]);
    MB.MarkersAreProper(marker);
    C.UnbegunNoPrior(t, f, content);
    TranslateHasNone(node.text);
    PlacedThere(w.files, p, File(added, node.mode));
    RT.FreshReadsBack(t, f, content);
    PlacedThere(v.files, p, File(t + MB.Separator(t), node.mode));
    StillPlaceable(w.files, p, File(added, node.mode));
    GoesOn(w, es, 0, [], false, env, codec, v, BlockReceipt(p, marker, Some(c)));
    Refuses(v, es, 1, [] + [Entry(BlockReceipt(p, marker, Some(c)), false)], true, env, codec);
    assert v.files[p := File(t + MB.Separator(t), node.mode)] == was.files;
    UndoesLast(v, [], BlockReceipt(p, marker, Some(c)), env.undo, codec, was);
    NothingLeft(was, env.undo, codec);
    NoReturnLeft(t);
  }

  lemma StillPlaceable(fs: Files, p: Path, n: Node)
    requires p in fs && CanPlace(fs, p) && Above(p) <= fs.Keys
    ensures CanPlace(fs[p := n], p) && Above(p) <= fs[p := n].Keys
  {
    assert p !in Above(p);
  }

  lemma NothingLeft(w: World, undo: nat -> Answers, codec: Codec)
    ensures RollbackAll(w, [], undo, codec) == Outcome(w, Done)
  {
  }

  lemma NoReturnLeft(t: string)
    requires '\r' !in t
    ensures '\r' !in t + MB.Separator(t)
  {
    RT.PaddedKeeps(t);
  }

  /** A block with a carriage return is written anew by every run that reaches it: such a plan never converges. */
  lemma CarriageNeverSettles(w: World, p: Path, marker: string, content: string, a: Answers, codec: Codec)
    requires IsLine(marker) && '\r' in MB.Block(MB.FenceOf(marker), content)
    ensures var s := ApplyEffect(w, OwnedBlock(p, marker, content), a, codec); s.Applied? ==> s.changed
  {
    hide MB.WriteBlock, MB.Block, MB.FenceOf, Translate;
    MB.MarkersAreProper(marker);
    if ReadRegular(w.files, p).Content? {
      S.ReadHasNone(w.files, p);
      RT.CarriageRewrites(ReadRegular(w.files, p).text, MB.FenceOf(marker), content);
    }
  }

  /** A Keychain item that was stored stays, without a record, when the file of the next step is not UTF-8. */
  lemma UndecodableTargetStrands(w: World, item: Item, p: Path, marker: string, content: string, gates: Gates,
                                 env: Environment, codec: Codec)
    requires item !in w.keychain && p in w.files && w.files[p].Binary? && C.Open(gates)
    requires env.apply(0).consent && env.apply(0).addOk && env.apply(0).addStores.Some?
    requires env.apply(1).consent && env.apply(1).readable
    ensures ApplySetupPlan(w, [Keychain(item, false), OwnedBlock(p, marker, content)], gates, env, codec)
         == Raised(w.(keychain := w.keychain[item := env.apply(0).addStores.value]))
  {
    hide ApplyEffects;
    var es := [Keychain(item, false), OwnedBlock(p, marker, content)];
    var v := w.(keychain := w.keychain[item := env.apply(0).addStores.value]);
    GoesOn(w, es, 0, [], false, env, codec, v, KeychainReceipt(item, true, false));
    EscapesAt(v, es, 1, [] + [Entry(KeychainReceipt(item, true, false), false)], true, env, codec);
  }

  lemma EscapesAt(w: World, es: seq<Effect>, k: nat, rs: seq<Entry>, changed: bool, env: Environment, codec: Codec)
    requires k < |es| && (forall e :: e in es ==> WellFormed(e)) && env.apply(k).consent
    requires ApplyEffect(w, es[k], env.apply(k), codec).Escaped?
    ensures ApplyEffects(w, es, k, rs, changed, env, codec) == Raised(ApplyEffect(w, es[k], env.apply(k), codec).world)
  {
    hide ApplyEffect;
  }
}
