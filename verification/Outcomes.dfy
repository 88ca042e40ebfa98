/** What every step and every run comes to: when a step is applied, what it leaves, and which record a run ends in. */
module Outcomes {
  import opened Text
  import opened JsonMerge
  import opened World
  import opened Runtime
  import MB = ManagedBlock
  import TP = Templates
  import B = Boundaries
  import C = Convergence
  import S = Soundness

  // ---- writing a block ----

  /** The only block of this owner in these lines. */
  ghost predicate OnlyBlock(ls: seq<string>, f: MB.Fence, s: MB.Span) {
    MB.FirstBlock(ls, f, false, 0, s) && MB.NoBlock(ls, f, false, s.last + 1)
  }

  ghost predicate BlockFrom(ls: seq<string>, f: MB.Fence, k: nat) {
    exists s :: MB.FirstBlock(ls, f, false, k, s)
  }

  /** A block, and another one behind it. */
  ghost predicate TwoBlocks(ls: seq<string>, f: MB.Fence) {
    exists s :: MB.FirstBlock(ls, f, false, 0, s) && BlockFrom(ls, f, s.last + 1)
  }

  function LinesOf(ls: seq<string>, s: MB.Span): string
    requires s.first <= s.last < |ls|
  {
    Join(ls[s.first..s.last + 1])
  }

  /** What a new block becomes in place of a prior one. */
  function Replacement(block: string, prior: string): TP.Expansion {
    TP.Expand(block, TP.Match(prior, prior))
  }

  ghost predicate InPlace(t: string, f: MB.Fence, content: string) {
    exists s :: OnlyBlock(Split(t), f, s) && LinesOf(Split(t), s) == MB.Block(f, content)
  }

  /** The file has another block of this owner, for which the new one is no template. */
  ghost predicate Unfit(t: string, f: MB.Fence, content: string) {
    exists s :: OnlyBlock(Split(t), f, s) && LinesOf(Split(t), s) != MB.Block(f, content) &&
                Replacement(MB.Block(f, content), LinesOf(Split(t), s)).BadTemplate?
  }

  lemma OneOfThree(ls: seq<string>, f: MB.Fence)
    ensures var r := MB.FindBlock(ls, f, false, 0);
            (r.None? <==> MB.NoBlock(ls, f, false, 0)) &&
            (r.Some? ==> forall s :: MB.FirstBlock(ls, f, false, 0, s) <==> s == r.value) &&
            (r.Some? ==> (OnlyBlock(ls, f, r.value) <==> MB.FindBlock(ls, f, false, r.value.last + 1).None?)) &&
            (TwoBlocks(ls, f) <==> r.Some? && MB.FindBlock(ls, f, false, r.value.last + 1).Some?)
  {
    hide MB.FindBlock, MB.FirstBlock, MB.NoBlock;
    var r := MB.FindBlock(ls, f, false, 0);
    MB.FindBlockMeaning(ls, f, false, 0);
    forall s ensures MB.FirstBlock(ls, f, false, 0, s) ==> r == Some(s) {
      if MB.FirstBlock(ls, f, false, 0, s) { MB.FindsFirst(ls, f, false, 0, s); }
    }
    if MB.NoBlock(ls, f, false, 0) { MB.FindsNone(ls, f, false, 0); }
    if r.Some? {
      var n := r.value.last + 1;
      MB.FindBlockMeaning(ls, f, false, n);
      if MB.NoBlock(ls, f, false, n) { MB.FindsNone(ls, f, false, n); }
      forall u ensures MB.FirstBlock(ls, f, false, n, u) ==> MB.FindBlock(ls, f, false, n) == Some(u) {
        if MB.FirstBlock(ls, f, false, n, u) { MB.FindsFirst(ls, f, false, n, u); }
      }
    }
  }

  /** What writing a block comes to, by what the file holds: nothing of this owner, one block, or several. */
  lemma WriteMeans(t: string, f: MB.Fence, content: string)
    ensures var w, ls := MB.WriteBlock(t, f, content), Split(t);
            (w.Duplicate? <==> TwoBlocks(ls, f)) && (w.Unchanged? <==> InPlace(t, f, content)) &&
            (w.WriteFails? <==> Unfit(t, f, content)) &&
            (MB.NoBlock(ls, f, false, 0) ==> w == MB.Written(MB.Fresh(t, f, content), None)) &&
            (w.Written? && w.prior.Some? ==>
               exists s :: OnlyBlock(ls, f, s) && w.prior == Some(LinesOf(ls, s)) && s.last < |ls| &&
                           Replacement(MB.Block(f, content), LinesOf(ls, s)).Plainly? &&
                           w.text == Join(ls[..s.first] +
                                          Split(Replacement(MB.Block(f, content), LinesOf(ls, s)).text) +
                                          ls[s.last + 1..])) &&
            (w.Written? && w.prior.None? ==> MB.NoBlock(ls, f, false, 0))
  {
    hide MB.FindBlock, MB.FirstBlock, MB.NoBlock, Join, Split, TP.Expand, MB.Block, MB.Fresh, OnlyBlock, TwoBlocks;
    var ls := Split(t);
    OneOfThree(ls, f);
    OnlyIsFirst(ls, f);
    var r := MB.FindBlock(ls, f, false, 0);
    if r.Some? && OnlyBlock(ls, f, r.value) {
      assert MB.WriteBlock(t, f, content) == MB.ReplaceSpan(ls, r.value, MB.Block(f, content));
    }
  }

  lemma OnlyIsFirst(ls: seq<string>, f: MB.Fence)
    ensures forall s :: OnlyBlock(ls, f, s) ==>
              MB.FindBlock(ls, f, false, 0) == Some(s) && MB.FindBlock(ls, f, false, s.last + 1).None?
  {
    hide MB.FindBlock;
    forall s | OnlyBlock(ls, f, s)
      ensures MB.FindBlock(ls, f, false, 0) == Some(s) && MB.FindBlock(ls, f, false, s.last + 1).None?
    {
      MB.FindsFirst(ls, f, false, 0, s);
      MB.FindsNone(ls, f, false, s.last + 1);
    }
  }

  // ---- when a step is applied ----

  /** The target is missing or a regular file of text. */
  predicate HoldsText(fs: Files, p: Path) {
    p in fs ==> fs[p].File?
  }

  function TextThere(fs: Files, p: Path): string
    requires HoldsText(fs, p)
  {
    if p in fs then TextOf(fs[p]) else ""
  }

  /** A file or directory can be put here: nothing above it is anything but a directory. */
  predicate HasRoom(fs: Files, p: Path) {
    forall k :: 0 <= k < |p| && p[..k] in fs ==> fs[p[..k]] == Dir
  }

  lemma RoomIsPlace(fs: Files, p: Path)
    ensures HasRoom(fs, p) <==> CanPlace(fs, p)
  {
    if HasRoom(fs, p) {
      forall q | q in Above(p) && q in fs ensures fs[q] == Dir {
        var k :| 0 <= k < |p| && q == p[..k];
      }
    }
    if CanPlace(fs, p) {
      forall k | 0 <= k < |p| && p[..k] in fs ensures fs[p[..k]] == Dir {
        assert p[..k] in Above(p);
      }
    }
  }

  /** A JSON target: blank text, or the text of an object. */
  ghost predicate HoldsObject(codec: Codec, t: string, o: Fields) {
    if Blank(t) then o == map[] else codec.parse(t) == Some(Object(o))
  }

  /** The value may go to its path: nothing blocks it, and the leaf is free or may be replaced. */
  predicate Free(o: Fields, keys: seq<string>, replaceExisting: bool)
    requires keys != []
  {
    !Blocked(o, keys) && (Lookup(o, keys).None? || replaceExisting)
  }

  /** What the world and the answers must be for a step to be applied. */
  ghost predicate Succeeds(w: World, e: Effect, a: Answers, codec: Codec)
    requires WellFormed(e)
  {
    match e
    case Keychain(item, replaceExisting) =>
      (item in w.keychain && !replaceExisting) || (a.addOk && (item in w.keychain || a.addStores.Some?))
    case OwnedBlock(p, marker, content) =>
      a.readable && HoldsText(w.files, p) &&
      var t, f := TextThere(w.files, p), MB.FenceOf(marker);
      InPlace(t, f, content) ||
      (!TwoBlocks(Split(t), f) && !Unfit(t, f, content) && a.writable && HasRoom(w.files, p))
    case Merging(p, keys, value, replaceExisting) =>
      a.readable && HoldsText(w.files, p) &&
      exists o ::
        HoldsObject(codec, TextThere(w.files, p), o) &&
        (Lookup(o, keys) == Some(value) || (Free(o, keys, replaceExisting) && a.writable && HasRoom(w.files, p)))
    case Directory(p) => if p in w.files then w.files[p] == Dir else a.writable && HasRoom(w.files, p)
    case Pull(image) => image in w.images || a.pulled.Some?
    case Build(_) => a.contextOk && a.built.Some?
    case ExportCertificates(_) => a.contextOk && a.exported == Good
    case VerifyCommand => a.verified
    case Notice => true
    case Custom(_) => a.custom.CustomDone?
  }

  lemma BlockAppliedExactly(w: World, p: Path, marker: string, content: string, a: Answers)
    ensures var e := OwnedBlock(p, marker, content);
            BlockApply(w, p, marker, content, a).Applied? <==>
            a.readable && HoldsText(w.files, p) &&
            var t, f := TextThere(w.files, p), MB.FenceOf(marker);
            InPlace(t, f, content) ||
            (!TwoBlocks(Split(t), f) && !Unfit(t, f, content) && a.writable && HasRoom(w.files, p))
  {
    hide MB.WriteBlock, MB.FenceOf, MB.Block, InPlace, TwoBlocks, Unfit, HasRoom, CanPlace, TextOf, Split;
    RoomIsPlace(w.files, p);
    if HoldsText(w.files, p) { WriteMeans(TextThere(w.files, p), MB.FenceOf(marker), content); }
  }

  lemma MergeAppliedExactly(w: World, p: Path, keys: seq<string>, value: Json, replaceExisting: bool, a: Answers,
                            codec: Codec)
    requires keys != []
    ensures MergeApply(w, p, keys, value, replaceExisting, a, codec).Applied? <==>
            a.readable && HoldsText(w.files, p) &&
            exists o ::
              HoldsObject(codec, TextThere(w.files, p), o) &&
              (Lookup(o, keys) == Some(value) || (Free(o, keys, replaceExisting) && a.writable && HasRoom(w.files, p)))
  {
    hide MergeAt, Lookup, Blocked, HasRoom, CanPlace, TextOf, Blank;
    RoomIsPlace(w.files, p);
    if HoldsText(w.files, p) {
      var t := TextThere(w.files, p);
      forall o ensures HoldsObject(codec, t, o) <==> RootOf(codec, t) == Some(o) {
      }
      if RootOf(codec, t).Some? {
        var o := RootOf(codec, t).value;
        assert HoldsObject(codec, t, o);
        CollisionExactly(o, keys, value, replaceExisting);
        C.SameExactly(o, keys, value, replaceExisting);
        if Lookup(o, keys).Some? { ThereIsNotBlocked(o, keys); }
      }
    }
  }

  lemma {:induction false} ThereIsNotBlocked(o: Fields, keys: seq<string>)
    requires keys != [] && Lookup(o, keys).Some?
    ensures !Blocked(o, keys)
    decreases |keys|
  {
    if |keys| > 1 {
      ThereIsNotBlocked(o[keys[0]].fields, keys[1..]);
      BlockedStep(o, keys);
    }
  }

  /** A step is applied if and only if this holds of the world and the answers. */
  lemma AppliedExactly(w: World, e: Effect, a: Answers, codec: Codec)
    requires WellFormed(e)
    ensures ApplyEffect(w, e, a, codec).Applied? <==> Succeeds(w, e, a, codec)
  {
    hide BlockApply, MergeApply, InPlace, TwoBlocks, Unfit, HasRoom, CanPlace, HoldsText, TextThere, HoldsObject,
         Lookup,
         Free, Split, MB.FenceOf;
    match e
    case OwnedBlock(p, marker, content) => BlockAppliedExactly(w, p, marker, content, a);
    case Merging(p, keys, value, replaceExisting) =>
      MergeAppliedExactly(w, p, keys, value, replaceExisting, a, codec);
    case Directory(p) => RoomIsPlace(w.files, p);
    case _ =>
  }

  // ---- what an applied step leaves ----

  function ModeBefore(fs: Files, p: Path): nat
    requires HoldsText(fs, p)
  {
    if p in fs then fs[p].mode else PRIVATE_MODE
  }

  function ModeFound(fs: Files, p: Path): Option<nat>
    requires HoldsText(fs, p)
  {
    if p in fs then Some(fs[p].mode) else None
  }

  /** The block stands where one of its owner stood, or behind the text when there was none. */
  ghost predicate BlockWritten(t: string, f: MB.Fence, content: string, now: string) {
    (MB.NoBlock(Split(t), f, false, 0) ==> now == MB.Fresh(t, f, content)) &&
    forall s :: OnlyBlock(Split(t), f, s) ==>
      s.last < |Split(t)| && Replacement(MB.Block(f, content), LinesOf(Split(t), s)).Plainly? &&
      now == Join(Split(t)[..s.first] + Split(Replacement(MB.Block(f, content), LinesOf(Split(t), s)).text) +
                  Split(t)[s.last + 1..])
  }

  /** The value is at its path, and everything off the path reads as before. */
  ghost predicate ValueMerged(o: Fields, keys: seq<string>, value: Json, now: Fields)
    requires keys != []
  {
    Lookup(now, keys) == Some(value) && forall q :: q != [] && Diverge(keys, q) ==> Lookup(now, q) == Lookup(o, q)
  }

  /** What the step was for is there. */
  ghost predicate Delivered(w: World, e: Effect, a: Answers, v: World, codec: Codec)
    requires WellFormed(e)
  {
    match e
    case Keychain(item, replaceExisting) =>
      item in v.keychain &&
      (if item in w.keychain && !replaceExisting then v.keychain[item] == w.keychain[item]
       else if a.addStores.Some? then v.keychain[item] == a.addStores.value
       else item in w.keychain && v.keychain[item] == w.keychain[item])
    case OwnedBlock(p, marker, content) =>
      HoldsText(w.files, p) && p in v.files &&
      var t, f := TextThere(w.files, p), MB.FenceOf(marker);
      if InPlace(t, f, content) then p in w.files && v.files[p] == w.files[p]
      else v.files[p].File? && v.files[p].mode == ModeBefore(w.files, p) && BlockWritten(t, f, content, v.files[p].text)
    case Merging(p, keys, value, _) =>
      HoldsText(w.files, p) && p in v.files && v.files[p].File? && v.files[p].mode == ModeBefore(w.files, p) &&
      exists o, now :: HoldsObject(codec, TextThere(w.files, p), o) && HoldsObject(codec, TextOf(v.files[p]), now) &&
                       ValueMerged(o, keys, value, now)
    case Directory(p) => p in v.files && v.files[p] == Dir
    case Pull(image) =>
      image in v.images && if image in w.images then v.images[image] == w.images[image]
                           else Some(v.images[image]) == a.pulled
    case Build(tag) => tag in v.images && Some(v.images[tag]) == a.built
    case _ => v == w
  }

  lemma BlockDelivered(w: World, p: Path, marker: string, content: string, a: Answers, codec: Codec)
    requires BlockApply(w, p, marker, content, a).Applied?
    ensures Delivered(w, OwnedBlock(p, marker, content), a, BlockApply(w, p, marker, content, a).world, codec)
  {
    hide MB.WriteBlock, MB.FenceOf, MB.Block, MB.Fresh, InPlace, TwoBlocks, Unfit, CanPlace, TextOf, Split, Join,
         BlockWritten;
    var t, f := ReadRegular(w.files, p).text, MB.FenceOf(marker);
    WriteMeans(t, f, content);
    if p !in w.files { NeverInPlace(f, content); }
    if MB.WriteBlock(t, f, content).Written? { WrittenAsSaid(t, f, content); }
  }

  lemma NeverInPlace(f: MB.Fence, content: string)
    ensures !InPlace("", f, content)
  {
    hide MB.WriteBlock;
    C.NothingUnchanged(f, content);
    WriteMeans("", f, content);
  }

  lemma WrittenAsSaid(t: string, f: MB.Fence, content: string)
    requires MB.WriteBlock(t, f, content).Written?
    ensures BlockWritten(t, f, content, MB.WriteBlock(t, f, content).text)
  {
    hide MB.WriteBlock, MB.Block, MB.Fresh, Split, Join, TP.Expand, MB.NoBlock, OnlyBlock, MB.FindBlock;
    var ls := Split(t);
    WriteMeans(t, f, content);
    OneOfThree(ls, f);
    OnlyIsFirst(ls, f);
  }

  lemma MergeDelivered(w: World, p: Path, keys: seq<string>, value: Json, replaceExisting: bool, a: Answers,
                       codec: Codec)
    requires Lawful(codec) && keys != [] && MergeApply(w, p, keys, value, replaceExisting, a, codec).Applied?
    ensures Delivered(w, Merging(p, keys, value, replaceExisting), a,
                      MergeApply(w, p, keys, value, replaceExisting, a, codec).world, codec)
  {
    hide MergeAt, Lookup, CanPlace, Blank, Translate, Diverge;
    var t := ReadRegular(w.files, p).text;
    var o := RootOf(codec, t).value;
    assert HoldsObject(codec, t, o);
    var m := MergeAt(o, keys, value, replaceExisting);
    MergeInstalls(o, keys, value, replaceExisting);
    if m.Merged? {
      S.RenderedRoot(codec, m.root);
      forall q | q != [] && Diverge(keys, q) ensures Lookup(m.root, q) == Lookup(o, q) {
        MergeFrame(o, keys, value, replaceExisting, q);
      }
      assert HoldsObject(codec, codec.render(m.root), m.root) by { RenderedObject(codec, m.root); }
      assert ValueMerged(o, keys, value, m.root);
    } else {
      if p !in w.files { C.EmptyRoot(codec, keys, value, replaceExisting); }
      assert ValueMerged(o, keys, value, o);
    }
  }

  lemma RenderedObject(codec: Codec, o: Fields)
    requires Lawful(codec)
    ensures HoldsObject(codec, codec.render(o), o)
  {
  }

  /** A step that is applied delivers. */
  lemma AppliedDelivers(w: World, e: Effect, a: Answers, codec: Codec)
    requires Lawful(codec) && WellFormed(e) && !e.Custom? && ApplyEffect(w, e, a, codec).Applied?
    ensures Delivered(w, e, a, ApplyEffect(w, e, a, codec).world, codec)
  {
    match e
    case OwnedBlock(p, marker, content) =>
      hide BlockApply, Delivered;
      BlockDelivered(w, p, marker, content, a, codec);
    case Merging(p, keys, value, replaceExisting) =>
      hide MergeApply, Delivered;
      MergeDelivered(w, p, keys, value, replaceExisting, a, codec);
    case _ =>
  }

  /** A target of the step: its Keychain item, its image or tag. */
  predicate IsItem(e: Effect, item: Item) {
    e.Keychain? && e.item == item
  }

  predicate IsImage(e: Effect, image: string) {
    (e.Pull? && e.image == image) || (e.Build? && e.tag == image)
  }

  predicate IsPath(e: Effect, p: Path) {
    (e.OwnedBlock? || e.Merging? || e.Directory?) && e.path == p
  }

  predicate IsAbove(e: Effect, p: Path) {
    (e.OwnedBlock? || e.Merging? || e.Directory?) && p in Above(e.path)
  }

  /** Applied or not, a step touches nothing but its own target, and missing directories above it. */
  lemma OnlyTarget(w: World, e: Effect, a: Answers, codec: Codec)
    requires WellFormed(e)
    ensures var v := ApplyEffect(w, e, a, codec).world;
            (forall i :: !IsItem(e, i) ==> (i in v.keychain <==> i in w.keychain) &&
                                           (i in w.keychain ==> v.keychain[i] == w.keychain[i])) &&
            (forall t :: !IsImage(e, t) ==> (t in v.images <==> t in w.images) &&
                                            (t in w.images ==> v.images[t] == w.images[t])) &&
            (forall q :: q in w.files && !IsPath(e, q) ==> q in v.files && v.files[q] == w.files[q]) &&
            (forall q :: q in v.files && q !in w.files && !IsPath(e, q) ==> IsAbove(e, q) && v.files[q] == Dir)
  {
    hide MB.WriteBlock, MB.Block, MergeAt, RootOf, ReadRegular, CanPlace, Above;
  }

  /** An applied step reports a change exactly when it had something left to do. */
  lemma ChangedExactly(w: World, e: Effect, a: Answers, codec: Codec)
    requires Lawful(codec) && WellFormed(e) && ApplyEffect(w, e, a, codec).Applied?
    ensures var s := ApplyEffect(w, e, a, codec);
            (s.changed <==> !C.Settled(w, e, codec)) && (!s.changed ==> s.world == w)
  {
    hide MB.WriteBlock, MB.Block, MB.FenceOf, MergeAt, RootOf, Lookup, CanPlace, TextOf;
    if e.OwnedBlock? && e.path !in w.files {
      C.NothingUnchanged(MB.FenceOf(e.marker), e.content);
    } else if e.Merging? {
      var o := RootOf(codec, ReadRegular(w.files, e.path).text).value;
      C.SameExactly(o, e.keys, e.value, e.replaceExisting);
      if e.path !in w.files { C.EmptyRoot(codec, e.keys, e.value, e.replaceExisting); }
    }
  }

  /** What the receipt of an applied step says: what there was before, and what was put there. */
  ghost predicate Reports(w: World, e: Effect, a: Answers, r: Receipt, changed: bool, codec: Codec)
    requires WellFormed(e)
  {
    match e
    case Keychain(item, _) => r == KeychainReceipt(item, changed && item !in w.keychain, changed && item in w.keychain)
    case OwnedBlock(p, marker, content) =>
      HoldsText(w.files, p) && r.BlockReceipt? && r.path == p && r.marker == marker && (r.block.Some? <==> changed) &&
      (changed ==>
         r.block.value.fileExisted == (p in w.files) && r.block.value.mode == ModeFound(w.files, p) &&
         r.block.value.installed == MB.Block(MB.FenceOf(marker), content) &&
         var ls, f := Split(TextThere(w.files, p)), MB.FenceOf(marker);
         (MB.NoBlock(ls, f, false, 0) <==> r.block.value.prior.None?) &&
         forall s :: OnlyBlock(ls, f, s) ==> r.block.value.prior == Some(LinesOf(ls, s)))
    case Merging(p, keys, value, _) =>
      HoldsText(w.files, p) && r.MergeReceipt? && r.path == p && (r.merge.Some? <==> changed) &&
      (changed ==>
         exists o :: HoldsObject(codec, TextThere(w.files, p), o) &&
                     r.merge.value == MergeChange(keys, p in w.files, ModeFound(w.files, p), Lookup(o, keys).Some?,
                                                  value, false))
    case Directory(p) => r == DirectoryReceipt(p, changed)
    case Pull(image) => r == PullReceipt(image, image in w.images)
    case Build(tag) =>
      a.built.Some? && r == BuildReceipt(tag, if a.identified then a.built.value else "", tag in w.images)
    case ExportCertificates(output) => r == ExportReceipt(output)
    case VerifyCommand => r == VerifyReceipt
    case Notice => r == NoticeReceipt
    case Custom(script) => a.custom.CustomDone? && r == CustomReceipt(script, a.custom.reversible)
  }

  lemma BlockReported(w: World, p: Path, marker: string, content: string, a: Answers, codec: Codec)
    requires BlockApply(w, p, marker, content, a).Applied?
    ensures var s := BlockApply(w, p, marker, content, a);
            Reports(w, OwnedBlock(p, marker, content), a, s.receipt, s.changed, codec)
  {
    hide MB.WriteBlock, MB.FenceOf, MB.Block, MB.NoBlock, MB.Fresh, OnlyBlock, CanPlace, TextOf, Split, Join, LinesOf;
    var t, f := ReadRegular(w.files, p).text, MB.FenceOf(marker);
    if MB.WriteBlock(t, f, content).Written? { PriorAsSaid(t, f, content); }
  }

  lemma PriorAsSaid(t: string, f: MB.Fence, content: string)
    requires MB.WriteBlock(t, f, content).Written?
    ensures var w := MB.WriteBlock(t, f, content);
            (MB.NoBlock(Split(t), f, false, 0) <==> w.prior.None?) &&
            forall s :: OnlyBlock(Split(t), f, s) ==> w.prior == Some(LinesOf(Split(t), s))
  {
    hide MB.WriteBlock, MB.Block, MB.Fresh, Split, Join, TP.Expand, MB.NoBlock, OnlyBlock, MB.FindBlock, LinesOf;
    WriteMeans(t, f, content);
    OneOfThree(Split(t), f);
    OnlyIsFirst(Split(t), f);
  }

  lemma MergeReported(w: World, p: Path, keys: seq<string>, value: Json, replaceExisting: bool, a: Answers,
                      codec: Codec)
    requires keys != [] && MergeApply(w, p, keys, value, replaceExisting, a, codec).Applied?
    ensures var s := MergeApply(w, p, keys, value, replaceExisting, a, codec);
            Reports(w, Merging(p, keys, value, replaceExisting), a, s.receipt, s.changed, codec)
  {
    hide MergeAt, Lookup, CanPlace, Blank, TextOf;
    var t := ReadRegular(w.files, p).text;
    var o := RootOf(codec, t).value;
    assert HoldsObject(codec, t, o);
    MergeInstalls(o, keys, value, replaceExisting);
  }

  /** A step that is applied issues the receipt that says so. */
  lemma AppliedReports(w: World, e: Effect, a: Answers, codec: Codec)
    requires WellFormed(e) && ApplyEffect(w, e, a, codec).Applied?
    ensures var s := ApplyEffect(w, e, a, codec); Reports(w, e, a, s.receipt, s.changed, codec)
  {
    match e
    case OwnedBlock(p, marker, content) =>
      hide BlockApply, Reports;
      BlockReported(w, p, marker, content, a, codec);
    case Merging(p, keys, value, replaceExisting) =>
      hide MergeApply, Reports;
      MergeReported(w, p, keys, value, replaceExisting, a, codec);
    case _ =>
  }

  // ---- when a step is not applied ----

  /** What raises an error that the transaction does not handle: bytes that are not UTF-8, several blocks of one
      owner, a block that is no template, an unreadable result. */
  ghost predicate Stumbles(w: World, e: Effect, a: Answers) {
    match e
    case OwnedBlock(p, marker, content) =>
      (a.readable && p in w.files && w.files[p].Binary?) ||
      (a.readable && HoldsText(w.files, p) &&
       var t, f := TextThere(w.files, p), MB.FenceOf(marker);
       TwoBlocks(Split(t), f) || Unfit(t, f, content))
    case Merging(p, _, _, _) => a.readable && p in w.files && w.files[p].Binary?
    case ExportCertificates(_) => a.contextOk && a.exported == Garbled
    case Custom(_) => a.custom.CustomRaised?
    case _ => false
  }

  lemma BlockEscapesExactly(w: World, p: Path, marker: string, content: string, a: Answers)
    ensures BlockApply(w, p, marker, content, a).Escaped? <==> Stumbles(w, OwnedBlock(p, marker, content), a)
    ensures !BlockApply(w, p, marker, content, a).FailedOwing?
  {
    hide MB.WriteBlock, MB.FenceOf, MB.Block, InPlace, TwoBlocks, Unfit, CanPlace, TextOf, Split;
    if HoldsText(w.files, p) { WriteMeans(TextThere(w.files, p), MB.FenceOf(marker), content); }
  }

  /** A step escapes exactly then, and owes a compensation exactly when a Keychain step may have left something or a
      script failed to undo itself; in every other case it is applied or fails. */
  lemma EscapesExactly(w: World, e: Effect, a: Answers, codec: Codec)
    requires WellFormed(e)
    ensures var s := ApplyEffect(w, e, a, codec);
            (s.Escaped? <==> Stumbles(w, e, a)) && (s.Escaped? ==> s.world == w) &&
            (s.FailedOwing? <==> (e.Keychain? && B.LeftOwing(w, e.item, e.replaceExisting, a)) ||
                                 (e.Custom? && a.custom.CustomIncomplete?))
  {
    hide BlockApply, MergeAt, RootOf, CanPlace, TextOf, InPlace, TwoBlocks, Unfit, Split, MB.FenceOf;
    if e.OwnedBlock? {
      BlockEscapesExactly(w, e.path, e.marker, e.content, a);
      BlockEscapeKeeps(w, e.path, e.marker, e.content, a);
    }
  }

  lemma BlockEscapeKeeps(w: World, p: Path, marker: string, content: string, a: Answers)
    ensures BlockApply(w, p, marker, content, a).Escaped? ==> BlockApply(w, p, marker, content, a).world == w
  {
    hide MB.WriteBlock;
  }

  /** What a Keychain step that asked the tool left stored, whether it is applied or owes a compensation: what the tool
      stored, or else what was there. */
  lemma KeychainStores(w: World, item: Item, replaceExisting: bool, a: Answers)
    requires !(item in w.keychain && !replaceExisting)
    ensures var s := KeychainApply(w, item, replaceExisting, a);
            s.Applied? || s.FailedOwing? ==>
              (a.addStores.Some? ==> item in s.world.keychain && s.world.keychain[item] == a.addStores.value) &&
              (a.addStores.None? ==> s.world == w)
  {
  }
}
