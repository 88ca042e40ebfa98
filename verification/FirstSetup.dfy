/** First-time setups: everything the run promises, from conditions on the plan and the world it starts in. */
module FirstSetup {
  import opened Text
  import opened JsonMerge
  import opened World
  import opened Runtime
  import opened Soundness
  import opened Convergence
  import opened Completeness
  import V = Verification
  import MB = ManagedBlock
  import RT = RoundTrips
  import TP = Templates

  /** No step's marker is in its file yet, and no block holds the opening line of a later one. */
  predicate FirstTime(w: World, es: seq<Effect>) {
    (forall i :: 0 <= i < |es| ==> WellFormed(es[i]) && Marked(es[i]) && Unbegun(w, es[i]) && !es[i].Custom?) &&
    (forall i, j :: 0 <= i < j < |es| ==> OpensNo(es[i], es[j]))
  }

  /** Every block can be taken out again: none closes itself early or holds a carriage return. */
  predicate AllRemovable(es: seq<Effect>) {
    forall i :: 0 <= i < |es| && es[i].OwnedBlock? ==> RT.Removable(MB.FenceOf(es[i].marker), es[i].content)
  }

  function MadeBefore(es: seq<Effect>, k: nat): set<Path>
    requires k <= |es|
  {
    set j | 0 <= j < k && es[j].Directory? :: es[j].path
  }

  /** What lies under a directory that the plan makes comes after all directories above it, and values there go to the
      root of their file. */
  predicate Placed(w: World, es: seq<Effect>) {
    forall k :: 0 <= k < |es| && HasPath(es[k]) && Under(w.files, es, es[k].path) ==>
      Above(es[k].path) <= w.files.Keys + MadeBefore(es, k) && (es[k].Merging? ==> |es[k].keys| == 1)
  }

  lemma AppliedGrows(w: World, e: Effect, a: Answers, codec: Codec)
    requires WellFormed(e) && ApplyEffect(w, e, a, codec).Applied?
    ensures w.files.Keys <= ApplyEffect(w, e, a, codec).world.files.Keys
    ensures e.Directory? ==> e.path in ApplyEffect(w, e, a, codec).world.files
  {
    hide MB.WriteBlock, MB.Block, MergeAt, RootOf, Above;
  }

  lemma {:induction false} PlacedIsOrderly(w: World, v: World, es: seq<Effect>, k: nat, env: Environment, codec: Codec)
    requires Lawful(codec) && k <= |es| && (forall e :: e in es ==> WellFormed(e)) && Placed(w, es) && AllRemovable(es)
    requires w.files.Keys + MadeBefore(es, k) <= v.files.Keys
    requires forall i :: 0 <= i < |es| ==> Marked(es[i])
    requires forall i, j :: 0 <= i < j < |es| ==> OpensNo(es[i], es[j])
    requires forall i :: k <= i < |es| ==> Unbegun(v, es[i])
    ensures OrderlyRun(w.files, v, es, k, env, codec)
    decreases |es| - k
  {
    hide ApplyEffect, Under, Above, SureStep, Unbegun, Marked, OpensNo, Lawful, RT.Removable;
    if k < |es| && env.apply(k).consent {
      UnbegunIsSure(v, es[k]);
      if ApplyEffect(v, es[k], env.apply(k), codec).Applied? {
        AppliedGrows(v, es[k], env.apply(k), codec);
        var x := ApplyEffect(v, es[k], env.apply(k), codec).world;
        assert MadeBefore(es, k + 1) == MadeBefore(es, k) + (if es[k].Directory? then {es[k].path} else {});
        forall i | k + 1 <= i < |es| ensures Unbegun(x, es[i]) { UnbegunStays(v, es[i], es[k], env.apply(k), codec); }
        PlacedIsOrderly(w, x, es, k + 1, env, codec);
      }
    }
  }

  lemma UnbegunIsSure(w: World, e: Effect)
    requires Unbegun(w, e) && (e.OwnedBlock? ==> RT.Removable(MB.FenceOf(e.marker), e.content))
    ensures SureStep(w, e)
  {
    hide MB.Begins, RT.Removable, MB.WriteBlock, MB.Fresh, MB.FenceOf;
    if e.OwnedBlock? && ReadRegular(w.files, e.path).Content? {
      UnbegunNoPrior(ReadRegular(w.files, e.path).text, MB.FenceOf(e.marker), e.content);
    }
  }

  // ---- whether the run returns a record ----

  /** Applying this step meets bytes that are not UTF-8. */
  predicate Garbles(w: World, e: Effect, a: Answers) {
    match e
    case OwnedBlock(p, _, _) => a.readable && ReadRegular(w.files, p).Undecodable?
    case Merging(p, _, _, _) => a.readable && ReadRegular(w.files, p).Undecodable?
    case ExportCertificates(_) => a.contextOk && a.exported == Garbled
    case _ => false
  }

  /** Every step that the run reaches finds text. */
  predicate DecodesAlong(w: World, es: seq<Effect>, k: nat, env: Environment, codec: Codec)
    requires k <= |es| && forall e :: e in es ==> WellFormed(e)
    decreases |es| - k
  {
    k < |es| && env.apply(k).consent ==>
      !Garbles(w, es[k], env.apply(k)) &&
      match ApplyEffect(w, es[k], env.apply(k), codec)
      case Applied(v, _, _) => DecodesAlong(v, es, k + 1, env, codec)
      case _ => true
  }

  /** The checks before the first step let the run begin. */
  predicate Begun(w: World, es: seq<Effect>, gates: Gates) {
    Open(gates) && forall i :: 0 <= i < |es| ==> TargetIsFile(w.files, es[i])
  }

  predicate BinaryAt(fs: Files, p: Path) {
    p in fs && fs[p].Binary?
  }

  /** No file has become one that is not UTF-8. */
  predicate NoMoreBinary(was: Files, now: Files) {
    forall p :: p in now && BinaryAt(now, p) ==> BinaryAt(was, p)
  }

  /** The receipt replaced no earlier block, and its file holds text. */
  predicate Readable(fs: Files, r: Receipt) {
    (r.BlockReceipt? && r.block.Some? ==> r.block.value.prior.None? && !BinaryAt(fs, r.path)) &&
    (r.MergeReceipt? && r.merge.Some? ==> !BinaryAt(fs, r.path)) && !r.CustomReceipt?
  }

  predicate AllReadable(fs: Files, rs: seq<Entry>) {
    forall i :: 0 <= i < |rs| ==> Readable(fs, rs[i].receipt)
  }

  lemma UndoReturns(w: World, e: Entry, a: Answers, codec: Codec)
    requires Readable(w.files, e.receipt)
    ensures Rollback(w, e, a, codec).verdict != Threw
    ensures NoMoreBinary(w.files, Rollback(w, e, a, codec).world.files)
  {
    hide UnmergeAt, MB.FenceOf, MB.UndoBlock, TextOf, ParsedObject, HasList;
    if e.receipt.BlockReceipt? && e.receipt.block.Some? && ReadRegular(w.files, e.receipt.path).Content? {
      NoPriorNoFailure(ReadRegular(w.files, e.receipt.path).text, MB.FenceOf(e.receipt.marker),
                       e.receipt.block.value.installed);
    }
  }

  lemma NoPriorNoFailure(t: string, f: MB.Fence, installed: string)
    ensures MB.UndoBlock(t, f, installed, None) != MB.UndoFails
  {
    hide Split, Join, Unlines, MB.FindBlock, TP.Expand;
    var ls := Split(t);
    var r := MB.FindBlock(ls, f, true, 0);
    if r.Some? {
      var s := r.value;
      TP.EmptyExpands(MB.Found(installed, ls[s.last] == f.close && s.last + 1 < |ls|));
    }
  }

  lemma {:induction false} RollbackReturns(w: World, rs: seq<Entry>, undo: nat -> Answers, codec: Codec)
    requires AllReadable(w.files, rs)
    ensures RollbackAll(w, rs, undo, codec).verdict != Threw
    decreases |rs|
  {
    hide Rollback, Readable, NoMoreBinary;
    if rs != [] {
      var n := |rs| - 1;
      UndoReturns(w, rs[n], undo(n), codec);
      var v := Rollback(w, rs[n], undo(n), codec).world;
      forall i | 0 <= i < n ensures Readable(v.files, rs[i].receipt) { StillReadable(w.files, v.files, rs[i].receipt); }
      RollbackReturns(v, rs[..n], undo, codec);
    }
  }

  lemma StillReadable(was: Files, now: Files, r: Receipt)
    requires NoMoreBinary(was, now) && Readable(was, r)
    ensures Readable(now, r)
  {
  }

  lemma StepReturns(w: World, e: Effect, a: Answers, codec: Codec)
    requires WellFormed(e) && Unbegun(w, e) && !e.Custom?
    ensures ApplyEffect(w, e, a, codec).Escaped? <==> Garbles(w, e, a)
    ensures var s := ApplyEffect(w, e, a, codec);
            NoMoreBinary(w.files, s.world.files) &&
              (s.Applied? || s.FailedOwing? ==> Readable(s.world.files, s.receipt))
  {
    hide MB.Begins, MB.Fresh, MB.Block, MB.FenceOf, MergeAt, RootOf, Above, TextOf, ReadRegular, CanPlace;
    if e.OwnedBlock? {
      BlockReturns(w, e, a);
    } else {
      hide MB.WriteBlock;
    }
  }

  lemma BlockReturns(w: World, e: Effect, a: Answers)
    requires e.OwnedBlock? && Unbegun(w, e)
    ensures var s := BlockApply(w, e.path, e.marker, e.content, a);
            (s.Escaped? <==> Garbles(w, e, a)) && NoMoreBinary(w.files, s.world.files) &&
            (s.Applied? || s.FailedOwing? ==> Readable(s.world.files, s.receipt))
  {
    hide MB.WriteBlock, MB.Begins, MB.Fresh, MB.Block, MB.FenceOf, TextOf;
    if ReadRegular(w.files, e.path).Content? {
      UnbegunNoPrior(ReadRegular(w.files, e.path).text, MB.FenceOf(e.marker), e.content);
    }
  }

  lemma ReadableStep(was: Files, now: Files, rs: seq<Entry>, r: Receipt)
    requires AllReadable(was, rs) && NoMoreBinary(was, now) && Readable(now, r)
    ensures AllReadable(now, rs) && AllReadable(now, rs + [Entry(r, false)])
  {
    hide Readable, NoMoreBinary;
    forall i | 0 <= i < |rs| ensures Readable(now, rs[i].receipt) { StillReadable(was, now, rs[i].receipt); }
  }

  lemma {:induction false} RunReturns(w: World, es: seq<Effect>, k: nat, rs: seq<Entry>, changed: bool,
                                      env: Environment,
                                      codec: Codec)
    requires Lawful(codec) && k <= |es| && AllReadable(w.files, rs)
    requires forall e :: e in es ==> WellFormed(e)
    requires forall i :: 0 <= i < |es| ==> Marked(es[i]) && !es[i].Custom?
    requires forall i, j :: 0 <= i < j < |es| ==> OpensNo(es[i], es[j])
    requires forall i :: k <= i < |es| ==> Unbegun(w, es[i])
    ensures ApplyEffects(w, es, k, rs, changed, env, codec).Returned? <==> DecodesAlong(w, es, k, env, codec)
    decreases |es| - k
  {
    hide ApplyEffect, Unbegun, Marked, OpensNo, Lawful, RollbackAll, Readable, NoMoreBinary, Garbles;
    if k < |es| {
      var a := env.apply(k);
      if !a.consent {
        RollbackReturns(w, rs, env.undo, codec);
      } else {
        StepReturns(w, es[k], a, codec);
        match ApplyEffect(w, es[k], a, codec)
        case Applied(v, r, c) =>
          forall i | k + 1 <= i < |es| ensures Unbegun(v, es[i]) { UnbegunStays(w, es[i], es[k], a, codec); }
          ReadableStep(w.files, v.files, rs, r);
          RunReturns(v, es, k + 1, rs + [Entry(r, false)], changed || c, env, codec);
        case Failed(v) =>
          ReadableStep(w.files, v.files, rs, NoticeReceipt) by { NoticeReadable(v.files); }
          RollbackReturns(v, rs, env.undo, codec);
        case FailedOwing(v, r) =>
          ReadableStep(w.files, v.files, rs, r);
          RollbackReturns(v, rs + [Entry(r, false)], env.undo, codec);
        case Escaped(_) =>
      }
    }
  }

  lemma NoticeReadable(fs: Files)
    ensures Readable(fs, NoticeReceipt)
  {
  }

  /** What can be checked before: every managed target holds text or is missing. */
  predicate TargetDecodes(fs: Files, e: Effect) {
    WritesFile(e) ==> !BinaryAt(fs, e.path)
  }

  /** With such targets, and certificate bundles that are text, every step that the run reaches finds text. */
  lemma {:induction false} TextTargetsDecode(w: World, es: seq<Effect>, k: nat, env: Environment, codec: Codec)
    requires Lawful(codec) && k <= |es| && (forall e :: e in es ==> WellFormed(e))
    requires forall i :: 0 <= i < |es| ==> Marked(es[i]) && !es[i].Custom? && env.apply(i).exported != Garbled
    requires forall i, j :: 0 <= i < j < |es| ==> OpensNo(es[i], es[j])
    requires forall i :: k <= i < |es| ==> Unbegun(w, es[i]) && TargetDecodes(w.files, es[i])
    ensures DecodesAlong(w, es, k, env, codec)
    decreases |es| - k
  {
    hide ApplyEffect, Unbegun, Marked, OpensNo, Lawful;
    if k < |es| && env.apply(k).consent {
      var a := env.apply(k);
      StepReturns(w, es[k], a, codec);
      var s := ApplyEffect(w, es[k], a, codec);
      if s.Applied? {
        forall i | k + 1 <= i < |es| ensures Unbegun(s.world, es[i]) && TargetDecodes(s.world.files, es[i]) {
          UnbegunStays(w, es[i], es[k], a, codec);
        }
        TextTargetsDecode(s.world, es, k + 1, env, codec);
      }
    }
  }

  // ---- the promise ----

  /** A first-time plan, with whatever answers of tools and operator, ends in a record if and only if every step that
      it reaches finds text in its target or certificate bundle; and when that record says the setup was cancelled,
      rolled back or failed verification, it carries no receipts and the world is as it was before. */
  lemma FirstSetupIsSafe(w: World, es: seq<Effect>, gates: Gates, env: Environment, codec: Codec)
    requires Lawful(codec) && FirstTime(w, es)
    requires forall e :: e in es ==> WellFormed(e)
    ensures var r := ApplySetupPlan(w, es, gates, env, codec);
            (r.Returned? <==> (Begun(w, es, gates) ==> DecodesAlong(w, es, 0, env, codec))) &&
            (r.Returned? && SaysRestored(r.record.status) ==>
               r.record.receipts == [] && Restored(codec, ScopeOf(es), w, r.world))
  {
    hide ApplyEffects, Restored, SafeRun, QuietRun, Unbegun, Marked, OpensNo, Lawful, DecodesAlong;
    FirstSetupIsQuiet(w, es, 0, env, codec);
    RunReturns(w, es, 0, [], false, env, codec);
    assert forall e :: e in es ==> !e.Custom?;
    RolledBackIsRestored(w, es, gates, env, codec);
  }

  /** A first-time plan of reversible steps with separate targets and removable blocks, with truthful tools that work
      while the run is compensated, ends in a record as above, and then: refused or failing at any step, the world is as
      it was; and otherwise it is configured, and undoing its record gives the same back when no list was merged. It
      never ends as an incomplete rollback; a target that is no regular file is found before the first step. */
  lemma FirstSetupIsReversible(w: World, es: seq<Effect>, gates: Gates, env: Environment, undo: nat -> Answers,
                               codec: Codec)
    requires Lawful(codec) && FirstTime(w, es) && AllRemovable(es) && Separate(w.files, es) && Rooted(w.files) &&
             Placed(w, es)
    requires forall i :: 0 <= i < |es| ==> Reversible(w, es[i])
    requires forall e :: e in es ==> WellFormed(e)
    requires forall i :: 0 <= i < |es| ==> Truthful(env.apply(i)) && Working(env.undo(i)) && Working(undo(i))
    requires Open(gates)
    ensures var r := ApplySetupPlan(w, es, gates, env, codec);
            (r.Returned? <==> (Begun(w, es, gates) ==> DecodesAlong(w, es, 0, env, codec))) &&
            (r.Returned? ==>
               r.record.status in {Configured, AlreadyConfigured} || SaysRestored(r.record.status) ||
               (r.record.status == PrerequisiteMissing && r.world == w)) &&
            (r.Returned? && SaysRestored(r.record.status) ==> Restored(codec, ScopeOf(es), w, r.world)) &&
            (r.Returned? && r.record.status == Configured &&
             (forall e :: e in es && e.Merging? ==> !HasList(e.value)) ==>
               var u := RollbackRecord(r.world, r.record, undo, codec);
               u.Returned? && u.record == Record(Skipped, []) && Restored(codec, ScopeOf(es), w, u.world))
  {
    hide ApplyEffects, Restored, SafeRun, QuietRun, OrderlyRun, Unbegun, Marked, OpensNo, Lawful, Separate,
         Rooted, Placed, AllRemovable, Reversible, Truthful, Working, HasList, RollbackAll, DecodesAlong, Begun;
    FirstSetupIsQuiet(w, es, 0, env, codec);
    assert MadeBefore(es, 0) == {};
    PlacedIsOrderly(w, w, es, 0, env, codec);
    FirstSetupIsSafe(w, es, gates, env, codec);
    assert forall e :: e in es ==> !e.Custom?;
    RollbackAlwaysCompletes(w, es, gates, env, codec);
    StatusOfRun(w, es, gates, env, codec);
    var r := ApplySetupPlan(w, es, gates, env, codec);
    if r.Returned? && r.record.status == Configured && (forall e :: e in es && e.Merging? ==> !HasList(e.value)) {
      ConfiguredCanBeUndone(w, es, gates, env, undo, codec);
    }
  }

  lemma {:induction false} StatusOf(w: World, es: seq<Effect>, k: nat, rs: seq<Entry>, changed: bool, env: Environment,
                                    codec: Codec)
    requires k <= |es| && forall e :: e in es ==> WellFormed(e)
    ensures var r := ApplyEffects(w, es, k, rs, changed, env, codec);
            r.Returned? ==> r.record.status in {Configured, AlreadyConfigured, RollbackIncomplete} ||
                            SaysRestored(r.record.status)
    decreases |es| - k
  {
    hide ApplyEffect, RollbackAll;
    if k < |es| && env.apply(k).consent && ApplyEffect(w, es[k], env.apply(k), codec).Applied? {
      var s := ApplyEffect(w, es[k], env.apply(k), codec);
      StatusOf(s.world, es, k + 1, rs + [Entry(s.receipt, false)], changed || s.changed, env, codec);
    }
  }

  lemma StatusOfRun(w: World, es: seq<Effect>, gates: Gates, env: Environment, codec: Codec)
    requires Open(gates) && forall e :: e in es ==> WellFormed(e)
    ensures var r := ApplySetupPlan(w, es, gates, env, codec);
            r.Returned? ==> r.record.status in {Configured, AlreadyConfigured, RollbackIncomplete} ||
                            SaysRestored(r.record.status) || (r.record.status == PrerequisiteMissing && r.world == w)
  {
    hide ApplyEffects;
    StatusOf(w, es, 0, [], false, env, codec);
  }

  /** A first-time plan of repeatable steps that was configured stays configured: its claims are answered true, and the
      next run finds nothing to do and leaves the world exactly as it is. */
  lemma FirstSetupConverges(w: World, es: seq<Effect>, gates: Gates, env: Environment, again: Environment, codec: Codec)
    requires Lawful(codec) && FirstTime(w, es) && Coherent(es) && Open(gates) && V.NoBlankSecrets(w, es)
    requires forall e :: e in es ==> WellFormed(e) && Whole(e)
    requires forall i :: 0 <= i < |es| ==> V.StoresSomething(env.apply(i)) && Willing(again.apply(i))
    requires var r := ApplySetupPlan(w, es, gates, env, codec); r.Returned? && r.record.status == Configured
    ensures var r := ApplySetupPlan(w, es, gates, env, codec);
            ApplySetupPlan(r.world, es, gates, again, codec) == Returned(r.world, Record(AlreadyConfigured, [])) &&
            forall c :: c in V.AllClaims(r.record.receipts) && !c.OutputPresent? ==> V.Check(r.world, c) == V.True
  {
    hide ApplyEffects, QuietRun, SafeRun, Unbegun, Marked, OpensNo, Lawful, Willing, V.StoresSomething, V.Check,
         V.NoBlankSecrets, Whole;
    FirstSetupIsQuiet(w, es, 0, env, codec);
    var r := ApplySetupPlan(w, es, gates, env, codec);
    SecondRunIsQuiet(w, es, env, again, codec, gates, gates);
    forall c | c in V.AllClaims(r.record.receipts) && !c.OutputPresent? ensures V.Check(r.world, c) == V.True {
      V.FreshRecordVerifies(w, es, gates, env, codec, c);
    }
  }
}
