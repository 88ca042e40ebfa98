/** Running a plan a second time changes nothing. */
module Convergence {
  import opened Text
  import opened JsonMerge
  import opened World
  import opened Runtime
  import opened Soundness
  import MB = ManagedBlock
  import BL = BlockLaws
  import RT = RoundTrips
  import SB = SafeBlocks

  /** The effect has nothing left to do. */
  predicate Settled(w: World, e: Effect, codec: Codec)
    requires WellFormed(e)
  {
    match e
    case Keychain(item, replaceExisting) => item in w.keychain && !replaceExisting
    case OwnedBlock(p, marker, content) =>
      p in w.files && w.files[p].File? && MB.WriteBlock(TextOf(w.files[p]), MB.FenceOf(marker), content) == MB.Unchanged
    case Merging(p, keys, value, replaceExisting) =>
      p in w.files && w.files[p].File? && RootOf(codec, TextOf(w.files[p])).Some? &&
      Lookup(RootOf(codec, TextOf(w.files[p])).value, keys) == Some(value)
    case Directory(p) => p in w.files && w.files[p] == Dir
    case Pull(image) => image in w.images
    case ExportCertificates(_) => true
    case VerifyCommand => true
    case Notice => true
    case Build(_) => false
    case Custom(_) => false
  }

  /** The steps for which a second run is promised to be quiet. */
  predicate Repeatable(e: Effect) {
    !e.Build? && !e.Custom? && (e.Keychain? ==> !e.replaceExisting)
  }

  /** Blocks of two steps in one file have different markers, and neither holds a marker line of the other. */
  predicate BlocksApart(e: Effect, later: Effect) {
    e.OwnedBlock? && later.OwnedBlock? && e.path == later.path ==>
      e.marker != later.marker &&
      BL.Apart(MB.FenceOf(later.marker), later.content, MB.FenceOf(e.marker), e.content)
  }

  /** Steps of one plan that do not write over each other. */
  predicate Compatible(e: Effect, later: Effect) {
    BlocksApart(e, later) &&
    (e.Merging? && (later.OwnedBlock? || later.Merging?) && e.path == later.path ==>
       later.Merging? && Diverge(later.keys, e.keys))
  }

  /** A block that is written is guarded and lasts. */
  predicate QuietStep(w: World, e: Effect) {
    e.OwnedBlock? && ReadRegular(w.files, e.path).Content? ==>
      var text, f := ReadRegular(w.files, e.path).text, MB.FenceOf(e.marker);
      MB.WriteBlock(text, f, e.content).Written? ==> BL.Guarded(text, f, e.content) && RT.Lasting(f, e.content)
  }

  /** A prior block that a step replaces holds no marker line of the earlier step. */
  predicate PriorApart(w: World, e: Effect, later: Effect) {
    e.OwnedBlock? && later.OwnedBlock? && e.path == later.path && ReadRegular(w.files, e.path).Content? ==>
      match MB.WriteBlock(ReadRegular(w.files, e.path).text, MB.FenceOf(later.marker), later.content)
      case Written(_, Some(prior)) => BL.Foreign(Split(prior), MB.FenceOf(e.marker))
      case _ => true
  }

  lemma {:induction false} SameExactly(o: Fields, keys: seq<string>, value: Json, replaceExisting: bool)
    requires keys != []
    ensures MergeAt(o, keys, value, replaceExisting).Same? <==> Lookup(o, keys) == Some(value)
    decreases |keys|
  {
    if |keys| > 1 && Child(o, keys[0]).Some? {
      SameExactly(Child(o, keys[0]).value, keys[1..], value, replaceExisting);
      assert Lookup(map[], keys[1..]) == None;
    }
  }

  /** A settled effect is applied without a change. */
  lemma SettledApplies(w: World, e: Effect, a: Answers, codec: Codec)
    requires WellFormed(e) && Settled(w, e, codec)
    requires a.readable && a.contextOk && a.exported == Good && a.verified
    ensures var s := ApplyEffect(w, e, a, codec); s.Applied? && s.world == w && !s.changed
  {
    hide MB.WriteBlock, MergeAt, RootOf, Lookup;
    if e.Merging? {
      SameExactly(RootOf(codec, TextOf(w.files[e.path])).value, e.keys, e.value, e.replaceExisting);
    }
  }

  /** Applying an effect settles it. */
  lemma AppliedSettles(w: World, e: Effect, a: Answers, codec: Codec)
    requires Lawful(codec) && WellFormed(e) && Repeatable(e) && QuietStep(w, e)
    requires ApplyEffect(w, e, a, codec).Applied?
    ensures Settled(ApplyEffect(w, e, a, codec).world, e, codec)
  {
    hide MB.WriteBlock, MergeAt, RootOf, Lookup, BL.Guarded, RT.Lasting, Translate;
    match e
    case OwnedBlock(p, marker, content) =>
      var text := ReadRegular(w.files, p).text;
      var f := MB.FenceOf(marker);
      if MB.WriteBlock(text, f, content).Written? {
        ReadHasNone(w.files, p);
        RT.ReadBackIsIdempotent(text, f, content);
      } else if p !in w.files {
        NothingUnchanged(f, content);
      }
    case Merging(p, keys, value, replaceExisting) =>
      var o := RootOf(codec, ReadRegular(w.files, p).text).value;
      MergeInstalls(o, keys, value, replaceExisting);
      var m := MergeAt(o, keys, value, replaceExisting);
      if m.Merged? {
        RenderedRoot(codec, m.root);
      } else if p !in w.files {
        EmptyRoot(codec, keys, value, replaceExisting);
      }
    case _ =>
  }

  lemma NothingUnchanged(f: MB.Fence, content: string)
    ensures MB.WriteBlock("", f, content) != MB.Unchanged
  {
    hide MB.Fresh, MB.ReplaceSpan;
    assert Split("") == [""];
  }

  lemma EmptyRoot(codec: Codec, keys: seq<string>, value: Json, replaceExisting: bool)
    requires keys != []
    ensures RootOf(codec, "") == Some(map[]) && MergeAt(map[], keys, value, replaceExisting) != Same
  {
  }

  lemma BlockStays(w: World, e: Effect, later: Effect, a: Answers, codec: Codec)
    requires Lawful(codec) && e.OwnedBlock? && IsLine(e.marker) && WellFormed(later)
    requires Settled(w, e, codec) && BlocksApart(e, later) && QuietStep(w, later) && PriorApart(w, e, later)
    requires ApplyEffect(w, later, a, codec).Applied?
    ensures Settled(ApplyEffect(w, later, a, codec).world, e, codec)
  {
    hide MB.WriteBlock, MB.FenceOf, BL.Apart, BL.Foreign, BL.Guarded, BL.Unbroken, RootOf, MergeAt, Translate, MB.Block;
    var text := TextOf(w.files[e.path]);
    var f, g := if later.OwnedBlock? then MB.FenceOf(later.marker) else MB.FenceOf(e.marker), MB.FenceOf(e.marker);
    MB.MarkersAreProper(e.marker);
    if later.OwnedBlock? && e.path == later.path && MB.WriteBlock(text, f, later.content).Written? {
      BL.WriteLeavesOther(text, f, later.content, g, e.content);
      ReadHasNone(w.files, e.path);
      RT.GuardedIsSeen(text, f, later.content);
    } else if later.Merging? && e.path == later.path {
      BlockedJson(codec, text, e.marker, e.content);
    }
  }

  /** A file that holds a block is not a JSON text. */
  lemma BlockedJson(codec: Codec, text: string, marker: string, content: string)
    requires Lawful(codec) && IsLine(marker) && MB.WriteBlock(text, MB.FenceOf(marker), content) == MB.Unchanged
    ensures RootOf(codec, text) == None
  {
    hide MB.WriteBlock, MB.BlockLines, Split, Join, Unlines;
    var f := MB.FenceOf(marker);
    MB.MarkersAreProper(marker);
    var s := BL.UnchangedMeans(text, f, content);
    BL.OpensFirst(f, content);
    var ls := Split(text);
    SplitGivesLines(text);
    JoinOfSplit(text);
    assert ls[s.first] == ls[s.first..s.last + 1][0];
    assert ls == ls[..s.first] + ls[s.first..];
    JoinAcross(ls[..s.first], ls[s.first..]);
    JoinHash(ls[s.first..]);
    HashIsNotJson(ls[..s.first], Join(ls[s.first..]));
  }

  lemma JoinHash(ls: seq<string>)
    requires 0 < |ls| && "#" <= ls[0]
    ensures "#" <= Join(ls)
  {
  }

  lemma MergeStays(w: World, e: Effect, later: Effect, a: Answers, codec: Codec)
    requires Lawful(codec) && e.Merging? && later.Merging? && e.path == later.path
    requires WellFormed(e) && WellFormed(later)
    requires Settled(w, e, codec) && Compatible(e, later)
    requires ApplyEffect(w, later, a, codec).Applied?
    ensures Settled(ApplyEffect(w, later, a, codec).world, e, codec)
  {
    hide MergeAt, RootOf, Lookup, Translate;
    var o := RootOf(codec, TextOf(w.files[e.path])).value;
    var m := MergeAt(o, later.keys, later.value, later.replaceExisting);
    if m.Merged? {
      MergeFrame(o, later.keys, later.value, later.replaceExisting, e.keys);
      RenderedRoot(codec, m.root);
    }
  }

  /** A settled effect stays settled while later effects of the plan are applied. */
  lemma SettledStays(w: World, e: Effect, later: Effect, a: Answers, codec: Codec)
    requires Lawful(codec) && WellFormed(e) && WellFormed(later) && Repeatable(later)
    requires e.OwnedBlock? ==> IsLine(e.marker)
    requires Settled(w, e, codec) && Compatible(e, later) && QuietStep(w, later) && PriorApart(w, e, later)
    requires ApplyEffect(w, later, a, codec).Applied?
    ensures Settled(ApplyEffect(w, later, a, codec).world, e, codec)
  {
    hide MB.WriteBlock, MergeAt, RootOf, Lookup, QuietStep, PriorApart, MB.FenceOf, BL.Apart;
    if e.OwnedBlock? {
      BlockStays(w, e, later, a, codec);
    } else if e.Merging? && later.Merging? && e.path == later.path {
      MergeStays(w, e, later, a, codec);
    }
  }

  // ---- two runs ----

  /** Every block the run writes is guarded and its prior block holds no line of an earlier step's block. */
  predicate QuietRun(w: World, es: seq<Effect>, k: nat, env: Environment, codec: Codec)
    requires k <= |es| && forall e :: e in es ==> WellFormed(e)
    decreases |es| - k
  {
    k < |es| && env.apply(k).consent ==>
      QuietStep(w, es[k]) && (forall i :: 0 <= i < k ==> PriorApart(w, es[i], es[k])) &&
      match ApplyEffect(w, es[k], env.apply(k), codec)
      case Applied(v, _, _) => QuietRun(v, es, k + 1, env, codec)
      case _ => true
  }

  predicate Coherent(es: seq<Effect>) {
    (forall i :: 0 <= i < |es| ==>
     WellFormed(es[i]) && Repeatable(es[i]) && (es[i].OwnedBlock? ==> IsLine(es[i].marker))) &&
    (forall i, j :: 0 <= i < j < |es| ==> Compatible(es[i], es[j]))
  }

  lemma {:induction false} RunSettles(w: World, es: seq<Effect>, k: nat, rs: seq<Entry>, changed: bool,
                                      env: Environment, codec: Codec)
    requires Lawful(codec) && Coherent(es) && k <= |es|
    requires forall e :: e in es ==> WellFormed(e)
    requires QuietRun(w, es, k, env, codec)
    requires forall i :: 0 <= i < k ==> Settled(w, es[i], codec)
    ensures var r := ApplyEffects(w, es, k, rs, changed, env, codec);
            r.Returned? && (r.record.status == Configured || r.record.status == AlreadyConfigured) ==>
              forall i :: 0 <= i < |es| ==> Settled(r.world, es[i], codec)
    decreases |es| - k
  {
    hide ApplyEffect, Settled, QuietStep, PriorApart, Compatible, Repeatable, RollbackAll, Lawful;
    if k < |es| && env.apply(k).consent && ApplyEffect(w, es[k], env.apply(k), codec).Applied? {
      var s := ApplyEffect(w, es[k], env.apply(k), codec);
      AppliedSettles(w, es[k], env.apply(k), codec);
      forall i | 0 <= i < k
        ensures Settled(s.world, es[i], codec)
      {
        SettledStays(w, es[i], es[k], env.apply(k), codec);
      }
      RunSettles(s.world, es, k + 1, rs + [Entry(s.receipt, false)], changed || s.changed, env, codec);
    }
  }

  predicate Willing(a: Answers) {
    a.consent && a.readable && a.contextOk && a.exported == Good && a.verified
  }

  lemma {:induction false} SettledRun(w: World, es: seq<Effect>, k: nat, rs: seq<Entry>, env: Environment, codec: Codec)
    requires k <= |es| && forall e :: e in es ==> WellFormed(e)
    requires forall i :: 0 <= i < |es| ==> Settled(w, es[i], codec)
    requires forall i :: 0 <= i < |es| ==> Willing(env.apply(i))
    ensures ApplyEffects(w, es, k, rs, false, env, codec) == Returned(w, Record(AlreadyConfigured, []))
    decreases |es| - k
  {
    hide ApplyEffect, Settled;
    if k < |es| {
      SettledApplies(w, es[k], env.apply(k), codec);
      var s := ApplyEffect(w, es[k], env.apply(k), codec);
      SettledRun(w, es, k + 1, rs + [Entry(s.receipt, false)], env, codec);
    }
  }

  predicate Open(g: Gates) {
    g.hashMatches && g.preflight.None? && g.platformSupported && g.toolsPresent && g.inputsGiven
  }

  /** A plan of repeatable, compatible steps that was configured once is found already configured by the next
      run: it returns no receipts and leaves the world exactly as it is. */
  lemma SecondRunIsQuiet(w: World, es: seq<Effect>, first: Environment, second: Environment, codec: Codec,
                         gates: Gates, again: Gates)
    requires Lawful(codec) && Coherent(es) && Open(again)
    requires forall e :: e in es ==> WellFormed(e)
    requires QuietRun(w, es, 0, first, codec)
    requires var r := ApplySetupPlan(w, es, gates, first, codec);
             r.Returned? && (r.record.status == Configured || r.record.status == AlreadyConfigured)
    requires gates.preflight.None?
    requires forall i :: 0 <= i < |es| ==> Willing(second.apply(i))
    ensures var v := ApplySetupPlan(w, es, gates, first, codec).world;
            ApplySetupPlan(v, es, again, second, codec) == Returned(v, Record(AlreadyConfigured, []))
  {
    hide ApplyEffects, QuietRun, Coherent, Willing, MB.WriteBlock, RootOf, Lookup;
    var v := ApplySetupPlan(w, es, gates, first, codec).world;
    RunSettles(w, es, 0, [], false, first, codec);
    forall i | 0 <= i < |es|
      ensures TargetIsFile(v.files, es[i])
    {
      assert Settled(v, es[i], codec);
    }
    SettledRun(v, es, 0, [], second, codec);
  }

  // ---- first-time setups ----

  /** No line of the effect's file opens a block of its owner yet. */
  predicate Unbegun(w: World, e: Effect) {
    e.OwnedBlock? && ReadRegular(w.files, e.path).Content? ==>
      !MB.Begins(ReadRegular(w.files, e.path).text, MB.FenceOf(e.marker))
  }

  predicate Marked(e: Effect) {
    e.OwnedBlock? ==> IsLine(e.marker)
  }

  predicate Whole(e: Effect) {
    e.OwnedBlock? ==> RT.Lasting(MB.FenceOf(e.marker), e.content)
  }

  /** The block of one step, as it is read, does not hold the opening line of another one in the same file. */
  predicate OpensNo(other: Effect, e: Effect) {
    other.OwnedBlock? && e.OwnedBlock? && other.path == e.path ==>
      MB.FenceOf(e.marker).open !in Split(Translate(MB.Block(MB.FenceOf(other.marker), other.content)))
  }

  lemma UnbegunIsSafe(w: World, e: Effect)
    requires Unbegun(w, e) && Marked(e)
    ensures SafeStep(w, e) && (Whole(e) ==> QuietStep(w, e))
  {
    hide MB.Begins, MB.Block, RT.Removable, RT.Lasting, MB.FindBlock, MB.UndoBlock, MB.Body, Translate;
    if e.OwnedBlock? && ReadRegular(w.files, e.path).Content? {
      var text, f := ReadRegular(w.files, e.path).text, MB.FenceOf(e.marker);
      MB.MarkersAreProper(e.marker);
      UnbegunNoPrior(text, f, e.content);
      BL.PriorFound(text, f, e.content);
      SB.NothingToUndo(text, f, MB.Block(f, e.content), None);
    }
  }

  lemma UnbegunNoPrior(text: string, f: MB.Fence, content: string)
    requires !MB.Begins(text, f)
    ensures MB.WriteBlock(text, f, content) == MB.Written(MB.Fresh(text, f, content), None)
  {
    hide MB.Fresh, Split;
    assert forall i :: 0 <= i < |Split(text)| ==> Split(text)[i] in Split(text);
  }

  lemma UnbegunStays(w: World, e: Effect, other: Effect, a: Answers, codec: Codec)
    requires Lawful(codec) && WellFormed(other) && Marked(e) && Marked(other)
    requires Unbegun(w, e) && Unbegun(w, other) && OpensNo(other, e)
    requires ApplyEffect(w, other, a, codec).Applied?
    ensures Unbegun(ApplyEffect(w, other, a, codec).world, e)
  {
    hide MB.Begins, MB.WriteBlock, MB.Fresh, MergeAt, RootOf, MB.Block, MB.FenceOf, Translate, Split, OpensNo;
    if e.OwnedBlock? && ReadRegular(w.files, e.path).Content? {
      if other.OwnedBlock? && e.path == other.path {
        UnbegunBehindBlock(w, e, other, a, codec);
      } else if other.Merging? && e.path == other.path {
        UnbegunBehindMerge(w, e, other, a, codec);
      }
    }
  }

  lemma UnbegunBehindBlock(w: World, e: Effect, other: Effect, a: Answers, codec: Codec)
    requires Lawful(codec) && Marked(e) && e.OwnedBlock? && other.OwnedBlock? && e.path == other.path
    requires Unbegun(w, e) && Unbegun(w, other) && OpensNo(other, e)
    requires ApplyEffect(w, other, a, codec).Applied?
    ensures Unbegun(ApplyEffect(w, other, a, codec).world, e)
  {
    hide MB.Begins, MB.WriteBlock, MB.Fresh, MB.Block, MB.FenceOf, Translate, Split;
    var text := ReadRegular(w.files, e.path).text;
    MB.MarkersAreProper(e.marker);
    UnbegunNoPrior(text, MB.FenceOf(other.marker), other.content);
    ReadHasNone(w.files, e.path);
    FreshBeginsNoOther(text, other.marker, other.content, MB.FenceOf(e.marker));
  }

  lemma UnbegunBehindMerge(w: World, e: Effect, other: Effect, a: Answers, codec: Codec)
    requires Lawful(codec) && WellFormed(other) && e.OwnedBlock? && other.Merging? && e.path == other.path
    requires Unbegun(w, e) && ApplyEffect(w, other, a, codec).Applied?
    ensures Unbegun(ApplyEffect(w, other, a, codec).world, e)
  {
    hide MB.Begins, MergeAt, RootOf, MB.FenceOf, Translate;
    var text := ReadRegular(w.files, e.path).text;
    var m := MergeAt(RootOf(codec, text).value, other.keys, other.value, other.replaceExisting);
    if m.Merged? {
      JsonBeginsNothing(codec, m.root, e.marker);
      RenderedRoot(codec, m.root);
    }
  }

  lemma JsonBeginsNothing(codec: Codec, o: Fields, marker: string)
    requires Lawful(codec)
    ensures !MB.Begins(codec.render(o), MB.FenceOf(marker))
  {
    hide Split;
    var t, open := codec.render(o), MB.FenceOf(marker).open;
    assert codec.parse(t) == Some(Object(o));
    assert "#" <= open;
    assert !HashLine(t);
    assert forall i :: 0 <= i < |Split(t)| ==> !("#" <= Split(t)[i]);
  }

  lemma FreshBeginsNoOther(text: string, marker: string, content: string, g: MB.Fence)
    requires MB.Proper(g) && '\r' !in text && !MB.Begins(text, g)
    requires g.open !in Split(Translate(MB.Block(MB.FenceOf(marker), content)))
    ensures !MB.Begins(Translate(MB.Fresh(text, MB.FenceOf(marker), content)), g)
  {
    hide Split, MB.LinesBefore, MB.Block, MB.FenceOf, Translate, MB.Separator, Unlines;
    var block := MB.Block(MB.FenceOf(marker), content);
    MB.BeforeFresh(text);
    MB.NothingBegins(text, g);
    BlockRead(MB.LinesBefore(text), text, marker, content);
    var k, b := MB.LinesBefore(text), Split(Translate(block));
    var ls := k + b + [""];
    forall i | 0 <= i < |ls|
      ensures ls[i] != g.open
    {
      if i < |k| { assert ls[i] == k[i] && k[i] in k; }
      else if i < |k| + |b| { assert ls[i] == b[i - |k|]; }
    }
  }

  /** A fresh block as it is read back, behind the lines that were there. */
  lemma BlockRead(k: seq<string>, text: string, marker: string, content: string)
    requires AllLines(k) && Unlines(k) == text + MB.Separator(text) && '\r' !in text
    ensures Split(Translate(MB.Fresh(text, MB.FenceOf(marker), content)))
         == k + Split(Translate(MB.Block(MB.FenceOf(marker), content))) + [""]
  {
    hide Split, MB.Separator, Unlines, MB.FenceOf;
    var block := MB.Block(MB.FenceOf(marker), content);
    MarkerEnds(marker, content);
    RT.PaddedKeeps(text);
    hide MB.Block;
    RT.SeenAround(text + MB.Separator(text), block, "\n", true);
    SplitAcrossNewline(Translate(block), "");
    assert Translate(block) + "\n" + "" == Translate(block) + "\n";
    SplitOfLine("");
    var t := Translate(block) + "\n";
    RT.Around(k, t, []);
    RT.NothingBehind();
    assert Unlines(k) + t + "" == Unlines(k) + Translate(block) + "\n";
    assert k + Split(t) + [] == k + (Split(Translate(block)) + [""]);
  }

  lemma MarkerEnds(marker: string, content: string)
    ensures var block := MB.Block(MB.FenceOf(marker), content); block != "" && block[|block| - 1] != '\r'
  {
    hide MB.RStrip;
    var f := MB.FenceOf(marker);
    assert f.close[|f.close| - 1] == '<';
  }

  /** A plan whose markers are on no line of its files yet meets the block conditions at every step. */
  lemma {:induction false} FirstSetupIsQuiet(w: World, es: seq<Effect>, k: nat, env: Environment, codec: Codec)
    requires Lawful(codec) && k <= |es|
    requires forall e :: e in es ==> WellFormed(e)
    requires forall i :: 0 <= i < |es| ==> Marked(es[i])
    requires forall i, j :: 0 <= i < j < |es| ==> OpensNo(es[i], es[j])
    requires forall i :: k <= i < |es| ==> Unbegun(w, es[i])
    ensures SafeRun(w, es, k, env, codec)
    ensures (forall i :: 0 <= i < |es| ==> Whole(es[i])) ==> QuietRun(w, es, k, env, codec)
    decreases |es| - k
  {
    hide ApplyEffect, Unbegun, Marked, Whole, OpensNo, SafeStep, QuietStep, PriorApart, Lawful;
    if k < |es| && env.apply(k).consent {
      UnbegunIsSafe(w, es[k]);
      forall i | 0 <= i < k
        ensures PriorApart(w, es[i], es[k])
      {
        UnbegunPrior(w, es[i], es[k]);
      }
      var s := ApplyEffect(w, es[k], env.apply(k), codec);
      if s.Applied? {
        forall i | k + 1 <= i < |es|
          ensures Unbegun(s.world, es[i])
        {
          UnbegunStays(w, es[i], es[k], env.apply(k), codec);
        }
        FirstSetupIsQuiet(s.world, es, k + 1, env, codec);
      }
    }
  }

  lemma UnbegunPrior(w: World, e: Effect, later: Effect)
    requires Unbegun(w, later)
    ensures PriorApart(w, e, later)
  {
  }
}
