/** Which record a run ends in, by what its steps answer, and where it stops before its first step. */
module Runs {
  import opened Text
  import opened World
  import opened Runtime

  // ---- the steps of a run ----

  /** The world that step k meets when all steps before it are applied. */
  function WorldAt(w: World, es: seq<Effect>, k: nat, env: Environment, codec: Codec): World
    requires k <= |es| && forall e :: e in es ==> WellFormed(e)
    decreases k, 0
  {
    if k == 0 then w else StepAt(w, es, k - 1, env, codec).world
  }

  function StepAt(w: World, es: seq<Effect>, k: nat, env: Environment, codec: Codec): Step
    requires k < |es| && forall e :: e in es ==> WellFormed(e)
    decreases k, 1
  {
    ApplyEffect(WorldAt(w, es, k, env, codec), es[k], env.apply(k), codec)
  }

  /** The first n steps are consented to and applied. */
  predicate Reaches(w: World, es: seq<Effect>, n: nat, env: Environment, codec: Codec)
    requires n <= |es| && forall e :: e in es ==> WellFormed(e)
  {
    forall k :: 0 <= k < n ==> env.apply(k).consent && StepAt(w, es, k, env, codec).Applied?
  }

  /** Step k is applied and reports a change. */
  predicate ChangesAt(w: World, es: seq<Effect>, k: nat, env: Environment, codec: Codec)
    requires k < |es| && forall e :: e in es ==> WellFormed(e)
  {
    StepAt(w, es, k, env, codec).Applied? && StepAt(w, es, k, env, codec).changed
  }

  predicate SomeChanged(w: World, es: seq<Effect>, n: nat, env: Environment, codec: Codec)
    requires n <= |es| && (forall e :: e in es ==> WellFormed(e)) && Reaches(w, es, n, env, codec)
  {
    exists k :: 0 <= k < n && ChangesAt(w, es, k, env, codec)
  }

  /** The receipts that the first n steps issued, in order. */
  function Issues(w: World, es: seq<Effect>, n: nat, env: Environment, codec: Codec): (rs: seq<Entry>)
    requires n <= |es| && (forall e :: e in es ==> WellFormed(e)) && Reaches(w, es, n, env, codec)
    ensures |rs| == n
    ensures forall k :: 0 <= k < n ==> rs[k] == Entry(StepAt(w, es, k, env, codec).receipt, false)
  {
    seq(n, k requires 0 <= k < n && Reaches(w, es, n, env, codec) => Entry(StepAt(w, es, k, env, codec).receipt, false))
  }

  lemma ChangedNext(w: World, es: seq<Effect>, n: nat, env: Environment, codec: Codec)
    requires 0 < n <= |es| && (forall e :: e in es ==> WellFormed(e)) && Reaches(w, es, n, env, codec)
    ensures SomeChanged(w, es, n, env, codec) <==>
            SomeChanged(w, es, n - 1, env, codec) || StepAt(w, es, n - 1, env, codec).changed
  {
    hide ApplyEffect;
    var m := n - 1;
    assert ChangesAt(w, es, m, env, codec) <==> StepAt(w, es, m, env, codec).changed;
    if SomeChanged(w, es, n, env, codec) {
      var k :| 0 <= k < n && ChangesAt(w, es, k, env, codec);
      assert k < m ==> SomeChanged(w, es, m, env, codec);
    }
  }

  /** A run that got as far as step n goes on from there with what its steps left, issued and reported. */
  lemma {:induction false} RunReaches(w: World, es: seq<Effect>, n: nat, env: Environment, codec: Codec)
    requires n <= |es| && (forall e :: e in es ==> WellFormed(e)) && Reaches(w, es, n, env, codec)
    ensures ApplyEffects(w, es, 0, [], false, env, codec)
         == ApplyEffects(WorldAt(w, es, n, env, codec), es, n, Issues(w, es, n, env, codec),
                         SomeChanged(w, es, n, env, codec), env, codec)
  {
    hide ApplyEffect;
    if n > 0 {
      RunReaches(w, es, n - 1, env, codec);
      var s := StepAt(w, es, n - 1, env, codec);
      assert Issues(w, es, n, env, codec) == Issues(w, es, n - 1, env, codec) + [Entry(s.receipt, false)];
      ChangedNext(w, es, n, env, codec);
    } else {
      assert Issues(w, es, 0, env, codec) == [];
    }
  }

  // ---- the record of a finished run ----

  lemma FinishedRun(w: World, es: seq<Effect>, env: Environment, codec: Codec)
    requires (forall e :: e in es ==> WellFormed(e)) && Reaches(w, es, |es|, env, codec)
    ensures var r, n := ApplyEffects(w, es, 0, [], false, env, codec), |es|;
            r.Returned? && r.world == WorldAt(w, es, n, env, codec) &&
            ((exists k :: 0 <= k < n && ChangesAt(w, es, k, env, codec)) ==>
               r.record == Record(Configured, Freeze(Issues(w, es, n, env, codec)))) &&
            ((forall k :: 0 <= k < n ==> !ChangesAt(w, es, k, env, codec)) ==>
               r.record == Record(AlreadyConfigured, []))
  {
    hide ApplyEffect;
    RunReaches(w, es, |es|, env, codec);
  }

  /** A run is configured if and only if every step is consented to and applied and some step reported a change; its
      record then holds one entry per step, in order, each the receipt that step issued as a record keeps it. It is
      already configured, with no receipts, if and only if every step is applied and none reported a change. */
  lemma ConfiguredExactly(w: World, es: seq<Effect>, env: Environment, codec: Codec)
    requires forall e :: e in es ==> WellFormed(e)
    ensures var r := ApplyEffects(w, es, 0, [], false, env, codec);
            (r.Returned? && r.record.status == Configured <==>
               Reaches(w, es, |es|, env, codec) &&
               exists k :: 0 <= k < |es| && ChangesAt(w, es, k, env, codec)) &&
            (r.Returned? && r.record.status == Configured ==>
               r.world == WorldAt(w, es, |es|, env, codec) && |r.record.receipts| == |es| &&
               forall k :: 0 <= k < |es| ==>
                 r.record.receipts[k] == Frozen(Entry(StepAt(w, es, k, env, codec).receipt, false)))
    ensures var r := ApplyEffects(w, es, 0, [], false, env, codec);
            (r.Returned? && r.record.status == AlreadyConfigured <==>
               Reaches(w, es, |es|, env, codec) &&
               forall k :: 0 <= k < |es| ==> !ChangesAt(w, es, k, env, codec)) &&
            (r.Returned? && r.record.status == AlreadyConfigured ==>
               r.world == WorldAt(w, es, |es|, env, codec) && r.record.receipts == [])
  {
    hide ApplyEffects, ApplyEffect, RollbackAll;
    if Reaches(w, es, |es|, env, codec) {
      FinishedRun(w, es, env, codec);
    } else {
      var n := FirstStop(w, es, |es|, env, codec);
      StoppedRun(w, es, n, env, codec);
    }
  }

  /** The first step that is refused or not applied. */
  lemma {:induction false} FirstStop(w: World, es: seq<Effect>, m: nat, env: Environment, codec: Codec) returns (n: nat)
    requires m <= |es| && (forall e :: e in es ==> WellFormed(e)) && !Reaches(w, es, m, env, codec)
    ensures n < m && Stops(w, es, n, env, codec)
  {
    hide StepAt;
    if Reaches(w, es, m - 1, env, codec) { n := m - 1; } else { n := FirstStop(w, es, m - 1, env, codec); }
  }

  // ---- the record of a run that stops ----

  /** All steps before step n are applied, and that one is refused or not applied. */
  predicate Stops(w: World, es: seq<Effect>, n: nat, env: Environment, codec: Codec)
    requires n < |es| && forall e :: e in es ==> WellFormed(e)
  {
    Reaches(w, es, n, env, codec) && !(env.apply(n).consent && StepAt(w, es, n, env, codec).Applied?)
  }

  /** What is compensated when a run stops at step n: what the steps before issued and, where it carries one, the
      receipt of its error. */
  function Owed(w: World, es: seq<Effect>, n: nat, env: Environment, codec: Codec): seq<Entry>
    requires n < |es| && (forall e :: e in es ==> WellFormed(e)) && Stops(w, es, n, env, codec)
  {
    var s := StepAt(w, es, n, env, codec);
    Issues(w, es, n, env, codec) +
    (if env.apply(n).consent && s.FailedOwing? then [Entry(s.receipt, false)] else [])
  }

  function WorldLeft(w: World, es: seq<Effect>, n: nat, env: Environment, codec: Codec): World
    requires n < |es| && forall e :: e in es ==> WellFormed(e)
  {
    if env.apply(n).consent then StepAt(w, es, n, env, codec).world else WorldAt(w, es, n, env, codec)
  }

  /** A run that stops is compensated from there. When every compensation succeeds its record keeps no receipts and
      says cancelled for a refusal, verification failed for a verify command and rolled back for any other step; when
      one is refused it says that the rollback is incomplete and keeps every receipt; and an error that is not handled
      leaves no record. */
  lemma StoppedRun(w: World, es: seq<Effect>, n: nat, env: Environment, codec: Codec)
    requires n < |es| && (forall e :: e in es ==> WellFormed(e)) && Stops(w, es, n, env, codec)
    ensures var r := ApplyEffects(w, es, 0, [], false, env, codec);
            var o := RollbackAll(WorldLeft(w, es, n, env, codec), Owed(w, es, n, env, codec), env.undo, codec);
            if env.apply(n).consent && StepAt(w, es, n, env, codec).Escaped? then
              r == Raised(WorldLeft(w, es, n, env, codec))
            else if o.verdict == Threw then r == Raised(o.world)
            else
              r.Returned? && r.world == o.world &&
              (o.verdict == Done ==>
                 r.record.receipts == [] &&
                 (!env.apply(n).consent ==> r.record.status == Cancelled) &&
                 (env.apply(n).consent && es[n].VerifyCommand? ==> r.record.status == VerificationFailed) &&
                 (env.apply(n).consent && !es[n].VerifyCommand? ==> r.record.status == RolledBack)) &&
              (o.verdict == NotDone ==>
                 r.record.status == RollbackIncomplete && r.record.receipts == Freeze(Owed(w, es, n, env, codec)))
  {
    hide ApplyEffect, RollbackAll, Freeze, SomeChanged;
    RunReaches(w, es, n, env, codec);
    var s := StepAt(w, es, n, env, codec);
    assert Issues(w, es, n, env, codec) + [] == Issues(w, es, n, env, codec);
  }

  // ---- before the first step ----

  /** Every managed target is missing or a regular file. */
  predicate TargetsRegular(fs: Files, es: seq<Effect>) {
    forall i :: 0 <= i < |es| && (es[i].OwnedBlock? || es[i].Merging?) && es[i].path in fs ==>
      fs[es[i].path].File? || fs[es[i].path].Binary?
  }

  /** The checks before the first step in their order, each with what the record says where it fails. */
  datatype Check = Check(passes: bool, otherwise: Status)

  function Checks(w: World, es: seq<Effect>, gates: Gates): seq<Check> {
    [Check(gates.hashMatches, RolledBack),
     Check(gates.preflight.None?, if gates.preflight.Some? then gates.preflight.value else Skipped),
     Check(gates.platformSupported, Unsupported),
     Check(gates.toolsPresent, PrerequisiteMissing),
     Check(TargetsRegular(w.files, es), PrerequisiteMissing),
     Check(gates.inputsGiven, Cancelled)]
  }

  /** The first check that fails decides, with no receipts and the world untouched; and when all pass the run begins. */
  lemma ChecksDecide(w: World, es: seq<Effect>, gates: Gates, env: Environment, codec: Codec)
    requires forall e :: e in es ==> WellFormed(e)
    ensures var r, cs := ApplySetupPlan(w, es, gates, env, codec), Checks(w, es, gates);
            (forall i :: 0 <= i < |cs| && !cs[i].passes && (forall j :: 0 <= j < i ==> cs[j].passes) ==>
               r == Returned(w, Record(cs[i].otherwise, []))) &&
            ((forall i :: 0 <= i < |cs| ==> cs[i].passes) ==> r == ApplyEffects(w, es, 0, [], false, env, codec))
  {
    hide ApplyEffects;
    var cs := Checks(w, es, gates);
    assert TargetsRegular(w.files, es) <==> forall i :: 0 <= i < |es| ==> TargetIsFile(w.files, es[i]);
    assert (forall i :: 0 <= i < |cs| ==> cs[i].passes) ==>
      cs[0].passes && cs[1].passes && cs[2].passes && cs[3].passes && cs[4].passes && cs[5].passes;
    var r := ApplySetupPlan(w, es, gates, env, codec);
    forall i | 0 <= i < |cs| && !cs[i].passes && forall j :: 0 <= j < i ==> cs[j].passes
      ensures r == Returned(w, Record(cs[i].otherwise, []))
    {
      assert (i > 0 ==> cs[0].passes) && (i > 1 ==> cs[1].passes) && (i > 2 ==> cs[2].passes) &&
             (i > 3 ==> cs[3].passes) && (i > 4 ==> cs[4].passes);
    }
  }

  // ---- undoing a record ----

  /** Undoing a record says skipped and empties it when every compensation is done, and otherwise keeps it whole. */
  lemma RecordUndone(w: World, record: Record, undo: nat -> Answers, codec: Codec)
    ensures var r, o := RollbackRecord(w, record, undo, codec), RollbackAll(w, record.receipts, undo, codec);
            r.world == o.world && (r.Raised? <==> o.verdict == Threw) &&
            (r.Returned? && o.verdict == Done ==> r.record == Record(Skipped, [])) &&
            (r.Returned? && o.verdict != Done ==> r.record == Record(RollbackIncomplete, record.receipts))
  {
    hide RollbackAll;
  }

  // ---- the verdict of a rollback ----

  /** The world that the compensation of receipt k meets: all later ones were compensated before. */
  function WorldBefore(w: World, rs: seq<Entry>, k: nat, undo: nat -> Answers, codec: Codec): World
    requires k < |rs|
    decreases |rs| - k, 0
  {
    if k == |rs| - 1 then w else UndoAt(w, rs, k + 1, undo, codec).world
  }

  function UndoAt(w: World, rs: seq<Entry>, k: nat, undo: nat -> Answers, codec: Codec): Outcome
    requires k < |rs|
    decreases |rs| - k, 1
  {
    Rollback(WorldBefore(w, rs, k, undo, codec), rs[k], undo(k), codec)
  }

  predicate DoneAt(w: World, rs: seq<Entry>, k: nat, undo: nat -> Answers, codec: Codec)
    requires k < |rs|
  {
    UndoAt(w, rs, k, undo, codec).verdict == Done
  }

  predicate ThrewAt(w: World, rs: seq<Entry>, k: nat, undo: nat -> Answers, codec: Codec)
    requires k < |rs|
  {
    UndoAt(w, rs, k, undo, codec).verdict == Threw
  }

  lemma {:induction false} UndoWithout(w: World, rs: seq<Entry>, k: nat, undo: nat -> Answers, codec: Codec)
    requires k + 1 < |rs|
    ensures var n := |rs| - 1;
            UndoAt(Rollback(w, rs[n], undo(n), codec).world, rs[..n], k, undo, codec) == UndoAt(w, rs, k, undo, codec)
    decreases |rs| - k
  {
    hide Rollback;
    var n := |rs| - 1;
    assert rs[..n][k] == rs[k];
    if k + 1 < n {
      UndoWithout(w, rs, k + 1, undo, codec);
    } else {
      assert UndoAt(w, rs, n, undo, codec) == Rollback(w, rs[n], undo(n), codec);
    }
  }

  /** A rollback is done if and only if every compensation is, and throws if and only if one of them throws. */
  lemma {:induction false} VerdictExactly(w: World, rs: seq<Entry>, undo: nat -> Answers, codec: Codec)
    ensures var o := RollbackAll(w, rs, undo, codec);
            (o.verdict == Done <==> forall k :: 0 <= k < |rs| ==> DoneAt(w, rs, k, undo, codec)) &&
            (o.verdict == Threw <==> exists k :: 0 <= k < |rs| && ThrewAt(w, rs, k, undo, codec))
    decreases |rs|
  {
    hide Rollback;
    if rs != [] {
      var n := |rs| - 1;
      var o := Rollback(w, rs[n], undo(n), codec);
      assert UndoAt(w, rs, n, undo, codec) == o;
      VerdictExactly(o.world, rs[..n], undo, codec);
      forall k | 0 <= k < n
        ensures DoneAt(w, rs, k, undo, codec) <==> DoneAt(o.world, rs[..n], k, undo, codec)
        ensures ThrewAt(w, rs, k, undo, codec) <==> ThrewAt(o.world, rs[..n], k, undo, codec)
      {
        UndoWithout(w, rs, k, undo, codec);
      }
      assert DoneAt(w, rs, n, undo, codec) <==> o.verdict == Done;
      assert ThrewAt(w, rs, n, undo, codec) <==> o.verdict == Threw;
    }
  }
}
