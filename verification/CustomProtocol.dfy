/** The plan/apply/verify/rollback protocol of a custom setup script in its private run directory. */
module CustomProtocol {
  import opened JsonMerge
  import opened Runtime
  import opened Text
  import opened World
  import MB = ManagedBlock

  datatype Phase = PlanPhase | ApplyPhase | VerifyPhase | RollbackPhase

  function ResultFile(p: Phase): string {
    match p
    case PlanPhase => "plan-result.json"
    case ApplyPhase => "apply-result.json"
    case VerifyPhase => "verify-result.json"
    case RollbackPhase => "rollback-result.json"
  }

  /** What attempting one phase of the script does: whether it succeeds with a valid result, fails (also before the
      script starts) or leaves a result that is not UTF-8; and what it does to the run directory. */
  datatype PhaseAnswer = PhaseAnswer(reply: Reply, reversible: bool, added: set<string>, removed: set<string>)

  datatype Script = Script(entrypointOk: bool, answer: Phase -> PhaseAnswer, receiptWritable: bool)

  /** The run directory after a phase; a phase that succeeds left its result file, and so does one whose result cannot
      be read. */
  function Listing(before: set<string>, s: Script, p: Phase): set<string> {
    var a := s.answer(p);
    (before - a.removed) + a.added + (if a.reply != Bad then {ResultFile(p)} else {})
  }

  /** How the step ends, and the phases that were attempted, in order. */
  datatype Run = Run(outcome: CustomOutcome, trace: seq<Phase>)

  function UndoneOutcome(r: Reply, reversible: bool): CustomOutcome {
    match r
    case Good => CustomFailed
    case Bad => CustomIncomplete(reversible)
    case Garbled => CustomRaised
  }

  /** The rollback after a step that failed: the receipt is written first, then the phase is attempted. */
  function Compensated(trace: seq<Phase>, s: Script, reversible: bool): Run {
    if !s.receiptWritable then Run(CustomFailed, trace)
    else Run(UndoneOutcome(s.answer(RollbackPhase).reply, reversible), trace + [RollbackPhase])
  }

  function Protocol(before: set<string>, s: Script): Run {
    if !s.entrypointOk then Run(CustomFailed, [])
    else
      var planned := Listing(before, s, PlanPhase);
      var applied := Listing(planned, s, ApplyPhase);
      var verified := Listing(applied, s, VerifyPhase);
      var reversible := s.answer(ApplyPhase).reversible;
      if s.answer(PlanPhase).reply == Garbled then Run(CustomRaised, [PlanPhase])
      else if s.answer(PlanPhase).reply == Bad || planned != before + {ResultFile(PlanPhase)} then
        Run(CustomFailed, [PlanPhase])
      else if s.answer(ApplyPhase).reply == Garbled then Run(CustomRaised, [PlanPhase, ApplyPhase])
      else if s.answer(ApplyPhase).reply == Bad then Compensated([PlanPhase, ApplyPhase], s, true)
      else if applied != planned + {ResultFile(ApplyPhase)} then Compensated([PlanPhase, ApplyPhase], s, reversible)
      else if s.answer(VerifyPhase).reply == Garbled then Run(CustomRaised, [PlanPhase, ApplyPhase, VerifyPhase])
      else if s.answer(VerifyPhase).reply == Bad || verified != applied + {ResultFile(VerifyPhase)} then
        Compensated([PlanPhase, ApplyPhase, VerifyPhase], s, reversible)
      else Run(CustomDone(reversible), [PlanPhase, ApplyPhase, VerifyPhase])
  }

  /** Nothing but its result file is left behind by a phase. */
  predicate Clean(before: set<string>, s: Script, p: Phase) {
    s.answer(p).reply == Good && Listing(before, s, p) == before + {ResultFile(p)}
  }

  /** A phase that succeeds but leaves something else behind. */
  predicate Litters(before: set<string>, s: Script, p: Phase) {
    s.answer(p).reply == Good && Listing(before, s, p) != before + {ResultFile(p)}
  }

  /** When the run directory is discarded: no entry point, a plan that leaves something behind, or a later phase that
      does and is rolled back. */
  predicate Discarded(before: set<string>, s: Script) {
    var planned := before + {ResultFile(PlanPhase)};
    var applied := planned + {ResultFile(ApplyPhase)};
    !s.entrypointOk || Litters(before, s, PlanPhase) ||
    (Clean(before, s, PlanPhase) && s.receiptWritable && s.answer(RollbackPhase).reply == Good &&
     (Litters(planned, s, ApplyPhase) || (Clean(planned, s, ApplyPhase) && Litters(applied, s, VerifyPhase))))
  }

  /** The run directory and the phases attempted in it. */
  class RunDirectory {
    var listing: set<string>
    var trace: seq<Phase>
    var present: bool

    constructor (files: set<string>)
      ensures listing == files && trace == [] && present
    {
      listing, trace, present := files, [], true;
    }

    method RunPhase(s: Script, p: Phase) returns (reply: Reply)
      modifies this
      ensures reply == s.answer(p).reply && trace == old(trace) + [p] && listing == Listing(old(listing), s, p)
      ensures present == old(present)
    {
      var a := s.answer(p);
      listing := (listing - a.removed) + a.added;
      if a.reply != Bad { listing := listing + {ResultFile(p)}; }
      trace := trace + [p];
      reply := a.reply;
    }

    /** Writes the receipt and runs the rollback phase; the directory goes only after a violation that was undone. */
    method Compensate(s: Script, reversible: bool, violation: bool) returns (outcome: CustomOutcome)
      modifies this
      ensures Run(outcome, trace) == Compensated(old(trace), s, reversible)
      ensures present == (old(present) && !(violation && s.receiptWritable && outcome.CustomFailed?))
    {
      if !s.receiptWritable { return CustomFailed; }
      listing := listing + {"custom-receipt.json"};
      var undone := RunPhase(s, RollbackPhase);
      if undone == Garbled { return CustomRaised; }
      if undone == Bad { return CustomIncomplete(reversible); }
      if violation { present := false; }
      return CustomFailed;
    }

    method CustomApply(s: Script) returns (outcome: CustomOutcome)
      requires trace == [] && present
      modifies this
      ensures Run(outcome, trace) == Protocol(old(listing), s)
      ensures present <==> !Discarded(old(listing), s)
      ensures outcome.CustomDone? ==>
                listing == old(listing) + {ResultFile(PlanPhase), ResultFile(ApplyPhase), ResultFile(VerifyPhase)}
    {
      hide ResultFile, Listing;
      if !s.entrypointOk { present := false; return CustomFailed; }
      var before := listing;
      var reply := RunPhase(s, PlanPhase);
      if reply == Garbled { return CustomRaised; }
      if reply == Bad { return CustomFailed; }
      var planned := listing;
      if planned != before + {ResultFile(PlanPhase)} { present := false; return CustomFailed; }
      reply := RunPhase(s, ApplyPhase);
      if reply == Garbled { return CustomRaised; }
      if reply == Bad { outcome := Compensate(s, true, false); return; }
      var reversible := s.answer(ApplyPhase).reversible;
      var applied := listing;
      if applied != planned + {ResultFile(ApplyPhase)} { outcome := Compensate(s, reversible, true); return; }
      reply := RunPhase(s, VerifyPhase);
      if reply == Garbled { return CustomRaised; }
      if reply == Bad { outcome := Compensate(s, reversible, false); return; }
      if listing != applied + {ResultFile(VerifyPhase)} { outcome := Compensate(s, reversible, true); return; }
      return CustomDone(reversible);
    }
  }

  function CountOf(trace: seq<Phase>, p: Phase): nat {
    if trace == [] then 0 else (if trace[0] == p then 1 else 0) + CountOf(trace[1..], p)
  }

  /** A script counts as installed exactly when plan, apply and verify each succeeded in that order and left nothing
      but their result files. */
  lemma DoneExactly(before: set<string>, s: Script)
    ensures var planned := before + {ResultFile(PlanPhase)};
            var applied := planned + {ResultFile(ApplyPhase)};
            Protocol(before, s).outcome.CustomDone? <==>
            s.entrypointOk && Clean(before, s, PlanPhase) && Clean(planned, s, ApplyPhase) &&
              Clean(applied, s, VerifyPhase)
    ensures Protocol(before, s).outcome.CustomDone? ==>
            Protocol(before, s).trace == [PlanPhase, ApplyPhase, VerifyPhase] &&
            Protocol(before, s).outcome.reversible == s.answer(ApplyPhase).reversible
  {
  }

  /** A phase is attempted exactly when all before it succeeded and left nothing but their result files. */
  lemma PhasesExactly(before: set<string>, s: Script)
    ensures var t := Protocol(before, s).trace;
            var planned := before + {ResultFile(PlanPhase)};
            (PlanPhase in t <==> s.entrypointOk) &&
            (ApplyPhase in t <==> s.entrypointOk && Clean(before, s, PlanPhase)) &&
            (VerifyPhase in t <==>
               s.entrypointOk && Clean(before, s, PlanPhase) && Clean(planned, s, ApplyPhase)) &&
            exists n :: 0 <= n <= 3 && (t == [PlanPhase, ApplyPhase, VerifyPhase][..n] ||
                                        t == [PlanPhase, ApplyPhase, VerifyPhase][..n] + [RollbackPhase])
  {
    hide ResultFile;
    var t, all := Protocol(before, s).trace, [PlanPhase, ApplyPhase, VerifyPhase];
    var n := if VerifyPhase in t then 3 else if ApplyPhase in t then 2 else if PlanPhase in t then 1 else 0;
    assert all[..0] == [] && all[..1] == [PlanPhase] && all[..2] == [PlanPhase, ApplyPhase] && all[..3] == all;
    assert t == all[..n] || t == all[..n] + [RollbackPhase];
  }

  /** This phase was attempted and left a result that is not UTF-8. */
  predicate Garbles(trace: seq<Phase>, s: Script, p: Phase) {
    p in trace && s.answer(p).reply == Garbled
  }

  /** One of the phases attempted, other than the rollback, did. */
  predicate Illegible(trace: seq<Phase>, s: Script) {
    Garbles(trace, s, PlanPhase) || Garbles(trace, s, ApplyPhase) || Garbles(trace, s, VerifyPhase)
  }

  /** For a script whose apply phase was attempted and that does not count as installed, the rollback is attempted
      exactly once, as the last phase, if and only if its receipt can be written and the results so far can be read;
      otherwise never. */
  lemma RollbackRunsOnce(before: set<string>, s: Script)
    ensures var r := Protocol(before, s);
            CountOf(r.trace, RollbackPhase) ==
              (if ApplyPhase in r.trace && !r.outcome.CustomDone? && s.receiptWritable && !Illegible(r.trace, s) then 1
               else 0) &&
            (RollbackPhase in r.trace ==> r.trace[|r.trace| - 1] == RollbackPhase)
  {
    hide Listing, ResultFile;
    var r := Protocol(before, s);
    CountSteps(r.trace);
  }

  lemma CountSteps(t: seq<Phase>)
    requires |t| <= 4
    ensures CountOf(t, RollbackPhase) == (if |t| > 0 && t[0] == RollbackPhase then 1 else 0) +
                                         (if |t| > 1 && t[1] == RollbackPhase then 1 else 0) +
                                         (if |t| > 2 && t[2] == RollbackPhase then 1 else 0) +
                                         (if |t| > 3 && t[3] == RollbackPhase then 1 else 0)
  {
  }

  /** The error that carries a receipt is raised exactly when the rollback phase was attempted and failed, and the error
      that the transaction does not handle exactly when some phase left a result that is not UTF-8. */
  lemma IncompleteExactly(before: set<string>, s: Script)
    ensures var r := Protocol(before, s);
            (r.outcome.CustomIncomplete? <==> RollbackPhase in r.trace && s.answer(RollbackPhase).reply == Bad) &&
            (r.outcome.CustomIncomplete? ==>
               r.outcome.reversible == (s.answer(ApplyPhase).reply == Bad || s.answer(ApplyPhase).reversible)) &&
            (r.outcome.CustomRaised? <==> Illegible(r.trace, s) || Garbles(r.trace, s, RollbackPhase))
  {
    hide Listing, ResultFile;
  }

  /** A script that failed after its apply phase was attempted, and whose receipt could not be written, is reported as a
      plain failure although no rollback was attempted. */
  lemma UnwritableReceiptSkipsRollback(before: set<string>, s: Script)
    requires !s.receiptWritable && ApplyPhase in Protocol(before, s).trace && !Protocol(before, s).outcome.CustomDone?
    requires !Illegible(Protocol(before, s).trace, s)
    ensures Protocol(before, s).outcome == CustomFailed && RollbackPhase !in Protocol(before, s).trace
  {
    hide Listing, ResultFile;
  }

  /** ... and one whose apply or verify result cannot be read ends the whole run without a record, a receipt or a
      rollback, also where the receipt could be written. */
  lemma IllegibleResultSkipsRollback(before: set<string>, s: Script)
    requires Illegible(Protocol(before, s).trace, s)
    ensures Protocol(before, s).outcome == CustomRaised && RollbackPhase !in Protocol(before, s).trace
  {
    hide Listing, ResultFile;
  }

  // ---- rollbacks in a whole transaction ----

  /** The receipts whose compensation is attempted, in order: all of them from the last one back, up to one that
      throws. */
  function Attempted(w: World, rs: seq<Entry>, undo: nat -> Answers, codec: Codec): seq<nat>
    decreases |rs|
  {
    if rs == [] then []
    else
      var n := |rs| - 1;
      var o := Rollback(w, rs[n], undo(n), codec);
      [n] + (if o.verdict == Threw then [] else Attempted(o.world, rs[..n], undo, codec))
  }

  /** Compensates the receipts at these positions, one after the other. */
  function Perform(w: World, rs: seq<Entry>, at: seq<nat>, undo: nat -> Answers, codec: Codec): World
    requires forall i :: 0 <= i < |at| ==> at[i] < |rs|
    decreases |at|
  {
    if at == [] then w else Perform(Rollback(w, rs[at[0]], undo(at[0]), codec).world, rs, at[1..], undo, codec)
  }

  lemma {:induction false} AttemptedIsReverse(w: World, rs: seq<Entry>, undo: nat -> Answers, codec: Codec)
    ensures var at := Attempted(w, rs, undo, codec);
            |at| <= |rs| && (forall i :: 0 <= i < |at| ==> at[i] == |rs| - 1 - i) &&
            (RollbackAll(w, rs, undo, codec).verdict != Threw ==> |at| == |rs|)
    decreases |rs|
  {
    hide Rollback;
    if rs != [] {
      var n := |rs| - 1;
      AttemptedIsReverse(Rollback(w, rs[n], undo(n), codec).world, rs[..n], undo, codec);
    }
  }

  lemma {:induction false} PerformPrefix(w: World, rs: seq<Entry>, n: nat, at: seq<nat>, undo: nat -> Answers,
                                         codec: Codec)
    requires n <= |rs| && forall i :: 0 <= i < |at| ==> at[i] < n
    ensures Perform(w, rs, at, undo, codec) == Perform(w, rs[..n], at, undo, codec)
    decreases |at|
  {
    hide Rollback;
    if at != [] {
      PerformPrefix(Rollback(w, rs[at[0]], undo(at[0]), codec).world, rs, n, at[1..], undo, codec);
    }
  }

  /** Attempting exactly these is what the rollback does. */
  lemma {:induction false} RollbackAttempts(w: World, rs: seq<Entry>, undo: nat -> Answers, codec: Codec)
    ensures forall i :: 0 <= i < |Attempted(w, rs, undo, codec)| ==> Attempted(w, rs, undo, codec)[i] < |rs|
    ensures RollbackAll(w, rs, undo, codec).world == Perform(w, rs, Attempted(w, rs, undo, codec), undo, codec)
    decreases |rs|
  {
    hide Rollback;
    AttemptedIsReverse(w, rs, undo, codec);
    if rs != [] {
      var n := |rs| - 1;
      var o := Rollback(w, rs[n], undo(n), codec);
      var at := Attempted(w, rs, undo, codec);
      if o.verdict == Threw {
        assert at == [n] && at[1..] == [];
      } else {
        assert at[1..] == Attempted(o.world, rs[..n], undo, codec);
        RollbackAttempts(o.world, rs[..n], undo, codec);
        PerformPrefix(o.world, rs, n, at[1..], undo, codec);
      }
    }
  }

  datatype Ending = Ending(world: World, receipts: seq<Entry>)

  /** Where a run stops and what it then compensates; nothing when it is configured or raises. */
  function EndingOf(w: World, es: seq<Effect>, k: nat, rs: seq<Entry>, env: Environment, codec: Codec): Option<Ending>
    requires k <= |es| && forall e :: e in es ==> WellFormed(e)
    decreases |es| - k
  {
    if k == |es| then None
    else if !env.apply(k).consent then Some(Ending(w, rs))
    else match ApplyEffect(w, es[k], env.apply(k), codec)
      case Applied(v, receipt, _) => EndingOf(v, es, k + 1, rs + [Entry(receipt, false)], env, codec)
      case Failed(v) => Some(Ending(v, rs))
      case FailedOwing(v, receipt) => Some(Ending(v, rs + [Entry(receipt, false)]))
      case Escaped(_) => None
  }

  /** A run ends by compensating exactly these receipts from there, or compensates nothing. */
  lemma {:induction false} RunEnds(w: World, es: seq<Effect>, k: nat, rs: seq<Entry>, changed: bool, env: Environment,
                                   codec: Codec)
    requires k <= |es| && forall e :: e in es ==> WellFormed(e)
    ensures var r := ApplyEffects(w, es, k, rs, changed, env, codec);
            match EndingOf(w, es, k, rs, env, codec)
            case Some(x) => r.world == RollbackAll(x.world, x.receipts, env.undo, codec).world
            case None => r.Raised? || r.record.status == Configured || r.record.status == AlreadyConfigured
    decreases |es| - k
  {
    hide ApplyEffect, RollbackAll;
    if k < |es| && env.apply(k).consent && ApplyEffect(w, es[k], env.apply(k), codec).Applied? {
      var s := ApplyEffect(w, es[k], env.apply(k), codec);
      RunEnds(s.world, es, k + 1, rs + [Entry(s.receipt, false)], changed || s.changed, env, codec);
    }
  }

  function Times(at: seq<nat>, j: nat): nat {
    if at == [] then 0 else (if at[0] == j then 1 else 0) + Times(at[1..], j)
  }

  /** The compensation of such a receipt attempts the rollback phase of its script. */
  predicate RunsRollback(e: Entry) {
    !e.compensated && e.receipt.CustomReceipt? && e.receipt.reversible
  }

  /** How often a run ends up attempting the rollback phase of the script at step j to compensate it. */
  function OuterRollbacks(w: World, es: seq<Effect>, env: Environment, codec: Codec, j: nat): nat
    requires forall e :: e in es ==> WellFormed(e)
  {
    match EndingOf(w, es, 0, [], env, codec)
    case None => 0
    case Some(x) =>
      if j >= |x.receipts| || !RunsRollback(x.receipts[j]) then 0
      else Times(Attempted(x.world, x.receipts, env.undo, codec), j)
  }

  lemma {:induction false} AttemptedOnce(at: seq<nat>, n: nat, j: nat)
    requires |at| <= n && forall i :: 0 <= i < |at| ==> at[i] == n - 1 - i
    ensures Times(at, j) <= 1
    ensures j >= n ==> Times(at, j) == 0
  {
    if at != [] {
      AttemptedOnce(at[1..], n - 1, j);
    }
  }

  /** The receipt at position j is the one step j issued. */
  predicate FromSteps(rs: seq<Entry>, es: seq<Effect>, env: Environment) {
    |rs| <= |es| && forall i :: 0 <= i < |rs| ==> FromStep(rs[i], es[i], env.apply(i))
  }

  predicate FromStep(entry: Entry, e: Effect, a: Answers) {
    entry.receipt.CustomReceipt? ==>
      e.Custom? && (a.custom == CustomDone(entry.receipt.reversible) ||
                    a.custom == CustomIncomplete(entry.receipt.reversible))
  }

  lemma {:induction false} EndingFromSteps(w: World, es: seq<Effect>, k: nat, rs: seq<Entry>, env: Environment,
                                           codec: Codec)
    requires k <= |es| && |rs| == k && forall e :: e in es ==> WellFormed(e)
    requires FromSteps(rs, es, env)
    ensures EndingOf(w, es, k, rs, env, codec).Some? ==>
            FromSteps(EndingOf(w, es, k, rs, env, codec).value.receipts, es, env)
    decreases |es| - k
  {
    hide ApplyEffect;
    if k < |es| && env.apply(k).consent {
      var s := ApplyEffect(w, es[k], env.apply(k), codec);
      if s.Applied? || s.FailedOwing? { IssuedFromStep(w, es[k], env.apply(k), codec); }
      if s.Applied? { EndingFromSteps(s.world, es, k + 1, rs + [Entry(s.receipt, false)], env, codec); }
    }
  }

  lemma IssuedFromStep(w: World, e: Effect, a: Answers, codec: Codec)
    requires WellFormed(e)
    ensures var s := ApplyEffect(w, e, a, codec);
            s.Applied? || s.FailedOwing? ==> FromStep(Entry(s.receipt, false), e, a)
  {
    hide MB.WriteBlock, MB.Block, MergeAt, RootOf, Above;
  }

  /** In a whole transaction the rollback phase of a script is attempted at most twice: inside the protocol and when
      its receipt is compensated; and twice only when the first time it failed. A script that was installed is rolled
      back at most once, when a later step fails or is refused. */
  lemma AtMostTwice(w: World, es: seq<Effect>, env: Environment, codec: Codec, j: nat, before: set<string>, s: Script)
    requires j < |es| && es[j].Custom? && forall e :: e in es ==> WellFormed(e)
    requires env.apply(j).custom == Protocol(before, s).outcome
    ensures var inner, outer := CountOf(Protocol(before, s).trace, RollbackPhase), OuterRollbacks(w, es, env, codec, j);
            inner <= 1 && outer <= 1 &&
            (inner + outer == 2 ==>
               Protocol(before, s).outcome.CustomIncomplete? && s.answer(RollbackPhase).reply == Bad) &&
            (Protocol(before, s).outcome.CustomDone? ==> inner == 0) &&
            (Protocol(before, s).outcome.CustomFailed? || Protocol(before, s).outcome.CustomRaised? ==> outer == 0)
  {
    hide EndingOf, Attempted, RollbackAll, Protocol, CountOf;
    RollbackRunsOnce(before, s);
    IncompleteExactly(before, s);
    EndingFromSteps(w, es, 0, [], env, codec);
    match EndingOf(w, es, 0, [], env, codec)
    case None =>
    case Some(x) =>
      AttemptedIsReverse(x.world, x.receipts, env.undo, codec);
      AttemptedOnce(Attempted(x.world, x.receipts, env.undo, codec), |x.receipts|, j);
      if j < |x.receipts| && RunsRollback(x.receipts[j]) { assert FromStep(x.receipts[j], es[j], env.apply(j)); }
  }
}
