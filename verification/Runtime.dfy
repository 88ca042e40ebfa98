/** One setup transaction: reviewed effects applied one at a time, receipts, and their compensation in reverse. */
module Runtime {
  import opened Text
  import opened JsonMerge
  import opened World
  import MB = ManagedBlock

  datatype Effect =
    | Keychain(item: Item, replaceExisting: bool)
    | OwnedBlock(path: Path, marker: string, content: string)   // all three block modules
    | Merging(path: Path, keys: seq<string>, value: Json, replaceExisting: bool)
    | Directory(path: Path)
    | Pull(image: string)
    | Build(tag: string)
    | ExportCertificates(output: string)
    | VerifyCommand
    | Notice
    | Custom(script: string)

  datatype BlockChange = BlockChange(fileExisted: bool, mode: Option<nat>, prior: Option<string>, installed: string)

  /** A record freezes its receipts, and a frozen list no longer equals the list that is read from a file. */
  datatype MergeChange =
    MergeChange(keys: seq<string>, fileExisted: bool, mode: Option<nat>, replaced: bool, installed: Json, frozen: bool)

  datatype Receipt =
    | KeychainReceipt(item: Item, created: bool, replaced: bool)
    | BlockReceipt(path: Path, marker: string, block: Option<BlockChange>)
    | MergeReceipt(path: Path, merge: Option<MergeChange>)
    | DirectoryReceipt(path: Path, made: bool)
    | PullReceipt(image: string, preexisting: bool)
    | BuildReceipt(tag: string, imageId: string, preexisting: bool)
    | ExportReceipt(output: string)
    | VerifyReceipt
    | NoticeReceipt
    | CustomReceipt(script: string, reversible: bool)

  /** A receipt in a record; a failed persistence run marks the steps it already compensated. */
  datatype Entry = Entry(receipt: Receipt, compensated: bool)

  datatype CustomOutcome =
    | CustomDone(reversible: bool)
    | CustomFailed
    | CustomIncomplete(reversible: bool)
    | CustomRaised                             // a result file that is not UTF-8

  /** What a tool or script leaves in a file: what was asked for, something else, or bytes that are not UTF-8, an
      error that the transaction does not handle. */
  datatype Reply = Good | Bad | Garbled

  /** What the tools, the file system and the operator answer while one effect is applied or compensated. */
  datatype Answers = Answers(
    consent: bool,
    readable: bool,              // files can be read
    writable: bool,              // files and directories can be written
    parentsMade: bool,           // a failing write had already made the directories above its file
    addStores: Option<string>,   // what the Keychain tool really stored
    addOk: bool,                 // what it reported
    deleteOk: bool,
    pulled: Option<string>,
    contextOk: bool,
    built: Option<string>,
    identified: bool,
    removeOk: bool,
    exported: Reply,
    verified: bool,
    custom: CustomOutcome,
    customUndone: Reply)

  datatype Environment = Environment(apply: nat -> Answers, undo: nat -> Answers)

  // ---- applying one effect ----

  datatype Step =
    | Applied(world: World, receipt: Receipt, changed: bool)
    | Failed(world: World)                        // an error the transaction handles
    | FailedOwing(world: World, receipt: Receipt) // ... that may have left something to compensate
    | Escaped(world: World)                       // an error the transaction does not handle

  function KeychainApply(w: World, item: Item, replaceExisting: bool, a: Answers): Step {
    var exists_ := item in w.keychain;
    if exists_ && !replaceExisting then Applied(w, KeychainReceipt(item, false, false), false)
    else
      var added := w.(keychain := if a.addStores.Some? then w.keychain[item := a.addStores.value] else w.keychain);
      var present := item in added.keychain;
      if a.addOk && present then Applied(added, KeychainReceipt(item, !exists_, exists_), true)
      else if replaceExisting then FailedOwing(added, KeychainReceipt(item, false, true))
      else if !a.addOk && !present then Failed(added)
      else
        var (k, deleted) := Deleted(added.keychain, item, a.deleteOk);
        if deleted then Failed(w.(keychain := k)) else FailedOwing(added, KeychainReceipt(item, true, false))
  }

  /** A write that fails may leave the directories it made above the file. */
  function WriteFailed(w: World, p: Path, a: Answers): World {
    if CanPlace(w.files, p) && a.parentsMade then w.(files := WithParents(w.files, p)) else w
  }

  function BlockApply(w: World, p: Path, marker: string, content: string, a: Answers): Step {
    match ReadRegular(w.files, p)
    case Unreadable => Failed(w)
    case Undecodable => if a.readable then Escaped(w) else Failed(w)
    case Content(text, existed, mode) =>
      if !a.readable then Failed(w)
      else match MB.WriteBlock(text, MB.FenceOf(marker), content)
        case Unchanged => Applied(w, BlockReceipt(p, marker, None), false)
        case Written(updated, prior) =>
          if !a.writable || !CanPlace(w.files, p) then Failed(WriteFailed(w, p, a))
          else
            Applied(w.(files := Place(w.files, p, File(updated, ModeOf(mode)))),
                    BlockReceipt(p, marker,
                                 Some(BlockChange(existed, mode, prior, MB.Block(MB.FenceOf(marker), content)))),
                    true)
        case _ => Escaped(w)
  }

  function MergeApply(w: World, p: Path, keys: seq<string>, value: Json, replaceExisting: bool, a: Answers,
                      codec: Codec): Step
    requires keys != []
  {
    match ReadRegular(w.files, p)
    case Unreadable => Failed(w)
    case Undecodable => if a.readable then Escaped(w) else Failed(w)
    case Content(text, existed, mode) =>
      if !a.readable || RootOf(codec, text).None? then Failed(w)
      else match MergeAt(RootOf(codec, text).value, keys, value, replaceExisting)
        case Same => Applied(w, MergeReceipt(p, None), false)
        case Collision => Failed(w)
        case Merged(root, replaced) =>
          if !a.writable || !CanPlace(w.files, p) then Failed(WriteFailed(w, p, a))
          else
            Applied(w.(files := Place(w.files, p, File(codec.render(root), ModeOf(mode)))),
                    MergeReceipt(p, Some(MergeChange(keys, existed, mode, replaced, value, false))), true)
  }

  function DirectoryApply(w: World, p: Path, a: Answers): Step {
    if p in w.files then
      if w.files[p] == Dir then Applied(w, DirectoryReceipt(p, false), false) else Failed(w)
    else if !a.writable || !CanPlace(w.files, p) then Failed(WriteFailed(w, p, a))
    else Applied(w.(files := Place(w.files, p, Dir)), DirectoryReceipt(p, true), true)
  }

  function PullApply(w: World, image: string, a: Answers): Step {
    if image in w.images then Applied(w, PullReceipt(image, true), false)
    else match a.pulled
      case None => Failed(w)
      case Some(id) => Applied(w.(images := w.images[image := id]), PullReceipt(image, false), true)
  }

  function BuildApply(w: World, tag: string, a: Answers): Step {
    if !a.contextOk || a.built.None? then Failed(w)
    else
      Applied(w.(images := w.images[tag := a.built.value]),
              BuildReceipt(tag, if a.identified then a.built.value else "", tag in w.images), true)
  }

  function ExportApply(w: World, output: string, a: Answers): Step {
    if !a.contextOk then Failed(w)
    else match a.exported
      case Good => Applied(w, ExportReceipt(output), false)
      case Bad => Failed(w)
      case Garbled => Escaped(w)
  }

  /** JSON steps are validated to have a non-empty key path. */
  predicate WellFormed(e: Effect) {
    e.Merging? ==> e.keys != []
  }

  function ApplyEffect(w: World, e: Effect, a: Answers, codec: Codec): Step
    requires WellFormed(e)
  {
    match e
    case Keychain(item, replaceExisting) => KeychainApply(w, item, replaceExisting, a)
    case OwnedBlock(p, marker, content) => BlockApply(w, p, marker, content, a)
    case Merging(p, keys, value, replaceExisting) => MergeApply(w, p, keys, value, replaceExisting, a, codec)
    case Directory(p) => DirectoryApply(w, p, a)
    case Pull(image) => PullApply(w, image, a)
    case Build(tag) => BuildApply(w, tag, a)
    case ExportCertificates(output) => ExportApply(w, output, a)
    case VerifyCommand => if a.verified then Applied(w, VerifyReceipt, false) else Failed(w)
    case Notice => Applied(w, NoticeReceipt, false)
    case Custom(script) =>
      match a.custom
      case CustomDone(reversible) => Applied(w, CustomReceipt(script, reversible), true)
      case CustomFailed => Failed(w)
      case CustomIncomplete(reversible) => FailedOwing(w, CustomReceipt(script, reversible))
      case CustomRaised => Escaped(w)
  }

  // ---- compensating one receipt ----

  datatype Verdict = Done | NotDone | Threw

  datatype Outcome = Outcome(world: World, verdict: Verdict)

  function Rewrite(w: World, p: Path, text: string, mode: Option<nat>, remove: bool, a: Answers): Outcome {
    if !a.writable then Outcome(w, NotDone)
    else if remove then
      if p in w.files then Outcome(w.(files := w.files - {p}), Done) else Outcome(w, NotDone)
    else if !CanPlace(w.files, p) then Outcome(w, NotDone)
    else Outcome(w.(files := Place(w.files, p, File(text, ModeOf(mode)))), Done)
  }

  function BlockUndo(w: World, p: Path, marker: string, c: BlockChange, a: Answers): Outcome {
    match ReadRegular(w.files, p)
    case Unreadable => Outcome(w, NotDone)
    case Undecodable => Outcome(w, if a.readable then Threw else NotDone)
    case Content(text, _, _) =>
      if !a.readable then Outcome(w, NotDone)
      else match MB.UndoBlock(text, MB.FenceOf(marker), c.installed, c.prior)
        case Refused => Outcome(w, NotDone)
        case UndoFails => Outcome(w, Threw)
        case Undone(rolled) => Rewrite(w, p, rolled, c.mode, rolled == "" && !c.fileExisted, a)
  }

  function MergeUndo(w: World, p: Path, c: MergeChange, a: Answers, codec: Codec): Outcome {
    if c.replaced then Outcome(w, NotDone)
    else match ReadRegular(w.files, p)
      case Unreadable => Outcome(w, NotDone)
      case Undecodable => Outcome(w, if a.readable then Threw else NotDone)
      case Content(text, _, _) =>
        if !a.readable || ParsedObject(codec, text).None? || c.keys == [] then Outcome(w, NotDone)
        else if c.frozen && HasList(c.installed) then Outcome(w, NotDone)
        else match UnmergeAt(ParsedObject(codec, text).value, c.keys, c.installed)
          case None => Outcome(w, NotDone)
          case Some(root) => Rewrite(w, p, codec.render(root), c.mode, root == map[] && !c.fileExisted, a)
  }

  function VerdictOf(r: Reply): Verdict {
    match r
    case Good => Done
    case Bad => NotDone
    case Garbled => Threw
  }

  function RollbackReceipt(w: World, r: Receipt, a: Answers, codec: Codec): Outcome {
    match r
    case KeychainReceipt(item, created, replaced) =>
      if replaced then Outcome(w, NotDone)
      else if created then
        var (k, deleted) := Deleted(w.keychain, item, a.deleteOk);
        Outcome(w.(keychain := k), if deleted then Done else NotDone)
      else Outcome(w, Done)
    case BlockReceipt(p, marker, Some(c)) => BlockUndo(w, p, marker, c, a)
    case MergeReceipt(p, Some(c)) => MergeUndo(w, p, c, a, codec)
    case DirectoryReceipt(p, true) =>
      if EmptyDir(w.files, p) && a.writable then Outcome(w.(files := w.files - {p}), Done) else Outcome(w, NotDone)
    case PullReceipt(_, preexisting) => Outcome(w, if preexisting then Done else NotDone)
    case BuildReceipt(tag, _, preexisting) =>
      if preexisting then Outcome(w, Done)
      else if tag in w.images && a.removeOk then Outcome(w.(images := w.images - {tag}), Done)
      else Outcome(w, NotDone)
    case CustomReceipt(_, reversible) => Outcome(w, if reversible then VerdictOf(a.customUndone) else NotDone)
    case _ => Outcome(w, Done)
  }

  function Rollback(w: World, e: Entry, a: Answers, codec: Codec): Outcome {
    if e.compensated then Outcome(w, Done) else RollbackReceipt(w, e.receipt, a, codec)
  }

  /** Every compensation in reverse order, going on after one that fails. */
  function RollbackAll(w: World, rs: seq<Entry>, undo: nat -> Answers, codec: Codec): Outcome
    decreases |rs|
  {
    if rs == [] then Outcome(w, Done)
    else
      var n := |rs| - 1;
      var o := Rollback(w, rs[n], undo(n), codec);
      if o.verdict == Threw then o
      else
        var rest := RollbackAll(o.world, rs[..n], undo, codec);
        Outcome(rest.world, if rest.verdict == Done then o.verdict else rest.verdict)
  }

  // ---- the transaction ----

  datatype Status =
    | Configured | AlreadyConfigured | Cancelled | RolledBack | VerificationFailed | RollbackIncomplete
    | Skipped | PrerequisiteMissing | Unsupported

  datatype Record = Record(status: Status, receipts: seq<Entry>)

  function Frozen(e: Entry): Entry {
    match e.receipt
    case MergeReceipt(p, Some(c)) => e.(receipt := MergeReceipt(p, Some(c.(frozen := true))))
    case _ => e
  }

  /** The receipts as a record keeps them. */
  function Freeze(rs: seq<Entry>): (r: seq<Entry>)
    ensures |r| == |rs| && forall i :: 0 <= i < |rs| ==> r[i] == Frozen(rs[i])
  {
    seq(|rs|, i requires 0 <= i < |rs| => Frozen(rs[i]))
  }

  datatype Result = Returned(world: World, record: Record) | Raised(world: World)

  /** Ends a run by compensating everything done so far. */
  function Abandon(w: World, rs: seq<Entry>, status: Status, env: Environment, codec: Codec): Result {
    var o := RollbackAll(w, rs, env.undo, codec);
    match o.verdict
    case Threw => Raised(o.world)
    case Done => Returned(o.world, Record(status, []))
    case NotDone => Returned(o.world, Record(RollbackIncomplete, Freeze(rs)))
  }

  function ApplyEffects(w: World, es: seq<Effect>, k: nat, rs: seq<Entry>, changed: bool, env: Environment,
                        codec: Codec): Result
    requires k <= |es| && forall e :: e in es ==> WellFormed(e)
    decreases |es| - k
  {
    if k == |es| then
      Returned(w, if changed then Record(Configured, Freeze(rs)) else Record(AlreadyConfigured, []))
    else if !env.apply(k).consent then Abandon(w, rs, Cancelled, env, codec)
    else match ApplyEffect(w, es[k], env.apply(k), codec)
      case Applied(v, receipt, c) => ApplyEffects(v, es, k + 1, rs + [Entry(receipt, false)], changed || c, env, codec)
      case Failed(v) => Abandon(v, rs, FailureStatus(es[k]), env, codec)
      case FailedOwing(v, receipt) => Abandon(v, rs + [Entry(receipt, false)], FailureStatus(es[k]), env, codec)
      case Escaped(v) => Raised(v)
  }

  function FailureStatus(e: Effect): Status {
    if e.VerifyCommand? then VerificationFailed else RolledBack
  }

  /** The checks before the first effect that do not look at the modelled world. */
  datatype Gates = Gates(hashMatches: bool, preflight: Option<Status>, platformSupported: bool, toolsPresent: bool,
                         inputsGiven: bool)

  predicate TargetIsFile(fs: Files, e: Effect) {
    e.OwnedBlock? || e.Merging? ==> e.path in fs ==> fs[e.path].File? || fs[e.path].Binary?
  }

  function ApplySetupPlan(w: World, es: seq<Effect>, gates: Gates, env: Environment, codec: Codec): Result
    requires forall e :: e in es ==> WellFormed(e)
  {
    if !gates.hashMatches then Returned(w, Record(RolledBack, []))
    else if gates.preflight.Some? then Returned(w, Record(gates.preflight.value, []))
    else if !gates.platformSupported then Returned(w, Record(Unsupported, []))
    else if !gates.toolsPresent then Returned(w, Record(PrerequisiteMissing, []))
    else if exists i :: 0 <= i < |es| && !TargetIsFile(w.files, es[i]) then Returned(w, Record(PrerequisiteMissing, []))
    else if !gates.inputsGiven then Returned(w, Record(Cancelled, []))
    else ApplyEffects(w, es, 0, [], false, env, codec)
  }

  /** Undoing a record afterwards. */
  function RollbackRecord(w: World, record: Record, undo: nat -> Answers, codec: Codec): Result {
    var o := RollbackAll(w, record.receipts, undo, codec);
    match o.verdict
    case Threw => Raised(o.world)
    case Done => Returned(o.world, Record(Skipped, []))
    case NotDone => Returned(o.world, Record(RollbackIncomplete, record.receipts))
  }
}
