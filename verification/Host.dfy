/** The setup run as it is carried out on a machine whose Keychain, files and image tags change under it. */
module Host {
  import opened Text
  import opened JsonMerge
  import opened World
  import opened Runtime
  import R = Runtime
  import MB = ManagedBlock

  // ---- walking a JSON object along a path ----

  /** The object around the innermost one, rebuilt through the objects that were passed on the way down. */
  function Wrap(passed: seq<Fields>, keys: seq<string>, inner: Fields): Fields
    requires |passed| == |keys|
  {
    if passed == [] then inner
    else
      var n := |passed| - 1;
      Wrap(passed[..n], keys[..n], passed[n][keys[n] := Object(inner)])
  }

  function WrapMerge(passed: seq<Fields>, keys: seq<string>, m: Merge): Merge
    requires |passed| == |keys|
  {
    match m
    case Merged(c, replaced) => Merged(Wrap(passed, keys, c), replaced)
    case other => other
  }

  function WrapUnmerge(passed: seq<Fields>, keys: seq<string>, m: Option<Fields>): Option<Fields>
    requires |passed| == |keys|
  {
    if m.Some? then Some(Wrap(passed, keys, m.value)) else None
  }

  lemma WrapStep(passed: seq<Fields>, keys: seq<string>, n: nat, o: Fields, inner: Fields)
    requires |passed| == n < |keys|
    ensures Wrap(passed + [o], keys[..n + 1], inner) == Wrap(passed, keys[..n], o[keys[n] := Object(inner)])
  {
    assert (passed + [o])[..n] == passed && keys[..n + 1][..n] == keys[..n];
  }

  method Rebuild(passed: seq<Fields>, keys: seq<string>, inner: Fields) returns (root: Fields)
    requires |passed| < |keys|
    ensures root == Wrap(passed, keys[..|passed|], inner)
  {
    root := inner;
    assert passed[..|passed|] == passed;
    for i := |passed| downto 0
      invariant Wrap(passed[..i], keys[..i], root) == Wrap(passed, keys[..|passed|], inner)
    {
      assert passed[..i + 1] == passed[..i] + [passed[i]];
      WrapStep(passed[..i], keys, i, passed[i], root);
      root := passed[i][keys[i] := Object(root)];
    }
  }

  /** Merges a value by walking a cursor down to the object that holds the leaf. */
  method MergeAlong(root: Fields, keys: seq<string>, value: Json, replaceExisting: bool) returns (m: Merge)
    requires keys != []
    ensures m == MergeAt(root, keys, value, replaceExisting)
  {
    var cursor, passed := root, [];
    for i := 0 to |keys| - 1
      invariant |passed| == i
      invariant MergeAt(root, keys, value, replaceExisting)
             == WrapMerge(passed, keys[..i], MergeAt(cursor, keys[i..], value, replaceExisting))
    {
      assert keys[i..][0] == keys[i] && keys[i..][1..] == keys[i + 1..];
      var child := Child(cursor, keys[i]);
      if child.None? { return Collision; }
      ghost var below := MergeAt(child.value, keys[i + 1..], value, replaceExisting);
      if below.Merged? { WrapStep(passed, keys, i, cursor, below.root); }
      passed := passed + [cursor];
      cursor := child.value;
    }
    var leaf := keys[|keys| - 1];
    assert keys[|keys| - 1..] == [leaf];
    if leaf in cursor && cursor[leaf] == value { return Same; }
    if leaf in cursor && !replaceExisting { return Collision; }
    var merged := Rebuild(passed, keys, cursor[leaf := value]);
    return Merged(merged, leaf in cursor);
  }

  method UnmergeAlong(root: Fields, keys: seq<string>, installed: Json) returns (m: Option<Fields>)
    requires keys != []
    ensures m == UnmergeAt(root, keys, installed)
  {
    var cursor, passed := root, [];
    for i := 0 to |keys| - 1
      invariant |passed| == i
      invariant UnmergeAt(root, keys, installed)
                == WrapUnmerge(passed, keys[..i], UnmergeAt(cursor, keys[i..], installed))
    {
      assert keys[i..][0] == keys[i] && keys[i..][1..] == keys[i + 1..];
      var child := Get(cursor, keys[i]);
      if !child.Object? { return None; }
      ghost var below := UnmergeAt(child.fields, keys[i + 1..], installed);
      if below.Some? { WrapStep(passed, keys, i, cursor, below.value); }
      passed := passed + [cursor];
      cursor := child.fields;
    }
    var leaf := keys[|keys| - 1];
    assert keys[|keys| - 1..] == [leaf];
    if Get(cursor, leaf) != installed { return None; }
    var left := Rebuild(passed, keys, cursor - {leaf});
    return Some(left);
  }

  // ---- one run ----

  /** How a step ends: with a receipt, or with an error. */
  datatype Call =
    | Gave(receipt: Receipt, changed: bool)
    | Failing                        // an error the transaction handles
    | Owing(receipt: Receipt)        // ... that carries a receipt
    | Escaping                       // an error the transaction does not handle

  function StepOf(c: Call, w: World): Step {
    match c
    case Gave(receipt, changed) => Applied(w, receipt, changed)
    case Failing => Failed(w)
    case Owing(receipt) => FailedOwing(w, receipt)
    case Escaping => Escaped(w)
  }

  datatype Ended = Replied(record: Record) | NoReply

  function ResultOf(reply: Ended, w: World): Result {
    if reply.Replied? then Returned(w, reply.record) else Raised(w)
  }

  /** The verdict on a prefix of the receipts, together with what is known of the ones after it. */
  function Combined(rest: Outcome, complete: bool): Outcome {
    Outcome(rest.world, if rest.verdict == Done && !complete then NotDone else rest.verdict)
  }

  /** Builds and exports of one run share this scratch directory; the model counts the copies ever made in it. */
  class RunWorkspace {
    var runDir: bool
    var context: bool
    var copies: nat

    ghost predicate Valid() reads this {
      (context ==> runDir) && copies <= 1 && (copies == 1 ==> context)
    }

    constructor ()
      ensures Valid() && !runDir && copies == 0
    {
      runDir, context, copies := false, false, 0;
    }

    /** Opening fails only while no copy was made yet, and then no run directory is left. */
    method Open(materializes: bool) returns (ok: bool)
      requires Valid()
      modifies this
      ensures Valid() && ok == (old(context) || materializes)
      ensures context == ok && runDir == ok
      ensures copies == if !old(context) && ok then old(copies) + 1 else old(copies)
    {
      if !context {
        runDir := true;
        if !materializes {
          Close();
          return false;
        }
        context := true;
        copies := copies + 1;
      }
      return true;
    }

    method Close()
      modifies this
      ensures !runDir && !context && copies == old(copies)
    {
      runDir, context := false, false;
    }
  }

  class Host {
    var keychain: map<Item, string>
    var files: Files
    var images: map<string, string>

    ghost function Snapshot(): World
      reads this
    {
      World(keychain, files, images)
    }

    constructor (w: World)
      ensures Snapshot() == w
    {
      keychain, files, images := w.keychain, w.files, w.images;
    }

    // ---- applying ----

    method Delete(item: Item, a: Answers) returns (ok: bool)
      modifies `keychain
      ensures (keychain, ok) == Deleted(old(keychain), item, a.deleteOk)
    {
      ok := item in keychain && a.deleteOk;
      if ok { keychain := keychain - {item}; }
    }

    method KeychainApply(item: Item, replaceExisting: bool, a: Answers) returns (c: Call)
      modifies `keychain
      ensures StepOf(c, Snapshot()) == R.KeychainApply(old(Snapshot()), item, replaceExisting, a)
    {
      var existed := item in keychain;
      if existed && !replaceExisting { return Gave(KeychainReceipt(item, false, false), false); }
      if a.addStores.Some? { keychain := keychain[item := a.addStores.value]; }
      if !a.addOk {
        if replaceExisting { return Owing(KeychainReceipt(item, false, true)); }
        if item in keychain {
          var deleted := Delete(item, a);
          if !deleted { return Owing(KeychainReceipt(item, true, false)); }
        }
        return Failing;
      }
      if item !in keychain {
        if replaceExisting { return Owing(KeychainReceipt(item, false, true)); }
        var deleted := Delete(item, a);
        if !deleted { return Owing(KeychainReceipt(item, true, false)); }
        return Failing;
      }
      return Gave(KeychainReceipt(item, !existed, existed), true);
    }

    /** Makes the directories above a file and writes it; a failure may come after the directories were made. */
    method Write(p: Path, n: Node, a: Answers) returns (ok: bool)
      modifies `files
      ensures ok == (a.writable && CanPlace(old(files), p))
      ensures Snapshot() == if ok then old(Snapshot()).(files := Place(old(files), p, n))
              else WriteFailed(old(Snapshot()), p, a)
    {
      if !CanPlace(files, p) { return false; }
      if !a.writable {
        if a.parentsMade { files := WithParents(files, p); }
        return false;
      }
      files := Place(files, p, n);
      return true;
    }

    method BlockApply(p: Path, marker: string, content: string, a: Answers) returns (c: Call)
      modifies `files
      ensures StepOf(c, Snapshot()) == R.BlockApply(old(Snapshot()), p, marker, content, a)
    {
      var reading := ReadRegular(files, p);
      if reading.Unreadable? || !a.readable { return Failing; }
      if reading.Undecodable? { return Escaping; }
      match MB.WriteBlock(reading.text, MB.FenceOf(marker), content)
      case Unchanged => return Gave(BlockReceipt(p, marker, None), false);
      case Written(updated, prior) =>
        var ok := Write(p, File(updated, ModeOf(reading.mode)), a);
        if !ok { return Failing; }
        var change := BlockChange(reading.existed, reading.mode, prior, MB.Block(MB.FenceOf(marker), content));
        return Gave(BlockReceipt(p, marker, Some(change)), true);
      case _ => return Escaping;
    }

    method MergeApply(p: Path, keys: seq<string>, value: Json, replaceExisting: bool, a: Answers, codec: Codec)
      returns (c: Call)
      requires keys != []
      modifies `files
      ensures StepOf(c, Snapshot()) == R.MergeApply(old(Snapshot()), p, keys, value, replaceExisting, a, codec)
    {
      var reading := ReadRegular(files, p);
      if reading.Unreadable? || !a.readable { return Failing; }
      if reading.Undecodable? { return Escaping; }
      var root := RootOf(codec, reading.text);
      if root.None? { return Failing; }
      var merged := MergeAlong(root.value, keys, value, replaceExisting);
      match merged
      case Same => return Gave(MergeReceipt(p, None), false);
      case Collision => return Failing;
      case Merged(o, replaced) =>
        var ok := Write(p, File(codec.render(o), ModeOf(reading.mode)), a);
        if !ok { return Failing; }
        var change := MergeChange(keys, reading.existed, reading.mode, replaced, value, false);
        return Gave(MergeReceipt(p, Some(change)), true);
    }

    method DirectoryApply(p: Path, a: Answers) returns (c: Call)
      modifies `files
      ensures StepOf(c, Snapshot()) == R.DirectoryApply(old(Snapshot()), p, a)
    {
      if p in files {
        if files[p] != Dir { return Failing; }
        return Gave(DirectoryReceipt(p, false), false);
      }
      var ok := Write(p, Dir, a);
      if !ok { return Failing; }
      return Gave(DirectoryReceipt(p, true), true);
    }

    method PullApply(image: string, a: Answers) returns (c: Call)
      modifies `images
      ensures StepOf(c, Snapshot()) == R.PullApply(old(Snapshot()), image, a)
    {
      if image in images { return Gave(PullReceipt(image, true), false); }
      if a.pulled.None? { return Failing; }
      images := images[image := a.pulled.value];
      return Gave(PullReceipt(image, false), true);
    }

    method BuildApply(tag: string, a: Answers, workspace: RunWorkspace) returns (c: Call)
      requires workspace.Valid()
      modifies `images, workspace
      ensures workspace.Valid() && StepOf(c, Snapshot()) == R.BuildApply(old(Snapshot()), tag, a)
    {
      var preexisting := tag in images;
      var available := workspace.Open(a.contextOk);
      if !available || !a.contextOk { return Failing; }
      if a.built.None? { return Failing; }
      images := images[tag := a.built.value];
      return Gave(BuildReceipt(tag, if a.identified then a.built.value else "", preexisting), true);
    }

    method ExportApply(output: string, a: Answers, workspace: RunWorkspace) returns (c: Call)
      requires workspace.Valid()
      modifies workspace
      ensures workspace.Valid()
      ensures StepOf(c, Snapshot()) == R.ExportApply(Snapshot(), output, a)
    {
      var available := workspace.Open(a.contextOk);
      if !available || !a.contextOk { return Failing; }
      match a.exported
      case Good => return Gave(ExportReceipt(output), false);
      case Bad => return Failing;
      case Garbled => return Escaping;
    }

    method ApplyEffect(e: Effect, a: Answers, workspace: RunWorkspace, codec: Codec) returns (c: Call)
      requires WellFormed(e) && workspace.Valid()
      modifies this, workspace
      ensures workspace.Valid() && StepOf(c, Snapshot()) == R.ApplyEffect(old(Snapshot()), e, a, codec)
    {
      match e
      case Keychain(item, replaceExisting) => c := KeychainApply(item, replaceExisting, a);
      case OwnedBlock(p, marker, content) => c := BlockApply(p, marker, content, a);
      case Merging(p, keys, value, replaceExisting) => c := MergeApply(p, keys, value, replaceExisting, a, codec);
      case Directory(p) => c := DirectoryApply(p, a);
      case Pull(image) => c := PullApply(image, a);
      case Build(tag) => c := BuildApply(tag, a, workspace);
      case ExportCertificates(output) => c := ExportApply(output, a, workspace);
      case VerifyCommand => c := if a.verified then Gave(VerifyReceipt, false) else Failing;
      case Notice => c := Gave(NoticeReceipt, false);
      case Custom(script) =>
        match a.custom
        case CustomDone(reversible) => c := Gave(CustomReceipt(script, reversible), true);
        case CustomFailed => c := Failing;
        case CustomIncomplete(reversible) => c := Owing(CustomReceipt(script, reversible));
        case CustomRaised => c := Escaping;
    }

    // ---- compensating ----

    /** Unlinks or rewrites the file of a receipt. */
    method Rewrite(p: Path, text: string, mode: Option<nat>, remove: bool, a: Answers) returns (v: Verdict)
      modifies `files
      ensures Outcome(Snapshot(), v) == R.Rewrite(old(Snapshot()), p, text, mode, remove, a)
    {
      if !a.writable { return NotDone; }
      if remove {
        if p !in files { return NotDone; }
        files := files - {p};
      } else {
        if !CanPlace(files, p) { return NotDone; }
        files := Place(files, p, File(text, ModeOf(mode)));
      }
      return Done;
    }

    method BlockUndo(p: Path, marker: string, c: BlockChange, a: Answers) returns (v: Verdict)
      modifies `files
      ensures Outcome(Snapshot(), v) == R.BlockUndo(old(Snapshot()), p, marker, c, a)
    {
      var reading := ReadRegular(files, p);
      if reading.Unreadable? || !a.readable { return NotDone; }
      if reading.Undecodable? { return Threw; }
      match MB.UndoBlock(reading.text, MB.FenceOf(marker), c.installed, c.prior)
      case Refused => return NotDone;
      case UndoFails => return Threw;
      case Undone(rolled) => v := Rewrite(p, rolled, c.mode, rolled == "" && !c.fileExisted, a);
    }

    method MergeUndo(p: Path, c: MergeChange, a: Answers, codec: Codec) returns (v: Verdict)
      modifies `files
      ensures Outcome(Snapshot(), v) == R.MergeUndo(old(Snapshot()), p, c, a, codec)
    {
      if c.replaced { return NotDone; }
      var reading := ReadRegular(files, p);
      if reading.Unreadable? || !a.readable { return NotDone; }
      if reading.Undecodable? { return Threw; }
      var root := ParsedObject(codec, reading.text);
      if root.None? || c.keys == [] { return NotDone; }
      if c.frozen && HasList(c.installed) { return NotDone; }
      var left := UnmergeAlong(root.value, c.keys, c.installed);
      if left.None? { return NotDone; }
      v := Rewrite(p, codec.render(left.value), c.mode, left.value == map[] && !c.fileExisted, a);
    }

    method RollbackReceipt(r: Receipt, a: Answers, codec: Codec) returns (v: Verdict)
      modifies this
      ensures Outcome(Snapshot(), v) == R.RollbackReceipt(old(Snapshot()), r, a, codec)
    {
      match r
      case KeychainReceipt(item, created, replaced) =>
        if replaced { return NotDone; }
        if !created { return Done; }
        var deleted := Delete(item, a);
        return if deleted then Done else NotDone;
      case BlockReceipt(p, marker, Some(c)) => v := BlockUndo(p, marker, c, a);
      case MergeReceipt(p, Some(c)) => v := MergeUndo(p, c, a, codec);
      case DirectoryReceipt(p, true) =>
        if !EmptyDir(files, p) || !a.writable { return NotDone; }
        files := files - {p};
        return Done;
      case PullReceipt(_, preexisting) => return if preexisting then Done else NotDone;
      case BuildReceipt(tag, _, preexisting) =>
        if preexisting { return Done; }
        if tag !in images || !a.removeOk { return NotDone; }
        images := images - {tag};
        return Done;
      case CustomReceipt(_, reversible) => return if reversible then VerdictOf(a.customUndone) else NotDone;
      case _ => return Done;
    }

    /** Every compensation in reverse order, going on after one that fails. */
    method RollbackAll(rs: seq<Entry>, undo: nat -> Answers, codec: Codec) returns (v: Verdict)
      modifies this
      ensures Outcome(Snapshot(), v) == R.RollbackAll(old(Snapshot()), rs, undo, codec)
    {
      var complete := true;
      assert rs[..|rs|] == rs;
      for i := |rs| downto 0
        invariant R.RollbackAll(old(Snapshot()), rs, undo, codec)
               == Combined(R.RollbackAll(Snapshot(), rs[..i], undo, codec), complete)
      {
        var before := rs[..i + 1];
        assert before[..i] == rs[..i] && before[i] == rs[i];
        if !rs[i].compensated {
          var undone := RollbackReceipt(rs[i].receipt, undo(i), codec);
          if undone == Threw { return Threw; }
          if undone == NotDone { complete := false; }
        }
      }
      assert rs[..0] == [];
      return if complete then Done else NotDone;
    }

    // ---- the transaction ----

    /** Ends a run by compensating everything it has done. */
    method Abandon(receipts: seq<Entry>, status: Status, env: Environment, codec: Codec) returns (reply: Ended)
      modifies this
      ensures ResultOf(reply, Snapshot()) == R.Abandon(old(Snapshot()), receipts, status, env, codec)
    {
      var v := RollbackAll(receipts, env.undo, codec);
      match v
      case Threw => return NoReply;
      case Done => return Replied(Record(status, []));
      case NotDone => return Replied(Record(RollbackIncomplete, Freeze(receipts)));
    }

    method ApplyEffects(es: seq<Effect>, env: Environment, workspace: RunWorkspace, codec: Codec) returns (reply: Ended)
      requires (forall e :: e in es ==> WellFormed(e)) && workspace.Valid()
      modifies this, workspace
      ensures workspace.Valid()
      ensures ResultOf(reply, Snapshot()) == R.ApplyEffects(old(Snapshot()), es, 0, [], false, env, codec)
    {
      var receipts, changed := [], false;
      for k := 0 to |es|
        invariant workspace.Valid()
        invariant R.ApplyEffects(old(Snapshot()), es, 0, [], false, env, codec)
               == R.ApplyEffects(Snapshot(), es, k, receipts, changed, env, codec)
      {
        if !env.apply(k).consent {
          reply := Abandon(receipts, Cancelled, env, codec);
          return;
        }
        var call := ApplyEffect(es[k], env.apply(k), workspace, codec);
        match call
        case Gave(receipt, effectChanged) =>
          receipts := receipts + [Entry(receipt, false)];
          changed := changed || effectChanged;
        case Failing =>
          reply := Abandon(receipts, FailureStatus(es[k]), env, codec);
          return;
        case Owing(receipt) =>
          receipts := receipts + [Entry(receipt, false)];
          reply := Abandon(receipts, FailureStatus(es[k]), env, codec);
          return;
        case Escaping => return NoReply;
      }
      return Replied(if changed then Record(Configured, Freeze(receipts)) else Record(AlreadyConfigured, []));
    }

    /** Looks at every managed target before the first effect. */
    method ManagedFilePreflight(es: seq<Effect>) returns (ok: bool)
      ensures ok <==> forall i :: 0 <= i < |es| ==> TargetIsFile(files, es[i])
    {
      for k := 0 to |es|
        invariant forall i :: 0 <= i < k ==> TargetIsFile(files, es[i])
      {
        if !TargetIsFile(files, es[k]) { return false; }
      }
      return true;
    }

    /** The whole transaction. The workspace is given back closed, whatever way the run ended, and at most one
        working copy was made in it. */
    method ApplySetupPlan(es: seq<Effect>, gates: Gates, env: Environment, codec: Codec)
      returns (reply: Ended, workspace: RunWorkspace)
      requires forall e :: e in es ==> WellFormed(e)
      modifies this
      ensures ResultOf(reply, Snapshot()) == R.ApplySetupPlan(old(Snapshot()), es, gates, env, codec)
      ensures fresh(workspace) && !workspace.runDir && workspace.copies <= 1
    {
      workspace := new RunWorkspace();
      if !gates.hashMatches { return Replied(Record(RolledBack, [])), workspace; }
      if gates.preflight.Some? { return Replied(Record(gates.preflight.value, [])), workspace; }
      if !gates.platformSupported { return Replied(Record(Unsupported, [])), workspace; }
      if !gates.toolsPresent { return Replied(Record(PrerequisiteMissing, [])), workspace; }
      var ok := ManagedFilePreflight(es);
      if !ok { return Replied(Record(PrerequisiteMissing, [])), workspace; }
      if !gates.inputsGiven { return Replied(Record(Cancelled, [])), workspace; }
      reply := ApplyEffects(es, env, workspace, codec);
      workspace.Close();
    }

    method RollbackRecord(record: Record, undo: nat -> Answers, codec: Codec) returns (reply: Ended)
      modifies this
      ensures ResultOf(reply, Snapshot()) == R.RollbackRecord(old(Snapshot()), record, undo, codec)
    {
      var v := RollbackAll(record.receipts, undo, codec);
      match v
      case Threw => return NoReply;
      case Done => return Replied(Record(Skipped, []));
      case NotDone => return Replied(Record(RollbackIncomplete, record.receipts));
    }
  }
}
