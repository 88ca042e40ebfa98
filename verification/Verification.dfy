/** What a receipt claims about the world, and the questions that check it. */
module Verification {
  import opened Text
  import opened JsonMerge
  import opened World
  import opened Runtime
  import opened Soundness
  import opened Convergence
  import MB = ManagedBlock
  import BL = BlockLaws

  datatype Claim =
    | ImagePresent(image: string)
    | TagResolves(tag: string, imageId: string)
    | KeychainHoldsValue(item: Item)
    | BlockPresent(path: Path, block: string)
    | FilePresent(path: Path)
    | OutputPresent(output: string)     // a file in the working copy, which goes with the run

  function ClaimsFor(e: Entry): seq<Claim> {
    if e.compensated then []
    else match e.receipt
      case PullReceipt(image, _) => if image != "" then [ImagePresent(image)] else []
      case BuildReceipt(tag, id, _) =>
        if tag == "" then [] else if id == "" then [ImagePresent(tag)] else [TagResolves(tag, id)]
      case KeychainReceipt(item, _, _) =>
        if item.service == "" || item.account == "" then [] else [KeychainHoldsValue(item)]
      case BlockReceipt(p, _, None) => [FilePresent(p)]
      case BlockReceipt(p, _, Some(c)) =>
        if c.installed == "" then [FilePresent(p)] else [BlockPresent(p, c.installed)]
      case ExportReceipt(output) => if output != "" then [OutputPresent(output)] else []
      case MergeReceipt(p, _) => [FilePresent(p)]
      case _ => []
  }

  function AllClaims(rs: seq<Entry>): seq<Claim> {
    if rs == [] then [] else AllClaims(rs[..|rs| - 1]) + ClaimsFor(rs[|rs| - 1])
  }

  /** The claims of a record, receipt by receipt. */
  method PlanVerification(rs: seq<Entry>) returns (claims: seq<Claim>)
    ensures claims == AllClaims(rs)
  {
    claims := [];
    for i := 0 to |rs|
      invariant claims == AllClaims(rs[..i])
    {
      assert rs[..i + 1][..i] == rs[..i];
      claims := claims + ClaimsFor(rs[i]);
    }
    assert rs[..|rs|] == rs;
  }

  datatype Answer = True | False | Unknown

  function LStrip(t: string): string {
    if t != "" && MB.IsSpace(t[0]) then LStrip(t[1..]) else t
  }

  function Strip(t: string): string {
    LStrip(MB.RStrip(t))
  }

  ghost predicate Contains(t: string, s: string) {
    exists i :: 0 <= i <= |t| && s <= t[i..]
  }

  /** The file is text that holds the block, but for blanks around it. */
  ghost predicate HoldsBlock(fs: Files, p: Path, block: string) {
    p in fs && fs[p].File? && Strip(block) != "" && Contains(TextOf(fs[p]), Strip(block))
  }

  /** The answer of a truthful probe of the world. */
  ghost function Check(w: World, c: Claim): Answer {
    match c
    case ImagePresent(image) => if image in w.images then True else False
    case TagResolves(tag, id) => if tag in w.images && w.images[tag] == id then True else False
    case KeychainHoldsValue(item) => if item in w.keychain && !Blank(w.keychain[item]) then True else False
    case BlockPresent(p, block) =>
      if p !in w.files then False
      else if w.files[p].Binary? then Unknown      // what is shown for bytes that are not UTF-8 is not modelled
      else if HoldsBlock(w.files, p, block) then True else False
    case FilePresent(p) => if p in w.files then True else False
    case OutputPresent(_) => Unknown
  }

  // ---- what is true when the claims are ----

  /** Something is named that can be asked about. */
  predicate Named(r: Receipt) {
    match r
    case PullReceipt(image, _) => image != ""
    case BuildReceipt(tag, _, _) => tag != ""
    case KeychainReceipt(item, _, _) => item.service != "" && item.account != ""
    case _ => true
  }

  /** What the receipt records is there: the item with a value that is not blank, the installed block in its file, the
      file of a block that was there already or of a value, the image, or the tag with the image it was built to. */
  ghost predicate Recorded(w: World, r: Receipt) {
    match r
    case KeychainReceipt(item, _, _) => item in w.keychain && !Blank(w.keychain[item])
    case BlockReceipt(p, _, Some(c)) => if c.installed == "" then p in w.files else HoldsBlock(w.files, p, c.installed)
    case BlockReceipt(p, _, None) => p in w.files
    case MergeReceipt(p, _) => p in w.files
    case PullReceipt(image, _) => image in w.images
    case BuildReceipt(tag, id, _) => tag in w.images && (id != "" ==> w.images[tag] == id)
    case _ => true
  }

  /** All claims of a receipt that was not compensated are answered true if and only if what it records is there. */
  lemma ClaimsExactly(w: World, r: Receipt)
    requires !r.ExportReceipt?
    ensures (forall c :: c in ClaimsFor(Entry(r, false)) ==> Check(w, c) == True) <==> (Named(r) ==> Recorded(w, r))
  {
    hide Contains, Strip, Blank, TextOf;
    var claims := ClaimsFor(Entry(r, false));
    if |claims| == 1 { assert claims[0] in claims; }
  }

  /** Claims are listed receipt by receipt, in the order of the record. */
  lemma {:induction false} ClaimsAcross(a: seq<Entry>, b: seq<Entry>)
    ensures AllClaims(a + b) == AllClaims(a) + AllClaims(b)
  {
    hide ClaimsFor;
    if b == [] {
      assert a + b == a;
    } else {
      var n := |b| - 1;
      var all := a + b;
      assert all[..|all| - 1] == a + b[..n] && all[|all| - 1] == b[n];
      ClaimsAcross(a, b[..n]);
    }
  }

  lemma {:induction false} ClaimsOfReceipt(rs: seq<Entry>, i: nat, c: Claim)
    requires i < |rs| && c in ClaimsFor(rs[i])
    ensures c in AllClaims(rs)
  {
    if i < |rs| - 1 { ClaimsOfReceipt(rs[..|rs| - 1], i, c); }
  }

  lemma LostClaim(w: World, r: Receipt) returns (c: Claim)
    requires !r.ExportReceipt? && Named(r) && !Recorded(w, r)
    requires r.BlockReceipt? && r.path in w.files ==> !w.files[r.path].Binary?
    ensures c in ClaimsFor(Entry(r, false)) && Check(w, c) == False
  {
    hide Contains, Strip, Blank, TextOf;
    c := ClaimsFor(Entry(r, false))[0];
  }

  /** An effect that was lost makes some claim of the whole record false, unless its file is no text any more. */
  lemma LostIsFalse(w: World, rs: seq<Entry>, i: nat)
    requires i < |rs| && !rs[i].compensated && !rs[i].receipt.ExportReceipt? && Named(rs[i].receipt)
    requires !Recorded(w, rs[i].receipt)
    requires rs[i].receipt.BlockReceipt? && rs[i].receipt.path in w.files ==> !w.files[rs[i].receipt.path].Binary?
    ensures exists c :: c in AllClaims(rs) && Check(w, c) == False
  {
    hide Recorded, Named, Check, ClaimsFor;
    var c := LostClaim(w, rs[i].receipt);
    assert rs[i] == Entry(rs[i].receipt, false);
    ClaimsOfReceipt(rs, i, c);
  }

  lemma {:induction false} StripKeepsEnds(t: string)
    requires t != "" && !MB.IsSpace(t[0]) && !MB.IsSpace(t[|t| - 1])
    ensures Strip(t) == t
  {
  }

  /** The blocks that steps install have no blanks around them: the claim asks for the installed block itself. */
  lemma StripOfBlock(marker: string, content: string)
    ensures var b := MB.Block(MB.FenceOf(marker), content); b != "" && Strip(b) == b
  {
    var b := MB.Block(MB.FenceOf(marker), content);
    assert b[0] == '#' by { assert MB.FenceOf(marker).open[0] == '#'; }
    assert b[|b| - 1] == '<' by { assert MB.FenceOf(marker).close[|MB.FenceOf(marker).close| - 1] == '<'; }
    StripKeepsEnds(b);
  }

  // ---- what stands after a step ----

  /** The effect's result is in place. */
  ghost predicate Standing(w: World, e: Effect, r: Receipt, codec: Codec) {
    match e
    case OwnedBlock(p, marker, content) =>
      Settled(w, e, codec) && r.BlockReceipt? && r.path == p &&
      (r.block.Some? ==> r.block.value.installed == MB.Block(MB.FenceOf(marker), content))
    case Merging(p, _, _, _) => r.MergeReceipt? && r.path == p && p in w.files && w.files[p].File?
    case Keychain(item, _) => r.KeychainReceipt? && r.item == item && item in w.keychain && !Blank(w.keychain[item])
    case Pull(image) => r.PullReceipt? && r.image == image && image in w.images
    case Build(tag) =>
      r.BuildReceipt? && r.tag == tag && tag in w.images && (r.imageId != "" ==> w.images[tag] == r.imageId)
    case Directory(p) => r.DirectoryReceipt?
    case ExportCertificates(_) => r.ExportReceipt?
    case VerifyCommand => r.VerifyReceipt?
    case Notice => r.NoticeReceipt?
    case Custom(_) => false
  }

  lemma SubstringOfLines(p: seq<string>, x: seq<string>, q: seq<string>)
    requires 0 < |x|
    ensures Contains(Join(p + x + q), Join(x))
  {
    hide Join, Unlines;
    var t := Join(p + x + q);
    var n := |Unlines(p)|;
    assert p + x + q == p + (x + q);
    JoinAcross(p, x + q);
    assert t[n..] == Join(x + q);
    if q == [] {
      assert x + q == x;
    } else {
      JoinAcross(x, q);
      JoinThenNewline(x);
    }
    assert Join(x) <= t[n..];
  }

  lemma SettledContains(t: string, f: MB.Fence, content: string)
    requires MB.Proper(f) && MB.WriteBlock(t, f, content) == MB.Unchanged
    ensures Contains(t, MB.Block(f, content))
  {
    hide Split, Join, MB.FindBlock, MB.BlockLines, MB.Block, Contains;
    var s := BL.UnchangedMeans(t, f, content);
    var ls := Split(t);
    MB.SplitOfBlock(f, content);
    JoinOfSplit(t);
    assert ls == ls[..s.first] + ls[s.first..s.last + 1] + ls[s.last + 1..];
    SubstringOfLines(ls[..s.first], ls[s.first..s.last + 1], ls[s.last + 1..]);
  }

  /** What stands makes its claims true. */
  lemma StandingIsTrue(w: World, e: Effect, r: Receipt, codec: Codec, c: Claim)
    requires Standing(w, e, r, codec) && c in ClaimsFor(Entry(r, false)) && !c.OutputPresent?
    requires e.OwnedBlock? ==> IsLine(e.marker)
    ensures Check(w, c) == True
  {
    hide MB.WriteBlock, MB.FenceOf, MB.Block, Contains, Translate;
    if e.OwnedBlock? {
      MB.MarkersAreProper(e.marker);
      SettledContains(TextOf(w.files[e.path]), MB.FenceOf(e.marker), e.content);
      StripOfBlock(e.marker, e.content);
    }
  }

  /** The secrets of the plan that are stored are not blank. */
  predicate NoBlankSecrets(w: World, es: seq<Effect>) {
    forall i :: 0 <= i < |es| && es[i].Keychain? && es[i].item in w.keychain ==> !Blank(w.keychain[es[i].item])
  }

  predicate StoresSomething(a: Answers) {
    a.addStores.Some? ==> !Blank(a.addStores.value)
  }

  lemma StepStands(w: World, es: seq<Effect>, e: Effect, a: Answers, codec: Codec)
    requires Lawful(codec) && WellFormed(e) && !e.Custom? && QuietStep(w, e)
    requires e in es && NoBlankSecrets(w, es) && StoresSomething(a)
    requires ApplyEffect(w, e, a, codec).Applied?
    ensures var s := ApplyEffect(w, e, a, codec);
            Standing(s.world, e, s.receipt, codec) && NoBlankSecrets(s.world, es)
  {
    hide MB.WriteBlock, MergeAt, RootOf, Lookup, MB.Block, QuietStep;
    if e.OwnedBlock? {
      AppliedSettles(w, e, a, codec);
    } else if e.Merging? {
      if e.path !in w.files {
        EmptyRoot(codec, e.keys, e.value, e.replaceExisting);
      }
    }
  }

  /** Later steps leave it standing, unless they build the same tag again. */
  lemma StandingStays(w: World, e: Effect, r: Receipt, later: Effect, a: Answers, codec: Codec)
    requires Lawful(codec) && WellFormed(later) && !later.Custom? && WellFormed(e)
    requires e.OwnedBlock? ==> IsLine(e.marker)
    requires Standing(w, e, r, codec) && BlocksApart(e, later) && QuietStep(w, later) && PriorApart(w, e, later)
    requires e.Build? && later.Build? ==> e.tag != later.tag
    requires StoresSomething(a)
    requires ApplyEffect(w, later, a, codec).Applied?
    ensures Standing(ApplyEffect(w, later, a, codec).world, e, r, codec)
  {
    hide MB.WriteBlock, MergeAt, RootOf, Lookup, QuietStep, PriorApart, MB.FenceOf, BL.Apart, MB.Block, BlocksApart;
    if e.OwnedBlock? {
      BlockStays(w, e, later, a, codec);
    }
  }

  // ---- a whole run ----

  lemma FrozenStands(w: World, es: seq<Effect>, rs: seq<Entry>, codec: Codec)
    requires AllStand(w, es, rs, codec)
    ensures AllStand(w, es, Freeze(rs), codec)
  {
  }

  predicate Verifiable(es: seq<Effect>) {
    (forall i :: 0 <= i < |es| ==>
     WellFormed(es[i]) && !es[i].Custom? && (es[i].OwnedBlock? ==> IsLine(es[i].marker))) &&
    (forall i, j :: 0 <= i < j < |es| ==>
       BlocksApart(es[i], es[j]) && (es[i].Build? && es[j].Build? ==> es[i].tag != es[j].tag))
  }

  ghost predicate AllStand(w: World, es: seq<Effect>, rs: seq<Entry>, codec: Codec) {
    |rs| <= |es| && forall i :: 0 <= i < |rs| ==> !rs[i].compensated && Standing(w, es[i], rs[i].receipt, codec)
  }

  lemma {:induction false} RunStands(w: World, es: seq<Effect>, k: nat, rs: seq<Entry>, changed: bool,
                                     env: Environment, codec: Codec)
    requires Lawful(codec) && Verifiable(es) && k <= |es| && |rs| == k
    requires forall e :: e in es ==> WellFormed(e)
    requires QuietRun(w, es, k, env, codec)
    requires forall i :: 0 <= i < |es| ==> StoresSomething(env.apply(i))
    requires NoBlankSecrets(w, es) && AllStand(w, es, rs, codec)
    ensures var r := ApplyEffects(w, es, k, rs, changed, env, codec);
            r.Returned? && r.record.status == Configured ==> AllStand(r.world, es, r.record.receipts, codec)
    decreases |es| - k
  {
    hide ApplyEffect, Standing, QuietStep, PriorApart, BlocksApart, RollbackAll, Lawful, NoBlankSecrets,
         StoresSomething;
    if k == |es| {
      FrozenStands(w, es, rs, codec);
    }
    if k < |es| && env.apply(k).consent && ApplyEffect(w, es[k], env.apply(k), codec).Applied? {
      var s := ApplyEffect(w, es[k], env.apply(k), codec);
      var all := rs + [Entry(s.receipt, false)];
      StepStands(w, es, es[k], env.apply(k), codec);
      forall i | 0 <= i < |all|
        ensures !all[i].compensated && Standing(s.world, es[i], all[i].receipt, codec)
      {
        if i < k { StandingStays(w, es[i], rs[i].receipt, es[k], env.apply(k), codec); }
      }
      RunStands(s.world, es, k + 1, all, changed || s.changed, env, codec);
    }
  }

  lemma {:induction false} ClaimHasReceipt(rs: seq<Entry>, c: Claim) returns (i: nat)
    requires c in AllClaims(rs)
    ensures i < |rs| && c in ClaimsFor(rs[i])
  {
    var n := |rs| - 1;
    if c in ClaimsFor(rs[n]) {
      i := n;
    } else {
      i := ClaimHasReceipt(rs[..n], c);
    }
  }

  /** Directly after a run that returned configured, every claim its record makes is answered true, except those about
      exported certificates, whose file went with the run. */
  lemma FreshRecordVerifies(w: World, es: seq<Effect>, gates: Gates, env: Environment, codec: Codec, c: Claim)
    requires Lawful(codec) && Verifiable(es) && NoBlankSecrets(w, es) && gates.preflight.None?
    requires forall e :: e in es ==> WellFormed(e)
    requires QuietRun(w, es, 0, env, codec)
    requires forall i :: 0 <= i < |es| ==> StoresSomething(env.apply(i))
    requires var r := ApplySetupPlan(w, es, gates, env, codec);
             r.Returned? && r.record.status == Configured && c in AllClaims(r.record.receipts) && !c.OutputPresent?
    ensures Check(ApplySetupPlan(w, es, gates, env, codec).world, c) == True
  {
    hide ApplyEffects, QuietRun, ClaimsFor, Standing, Check, MB.WriteBlock, RootOf;
    var r := ApplySetupPlan(w, es, gates, env, codec);
    RunStands(w, es, 0, [], false, env, codec);
    var i := ClaimHasReceipt(r.record.receipts, c);
    var entry := r.record.receipts[i];
    assert entry == Entry(entry.receipt, false);
    StandingIsTrue(r.world, es[i], entry.receipt, codec, c);
  }
}
