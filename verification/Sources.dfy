/** Source configuration changes: the operations that lead from one configuration to another, adding and removing. */
module Sources {
  import opened Order
  import opened Text

  datatype Kind = RegistryGit | SourceGit | SourceLocal

  datatype ConfiguredSource =
    ConfiguredSource(alias: string, kind: Kind, location: string, reference: Option<string>, enabled: bool)

  datatype Configuration =
    Configuration(schema: nat, sources: seq<ConfiguredSource>, defaultRegistry: Option<string>, sync: string,
                  reporting: string)

  // ---- sorted, unique aliases ----

  predicate Ordered(ss: seq<ConfiguredSource>) {
    forall i, j :: 0 <= i < j < |ss| ==> Before(ss[i].alias, ss[j].alias)
  }

  predicate HasAlias(ss: seq<ConfiguredSource>, alias: string) {
    exists i :: 0 <= i < |ss| && ss[i].alias == alias
  }

  /** What a configuration is meant to be: sources ordered by distinct aliases, which every configuration value
      checks, and a default that is configured, which it does not check. */
  predicate Valid(c: Configuration) {
    Ordered(c.sources) && (c.defaultRegistry.Some? ==> HasAlias(c.sources, c.defaultRegistry.value))
  }

  lemma DistinctAliases(ss: seq<ConfiguredSource>, i: nat, j: nat)
    requires Ordered(ss) && i < |ss| && j < |ss| && ss[i].alias == ss[j].alias
    ensures i == j
  {
    BeforeTrichotomy(ss[i].alias, ss[j].alias);
  }

  // ---- operations between two configurations ----

  datatype Operation = Disable(alias: string) | Enable(alias: string) | UseDefault(alias: string) | ClearDefault

  predicate SameIdentity(a: ConfiguredSource, b: ConfiguredSource) {
    a.(enabled := b.enabled) == b
  }

  /** Only enabled flags and the default registry differ. */
  predicate Manageable(before: Configuration, after: Configuration) {
    before.schema == after.schema && before.sync == after.sync && before.reporting == after.reporting &&
    |before.sources| == |after.sources| &&
    forall i :: 0 <= i < |before.sources| ==> SameIdentity(before.sources[i], after.sources[i])
  }

  function Disables(before: seq<ConfiguredSource>, after: seq<ConfiguredSource>): seq<Operation>
    requires |before| == |after|
  {
    if before == [] then []
    else
      var n := |before| - 1;
      Disables(before[..n], after[..n]) +
      (if before[n].enabled && !after[n].enabled then [Disable(before[n].alias)] else [])
  }

  function Enables(before: seq<ConfiguredSource>, after: seq<ConfiguredSource>): seq<Operation>
    requires |before| == |after|
  {
    if before == [] then []
    else
      var n := |before| - 1;
      Enables(before[..n], after[..n]) +
      (if !before[n].enabled && after[n].enabled then [Enable(before[n].alias)] else [])
  }

  function DefaultChange(before: Configuration, after: Configuration): seq<Operation> {
    if before.defaultRegistry == after.defaultRegistry then []
    else if after.defaultRegistry.None? then [ClearDefault]
    else [UseDefault(after.defaultRegistry.value)]
  }

  /** The operations that the operator is shown; nothing when more than flags and default would change. */
  method ConfigurationOperations(before: Configuration, after: Configuration)
      returns (operations: Option<seq<Operation>>)
    ensures operations.Some? <==> Manageable(before, after)
    ensures operations.Some? ==>
              operations.value == Disables(before.sources, after.sources) + Enables(before.sources, after.sources) +
                                  DefaultChange(before, after)
  {
    if before.schema != after.schema || before.sync != after.sync || before.reporting != after.reporting ||
       |before.sources| != |after.sources| ||
       (exists i :: 0 <= i < |before.sources| && before.sources[i].alias != after.sources[i].alias) {
      return None;
    }
    var disables := DisableOperations(before.sources, after.sources);
    if disables.None? { return None; }
    var enables := EnableOperations(before.sources, after.sources);
    var ops := disables.value + enables;
    if before.defaultRegistry != after.defaultRegistry {
      ops := ops + (if after.defaultRegistry.None? then [ClearDefault] else [UseDefault(after.defaultRegistry.value)]);
    }
    return Some(ops);
  }

  method DisableOperations(before: seq<ConfiguredSource>, after: seq<ConfiguredSource>)
      returns (ops: Option<seq<Operation>>)
    requires |before| == |after|
    ensures ops.Some? <==> forall i :: 0 <= i < |before| ==> SameIdentity(before[i], after[i])
    ensures ops.Some? ==> ops.value == Disables(before, after)
  {
    var found: seq<Operation> := [];
    for i := 0 to |before|
      invariant found == Disables(before[..i], after[..i])
      invariant forall x :: 0 <= x < i ==> SameIdentity(before[x], after[x])
    {
      if !SameIdentity(before[i], after[i]) { return None; }
      assert before[..i + 1][..i] == before[..i] && after[..i + 1][..i] == after[..i];
      if before[i].enabled && !after[i].enabled { found := found + [Disable(before[i].alias)]; }
    }
    assert before[..|before|] == before && after[..|after|] == after;
    return Some(found);
  }

  method EnableOperations(before: seq<ConfiguredSource>, after: seq<ConfiguredSource>) returns (ops: seq<Operation>)
    requires |before| == |after|
    ensures ops == Enables(before, after)
  {
    ops := [];
    for i := 0 to |before|
      invariant ops == Enables(before[..i], after[..i])
    {
      assert before[..i + 1][..i] == before[..i] && after[..i + 1][..i] == after[..i];
      if !before[i].enabled && after[i].enabled { ops := ops + [Enable(before[i].alias)]; }
    }
    assert before[..|before|] == before && after[..|after|] == after;
  }

  // ---- replaying operations ----

  function SetEnabled(ss: seq<ConfiguredSource>, alias: string, enabled: bool): (r: seq<ConfiguredSource>)
    ensures |r| == |ss|
    ensures forall i :: 0 <= i < |ss| ==> r[i] == if ss[i].alias == alias then ss[i].(enabled := enabled) else ss[i]
  {
    if ss == [] then []
    else [if ss[0].alias == alias then ss[0].(enabled := enabled) else ss[0]] + SetEnabled(ss[1..], alias, enabled)
  }

  /** What one operation means. */
  function Perform(c: Configuration, op: Operation): Configuration {
    match op
    case Disable(a) => c.(sources := SetEnabled(c.sources, a, false))
    case Enable(a) => c.(sources := SetEnabled(c.sources, a, true))
    case UseDefault(a) => c.(defaultRegistry := Some(a))
    case ClearDefault => c.(defaultRegistry := None)
  }

  function Replay(c: Configuration, ops: seq<Operation>): Configuration
    decreases |ops|
  {
    if ops == [] then c else Replay(Perform(c, ops[0]), ops[1..])
  }

  lemma {:induction false} ReplayAcross(c: Configuration, a: seq<Operation>, b: seq<Operation>)
    ensures Replay(c, a + b) == Replay(Replay(c, a), b)
    decreases |a|
  {
    if a == [] {
      assert a + b == b;
    } else {
      assert (a + b)[1..] == a[1..] + b;
      ReplayAcross(Perform(c, a[0]), a[1..], b);
    }
  }

  /** The sources with the flags of after up to n, where these turn something off (or on). */
  function Mixed(before: seq<ConfiguredSource>, after: seq<ConfiguredSource>, n: nat,
                 on: bool): (r: seq<ConfiguredSource>)
    requires n <= |before| == |after|
    ensures |r| == |before|
    ensures forall i :: 0 <= i < |before| ==>
              r[i] == if i < n && before[i].enabled != on && after[i].enabled == on
                      then before[i].(enabled := on) else before[i]
  {
    seq(|before|, i requires 0 <= i < |before| =>
          if i < n && before[i].enabled != on && after[i].enabled == on then before[i].(enabled := on) else before[i])
  }

  lemma MixedNext(before: seq<ConfiguredSource>, after: seq<ConfiguredSource>, n: nat, on: bool)
    requires n < |before| == |after| && Ordered(before)
    ensures Mixed(before, after, n + 1, on) ==
            if before[n].enabled != on && after[n].enabled == on
            then SetEnabled(Mixed(before, after, n, on), before[n].alias, on) else Mixed(before, after, n, on)
  {
    forall i | 0 <= i < |before| && before[i].alias == before[n].alias ensures i == n {
      DistinctAliases(before, i, n);
    }
  }

  lemma {:induction false} ReplayDisables(c: Configuration, after: seq<ConfiguredSource>, n: nat)
    requires n <= |c.sources| == |after| && Ordered(c.sources)
    ensures Replay(c, Disables(c.sources[..n], after[..n])) == c.(sources := Mixed(c.sources, after, n, false))
  {
    hide Before, SetEnabled, Ordered;
    if n == 0 {
      assert Mixed(c.sources, after, 0, false) == c.sources;
    } else {
      ReplayDisables(c, after, n - 1);
      assert c.sources[..n][..n - 1] == c.sources[..n - 1] && after[..n][..n - 1] == after[..n - 1];
      var m := n - 1;
      var op := if c.sources[m].enabled && !after[m].enabled then [Disable(c.sources[m].alias)] else [];
      ReplayAcross(c, Disables(c.sources[..m], after[..m]), op);
      MixedNext(c.sources, after, m, false);
    }
  }

  lemma {:induction false} ReplayEnables(c: Configuration, d: Configuration, after: seq<ConfiguredSource>, n: nat)
    requires n <= |c.sources| == |after| == |d.sources| && Ordered(d.sources)
    requires forall i :: 0 <= i < |after| ==>
               c.sources[i].alias == d.sources[i].alias &&
               (after[i].enabled ==> c.sources[i].enabled == d.sources[i].enabled)
    ensures Replay(d, Enables(c.sources[..n], after[..n])) == d.(sources := Mixed(d.sources, after, n, true))
  {
    hide Before, SetEnabled, Ordered;
    if n == 0 {
      assert Mixed(d.sources, after, 0, true) == d.sources;
    } else {
      ReplayEnables(c, d, after, n - 1);
      assert c.sources[..n][..n - 1] == c.sources[..n - 1] && after[..n][..n - 1] == after[..n - 1];
      var m := n - 1;
      var op := if !c.sources[m].enabled && after[m].enabled then [Enable(c.sources[m].alias)] else [];
      ReplayAcross(d, Enables(c.sources[..m], after[..m]), op);
      MixedNext(d.sources, after, m, true);
    }
  }

  /** Performing the listed operations on the first configuration, in order, gives the second. */
  lemma OperationsReplay(before: Configuration, after: Configuration)
    requires Ordered(before.sources) && Manageable(before, after)
    ensures Replay(before, Disables(before.sources, after.sources) + Enables(before.sources, after.sources) +
                           DefaultChange(before, after)) == after
  {
    hide Before, Disables, Enables, Replay, DefaultChange;
    var n := |before.sources|;
    var d, e, f := Disables(before.sources, after.sources), Enables(before.sources, after.sources),
      DefaultChange(before, after);
    assert before.sources[..n] == before.sources && after.sources[..n] == after.sources;
    ReplayAcross(before, d + e, f);
    ReplayAcross(before, d, e);
    ReplayDisables(before, after.sources, n);
    var off := before.(sources := Mixed(before.sources, after.sources, n, false));
    assert Replay(before, d) == off;
    assert Ordered(off.sources);
    OffSources(before.sources, after.sources);
    ReplayEnables(before, off, after.sources, n);
    OnSources(before.sources, after.sources, off.sources);
    ReplayDefault(off.(sources := after.sources), before, after);
  }

  lemma OffSources(before: seq<ConfiguredSource>, after: seq<ConfiguredSource>)
    requires |before| == |after| && Ordered(before)
    ensures var off := Mixed(before, after, |before|, false);
            Ordered(off) &&
            forall i :: 0 <= i < |after| ==>
              before[i].alias == off[i].alias && (after[i].enabled ==> before[i].enabled == off[i].enabled)
  {
    hide Before;
  }

  lemma OnSources(before: seq<ConfiguredSource>, after: seq<ConfiguredSource>, off: seq<ConfiguredSource>)
    requires |before| == |after| && forall i :: 0 <= i < |before| ==> SameIdentity(before[i], after[i])
    requires off == Mixed(before, after, |before|, false)
    ensures Mixed(off, after, |off|, true) == after
  {
  }

  lemma ReplayDefault(c: Configuration, before: Configuration, after: Configuration)
    requires c == after.(defaultRegistry := before.defaultRegistry)
    ensures Replay(c, DefaultChange(before, after)) == after
  {
  }

  // ---- adding and removing a source ----

  /** Facts from other components: the canonical form of a source, its origin, and the organization policy. */
  datatype Facts = Facts(
    canonical: ConfiguredSource -> Option<ConfiguredSource>,
    origin: (Kind, string) -> seq<string>,
    parsedOrigin: string -> bool,
    directAllowed: bool,
    required: set<string>,
    policyAllows: Configuration -> bool)

  predicate IsGit(s: ConfiguredSource) {
    !s.kind.SourceLocal?
  }

  function Insert(ss: seq<ConfiguredSource>, s: ConfiguredSource): seq<ConfiguredSource> {
    if ss == [] then [s]
    else if Before(s.alias, ss[0].alias) then [s] + ss
    else [ss[0]] + Insert(ss[1..], s)
  }

  function WithoutAlias(ss: seq<ConfiguredSource>, alias: string): (r: seq<ConfiguredSource>)
    ensures |r| <= |ss| && (|r| == |ss| <==> r == ss)
  {
    if ss == [] then [] else (if ss[0].alias == alias then [] else [ss[0]]) + WithoutAlias(ss[1..], alias)
  }

  datatype AdditionRequest =
    AdditionRequest(before: Configuration, after: Configuration, source: ConfiguredSource, makeDefault: bool)

  predicate SameOrigin(a: ConfiguredSource, b: ConfiguredSource, facts: Facts) {
    IsGit(a) && IsGit(b) && a.reference == b.reference &&
      facts.origin(a.kind, a.location) == facts.origin(b.kind, b.location)
  }

  predicate Duplicates(a: ConfiguredSource, b: ConfiguredSource) {
    a.kind == b.kind && a.location == b.location && a.reference == b.reference
  }

  /** The request value refuses to exist when it would not be exactly one addition. */
  predicate RequestHolds(r: AdditionRequest, facts: Facts) {
    facts.canonical(r.source) == Some(r.source) &&
    r.before.schema == r.after.schema && r.before.sync == r.after.sync && r.before.reporting == r.after.reporting &&
    !HasAlias(r.before.sources, r.source.alias) && r.source in r.after.sources &&
    (forall s :: s in r.before.sources ==> !Duplicates(s, r.source)) &&
    (forall s :: s in r.before.sources ==> s in r.after.sources) &&
    (forall s :: s in r.after.sources ==> s == r.source || s in r.before.sources) &&
    r.after.defaultRegistry == (if r.makeDefault then Some(r.source.alias) else r.before.defaultRegistry) &&
    (r.makeDefault ==> r.source.kind == RegistryGit) && r.source.enabled
  }

  function PlanAddition(c: Configuration, wanted: ConfiguredSource, makeDefault: Option<bool>,
                        facts: Facts): Option<AdditionRequest> {
    match facts.canonical(wanted)
    case None => None
    case Some(s) =>
      if !s.enabled || HasAlias(c.sources, s.alias) then None
      else if exists x :: x in c.sources && SameOrigin(x, s, facts) then None
      else if s.kind != RegistryGit && !facts.directAllowed then None
      else if IsGit(s) && !facts.parsedOrigin(s.location) then None
      else
        var chosen := match makeDefault
          case Some(b) => b
          case None => s.kind == RegistryGit && !(exists x :: x in c.sources && x.kind == RegistryGit);
        if chosen && s.kind != RegistryGit then None
        else
          var desired := c.(sources := Insert(c.sources, s),
                            defaultRegistry := if chosen then Some(s.alias) else c.defaultRegistry);
          var request := AdditionRequest(c, desired, s, chosen);
          if facts.policyAllows(desired) && RequestHolds(request, facts) then Some(request) else None
  }

  datatype RemovalRequest = RemovalRequest(before: Configuration, after: Configuration, clearedDefault: bool)

  function PlanRemoval(c: Configuration, alias: string, facts: Facts): Option<RemovalRequest> {
    if !HasAlias(c.sources, alias) || alias in facts.required then None
    else
      var cleared := c.defaultRegistry == Some(alias);
      var desired := c.(sources := WithoutAlias(c.sources, alias),
                        defaultRegistry := if cleared then None else c.defaultRegistry);
      if facts.policyAllows(desired) then Some(RemovalRequest(c, desired, cleared)) else None
  }

  lemma {:induction false} InsertMembers(ss: seq<ConfiguredSource>, s: ConfiguredSource)
    ensures forall x :: x in Insert(ss, s) <==> x == s || x in ss
  {
    if ss != [] {
      InsertMembers(ss[1..], s);
    }
  }

  lemma OrderedTail(ss: seq<ConfiguredSource>)
    requires Ordered(ss) && ss != []
    ensures Ordered(ss[1..])
    ensures forall x :: x in ss[1..] ==> Before(ss[0].alias, x.alias)
  {
  }

  /** Adding keeps the sources ordered. */
  lemma {:induction false} InsertOrdered(ss: seq<ConfiguredSource>, s: ConfiguredSource)
    requires Ordered(ss) && !HasAlias(ss, s.alias)
    ensures Ordered(Insert(ss, s))
  {
    if ss != [] {
      OrderedTail(ss);
      BeforeTrichotomy(s.alias, ss[0].alias);
      assert ss[0].alias != s.alias;
      var r := Insert(ss, s);
      if Before(s.alias, ss[0].alias) {
        forall j | 0 < j < |r| ensures Before(s.alias, r[j].alias) {
          if j > 1 { BeforeTransitive(s.alias, ss[0].alias, ss[j - 1].alias); }
        }
      } else {
        assert !HasAlias(ss[1..], s.alias);
        InsertOrdered(ss[1..], s);
        InsertMembers(ss[1..], s);
        var t := Insert(ss[1..], s);
        forall j | 0 < j < |r| ensures Before(ss[0].alias, r[j].alias) {
          assert r[j] == t[j - 1] && t[j - 1] in t;
        }
        assert forall i, j :: 0 < i < j < |r| ==> r[i] == t[i - 1] && r[j] == t[j - 1];
      }
    }
  }

  lemma {:induction false} InsertThenWithout(ss: seq<ConfiguredSource>, s: ConfiguredSource)
    requires !HasAlias(ss, s.alias)
    ensures WithoutAlias(Insert(ss, s), s.alias) == ss
  {
    if ss == [] {
      assert Insert(ss, s)[1..] == [];
    } else {
      assert ss[0].alias != s.alias;
      assert !HasAlias(ss[1..], s.alias);
      if Before(s.alias, ss[0].alias) {
        assert ([s] + ss)[1..] == ss;
        WithoutAbsent(ss, s.alias);
      } else {
        InsertThenWithout(ss[1..], s);
        assert ([ss[0]] + Insert(ss[1..], s))[1..] == Insert(ss[1..], s);
      }
    }
  }

  lemma {:induction false} WithoutAbsent(ss: seq<ConfiguredSource>, alias: string)
    requires !HasAlias(ss, alias)
    ensures WithoutAlias(ss, alias) == ss
  {
    if ss != [] {
      assert ss[0].alias != alias;
      assert !HasAlias(ss[1..], alias);
      WithoutAbsent(ss[1..], alias);
    }
  }

  /** The checks of the planner leave one reason for the request itself to refuse: a local source whose location is
      configured already. */
  lemma OnlyLocalDuplicatesRefuse(c: Configuration, s: ConfiguredSource, chosen: bool, facts: Facts)
    requires Valid(c) && facts.canonical(s) == Some(s) && s.enabled && !HasAlias(c.sources, s.alias)
    requires forall x :: x in c.sources ==> !SameOrigin(x, s, facts)
    requires chosen ==> s.kind == RegistryGit
    ensures var desired := c.(sources := Insert(c.sources, s),
                              defaultRegistry := if chosen then Some(s.alias) else c.defaultRegistry);
            RequestHolds(AdditionRequest(c, desired, s, chosen), facts) <==>
            !(s.kind == SourceLocal && exists x :: x in c.sources && Duplicates(x, s))
  {
    InsertMembers(c.sources, s);
  }

  /** An addition keeps the configuration valid. */
  lemma AdditionIsValid(c: Configuration, wanted: ConfiguredSource, makeDefault: Option<bool>, facts: Facts)
    requires Valid(c) && PlanAddition(c, wanted, makeDefault, facts).Some?
    ensures Valid(PlanAddition(c, wanted, makeDefault, facts).value.after)
  {
    var r := PlanAddition(c, wanted, makeDefault, facts).value;
    InsertOrdered(c.sources, r.source);
    InsertMembers(c.sources, r.source);
    if r.after.defaultRegistry.Some? {
      if r.makeDefault {
        assert r.source in r.after.sources;
      } else {
        var i :| 0 <= i < |c.sources| && c.sources[i].alias == c.defaultRegistry.value;
        assert c.sources[i] in r.after.sources;
      }
    }
  }

  lemma PlannedShape(c: Configuration, wanted: ConfiguredSource, makeDefault: Option<bool>, facts: Facts)
    requires PlanAddition(c, wanted, makeDefault, facts).Some?
    ensures var r := PlanAddition(c, wanted, makeDefault, facts).value;
            !HasAlias(c.sources, r.source.alias) &&
            r.after == c.(sources := Insert(c.sources, r.source),
                          defaultRegistry := if r.makeDefault then Some(r.source.alias) else c.defaultRegistry)
  {
    hide Before, Insert, RequestHolds, HasAlias;
  }

  /** Removing a source that was just added gives back the configuration, except for a default registry that the
      addition displaced: that one is lost. */
  lemma AddThenRemove(c: Configuration, wanted: ConfiguredSource, makeDefault: Option<bool>, facts: Facts)
    requires Valid(c) && PlanAddition(c, wanted, makeDefault, facts).Some?
    ensures var added := PlanAddition(c, wanted, makeDefault, facts).value;
            var removal := PlanRemoval(added.after, added.source.alias, facts);
            removal.Some? ==>
              removal.value.after == c.(defaultRegistry := if added.makeDefault then None else c.defaultRegistry) &&
              (removal.value.after == c <==> !(added.makeDefault && c.defaultRegistry.Some?))
  {
    hide Before, Insert, WithoutAlias, PlanAddition, RequestHolds, Ordered;
    PlannedShape(c, wanted, makeDefault, facts);
    var added := PlanAddition(c, wanted, makeDefault, facts).value;
    InsertThenWithout(c.sources, added.source);
    assert c.defaultRegistry != Some(added.source.alias);
  }

  /** ... and the removal is planned exactly when the alias is not required and policy accepts that configuration. */
  lemma RemovalIsOffered(c: Configuration, wanted: ConfiguredSource, makeDefault: Option<bool>, facts: Facts)
    requires Valid(c) && PlanAddition(c, wanted, makeDefault, facts).Some?
    ensures var added := PlanAddition(c, wanted, makeDefault, facts).value;
            PlanRemoval(added.after, added.source.alias, facts).Some? <==>
            added.source.alias !in facts.required &&
            facts.policyAllows(c.(defaultRegistry := if added.makeDefault then None else c.defaultRegistry))
  {
    hide Before, Insert, WithoutAlias, PlanAddition, RequestHolds, Ordered;
    PlannedShape(c, wanted, makeDefault, facts);
    var added := PlanAddition(c, wanted, makeDefault, facts).value;
    InsertThenWithout(c.sources, added.source);
    InsertMembers(c.sources, added.source);
    assert added.source in added.after.sources;
    assert c.defaultRegistry != Some(added.source.alias);
  }
}
