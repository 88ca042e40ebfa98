/** When adding or removing a source is planned, and what configuration it leads to. */
module SourceChanges {
  import opened Order
  import opened Sources
  import opened Text

  lemma OneMember(a: seq<ConfiguredSource>, b: seq<ConfiguredSource>)
    requires Ordered(a) && Ordered(b) && (forall x :: x in a <==> x in b) && a != [] && b != []
    ensures a[0] == b[0]
  {
    hide Before;
    assert a[0] in b && b[0] in a;
    var i :| 0 <= i < |b| && b[i] == a[0];
    var j :| 0 <= j < |a| && a[j] == b[0];
    BeforeTrichotomy(a[0].alias, b[0].alias);
  }

  lemma TailOf(a: seq<ConfiguredSource>, x: ConfiguredSource)
    requires Ordered(a) && a != []
    ensures x in a[1..] <==> x in a && x != a[0]
  {
    hide Before;
    assert a == [a[0]] + a[1..];
    if x in a[1..] {
      var k :| 0 <= k < |a[1..]| && a[1..][k] == x;
      assert a[k + 1] == x;
      BeforeTrichotomy(a[0].alias, x.alias);
    }
  }

  /** Sources in alias order are determined by which they are. */
  lemma {:induction false} OrderedUnique(a: seq<ConfiguredSource>, b: seq<ConfiguredSource>)
    requires Ordered(a) && Ordered(b) && forall x :: x in a <==> x in b
    ensures a == b
  {
    hide Before;
    if a != [] && b != [] {
      OneMember(a, b);
      forall x ensures x in a[1..] <==> x in b[1..] {
        TailOf(a, x);
        TailOf(b, x);
      }
      OrderedUnique(a[1..], b[1..]);
      assert a == [a[0]] + a[1..] && b == [b[0]] + b[1..];
    } else {
      if a != [] { HasOne(a); }
      if b != [] { HasOne(b); }
    }
  }

  lemma HasOne(ss: seq<ConfiguredSource>)
    requires ss != []
    ensures exists x :: x in ss
  {
    assert ss[0] in ss;
  }

  // ---- operations ----

  lemma {:induction false} ReplayManageable(c: Configuration, ops: seq<Operation>)
    ensures Manageable(c, Replay(c, ops))
    decreases |ops|
  {
    if ops != [] { ReplayManageable(Perform(c, ops[0]), ops[1..]); }
  }

  /** The operations are listed if and only if some operations lead from the one configuration to the other. */
  lemma ManageableExactly(before: Configuration, after: Configuration)
    requires Ordered(before.sources)
    ensures Manageable(before, after) <==> exists ops :: Replay(before, ops) == after
  {
    hide Before, Ordered, Manageable;
    if Manageable(before, after) {
      OperationsReplay(before, after);
    }
    if ops :| Replay(before, ops) == after { ReplayManageable(before, ops); }
  }

  // ---- adding ----

  /** The configuration with one more source, in alias order, which becomes the default registry when it is to. */
  predicate IsAddition(c: Configuration, d: Configuration, s: ConfiguredSource, asDefault: bool) {
    d == c.(sources := d.sources, defaultRegistry := if asDefault then Some(s.alias) else c.defaultRegistry) &&
    Ordered(d.sources) && (forall x :: x in d.sources ==> x == s || x in c.sources) &&
    s in d.sources && forall x :: x in c.sources ==> x in d.sources
  }

  /** The new source becomes the default when that is asked for, or when nothing is said and no other is a registry. */
  predicate TakesDefault(c: Configuration, s: ConfiguredSource, makeDefault: Option<bool>) {
    match makeDefault
    case Some(b) => b
    case None => s.kind == RegistryGit && forall x :: x in c.sources ==> x.kind != RegistryGit
  }

  /** Nothing about the source itself is against it: it is enabled and in its canonical form, its alias and its origin
      are new, and it may be used directly unless it is a registry. */
  predicate Welcome(c: Configuration, s: ConfiguredSource, facts: Facts) {
    s.enabled && facts.canonical(s) == Some(s) && !HasAlias(c.sources, s.alias) &&
    (forall x :: x in c.sources ==> !SameOrigin(x, s, facts) && !Duplicates(x, s)) &&
    (s.kind == RegistryGit || facts.directAllowed) && (s.kind == SourceLocal || facts.parsedOrigin(s.location))
  }

  ghost predicate CanBeAdded(c: Configuration, s: ConfiguredSource, makeDefault: Option<bool>, facts: Facts) {
    Welcome(c, s, facts) && (TakesDefault(c, s, makeDefault) ==> s.kind == RegistryGit) &&
    exists d :: IsAddition(c, d, s, TakesDefault(c, s, makeDefault)) && facts.policyAllows(d)
  }

  lemma InsertIsAddition(c: Configuration, s: ConfiguredSource, asDefault: bool, d: Configuration)
    requires Ordered(c.sources) && !HasAlias(c.sources, s.alias)
    ensures IsAddition(c, d, s, asDefault) <==>
            d == c.(sources := Insert(c.sources, s),
                    defaultRegistry := if asDefault then Some(s.alias) else c.defaultRegistry)
  {
    hide Before, Insert, Ordered;
    InsertOrdered(c.sources, s);
    InsertMembers(c.sources, s);
    if IsAddition(c, d, s, asDefault) { OrderedUnique(d.sources, Insert(c.sources, s)); }
  }

  lemma RequestOfAddition(c: Configuration, s: ConfiguredSource, asDefault: bool, d: Configuration, facts: Facts)
    requires IsAddition(c, d, s, asDefault) && s.enabled && !HasAlias(c.sources, s.alias)
    requires asDefault ==> s.kind == RegistryGit
    ensures RequestHolds(AdditionRequest(c, d, s, asDefault), facts) <==>
            facts.canonical(s) == Some(s) && forall x :: x in c.sources ==> !Duplicates(x, s)
  {
    hide Ordered;
  }

  /** An addition is planned if and only if the source, in its canonical form, is welcome, only a registry is to
      become the default, and policy accepts the resulting configuration; and that is what is planned. */
  lemma AdditionExactly(c: Configuration, wanted: ConfiguredSource, makeDefault: Option<bool>, facts: Facts)
    requires Ordered(c.sources)
    ensures var plan := PlanAddition(c, wanted, makeDefault, facts);
            (plan.Some? <==> facts.canonical(wanted).Some? &&
                             CanBeAdded(c, facts.canonical(wanted).value, makeDefault, facts)) &&
            (plan.Some? ==>
               var r := plan.value;
               r.before == c && Some(r.source) == facts.canonical(wanted) &&
               r.makeDefault == TakesDefault(c, r.source, makeDefault) &&
               IsAddition(c, r.after, r.source, r.makeDefault) && facts.policyAllows(r.after))
  {
    hide Before, Insert, Ordered, RequestHolds, HasAlias, SameOrigin;
    var canonical := facts.canonical(wanted);
    if canonical.Some? && !HasAlias(c.sources, canonical.value.alias) {
      var s := canonical.value;
      var asDefault := TakesDefault(c, s, makeDefault);
      var desired := c.(sources := Insert(c.sources, s),
                        defaultRegistry := if asDefault then Some(s.alias) else c.defaultRegistry);
      forall d ensures IsAddition(c, d, s, asDefault) <==> d == desired { InsertIsAddition(c, s, asDefault, d); }
      if s.enabled && (asDefault ==> s.kind == RegistryGit) {
        RequestOfAddition(c, s, asDefault, desired, facts);
      }
    }
  }

  // ---- removing ----

  /** The configuration without the source of this alias; it is not the default any more. */
  predicate IsRemoval(c: Configuration, d: Configuration, alias: string) {
    d == c.(sources := d.sources,
            defaultRegistry := if c.defaultRegistry == Some(alias) then None else c.defaultRegistry) &&
    Ordered(d.sources) && (forall x :: x in d.sources ==> x.alias != alias && x in c.sources) &&
    forall x :: x in c.sources && x.alias != alias ==> x in d.sources
  }

  lemma {:induction false} WithoutMembers(ss: seq<ConfiguredSource>, alias: string)
    ensures forall x :: x in WithoutAlias(ss, alias) <==> x in ss && x.alias != alias
  {
    if ss != [] {
      WithoutMembers(ss[1..], alias);
      assert ss == [ss[0]] + ss[1..];
    }
  }

  lemma {:induction false} WithoutOrdered(ss: seq<ConfiguredSource>, alias: string)
    requires Ordered(ss)
    ensures Ordered(WithoutAlias(ss, alias))
  {
    hide Before;
    if ss != [] {
      OrderedTail(ss);
      WithoutOrdered(ss[1..], alias);
      WithoutMembers(ss[1..], alias);
      var r := WithoutAlias(ss[1..], alias);
      forall j | 0 <= j < |r| ensures Before(ss[0].alias, r[j].alias) { assert r[j] in r; }
    }
  }

  /** A removal is planned if and only if the alias is configured, not required, and policy accepts what is left; and
      what is left is what is planned. */
  lemma RemovalExactly(c: Configuration, alias: string, facts: Facts)
    requires Ordered(c.sources)
    ensures var plan := PlanRemoval(c, alias, facts);
            (plan.Some? <==> HasAlias(c.sources, alias) && alias !in facts.required &&
                             exists d :: IsRemoval(c, d, alias) && facts.policyAllows(d)) &&
            (plan.Some? ==>
               plan.value.before == c && IsRemoval(c, plan.value.after, alias) &&
                 facts.policyAllows(plan.value.after) &&
               plan.value.clearedDefault == (c.defaultRegistry == Some(alias)))
  {
    hide Before, WithoutAlias, Ordered, HasAlias;
    WithoutMembers(c.sources, alias);
    WithoutOrdered(c.sources, alias);
    var desired := c.(sources := WithoutAlias(c.sources, alias),
                      defaultRegistry := if c.defaultRegistry == Some(alias) then None else c.defaultRegistry);
    forall d ensures IsRemoval(c, d, alias) <==> d == desired {
      if IsRemoval(c, d, alias) { OrderedUnique(d.sources, desired.sources); }
    }
  }
}
