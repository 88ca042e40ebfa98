/** Where the events of the wizard lead: what each one changes, and that every kind of journey can be finished. */
module WizardMoves {
  import opened Text
  import opened Wizard

  // ---- moving between stages ----

  /** The next listed stage in the order of the ranks. */
  predicate IsNext(s: Session, a: Stage, b: Stage) {
    Listed(s, b) && Rank(a) < Rank(b) && forall t :: Listed(s, t) ==> Rank(t) <= Rank(a) || Rank(b) <= Rank(t)
  }

  /** Nothing but the place in the journey differs. */
  predicate OnlyMoved(s: Session, r: Session) {
    r == s.(current := r.current, visited := r.visited, confirmed := r.confirmed, revision := r.revision)
  }

  predicate AddedOnce(was: seq<Stage>, now: seq<Stage>, t: Stage) {
    now == if t in was then was else was + [t]
  }

  /** Advancing leaves a stage that is listed and ready: it is confirmed and visited, and the next listed stage is the
      current one, or the stage stays current when it is the last. Any other stage is not left. */
  lemma AdvanceMoves(s: Session)
    ensures var r := Advance(s);
            if !Listed(s, s.current) || !Ready(s, s.current) then r == s
            else
              OnlyMoved(s, r) && r.revision == s.revision &&
              AddedOnce(s.confirmed, r.confirmed, s.current) && AddedOnce(s.visited, r.visited, s.current) &&
              (if IsLast(s, s.current) then r.current == s.current else IsNext(s, s.current, r.current))
  {
    hide StagesFor, Listed, Rank, Ready;
    StagesAreListed(s);
    if s.current in StagesFor(s) && Ready(s, s.current) {
      var i := IndexOf(StagesFor(s), s.current);
      if i + 1 < |StagesFor(s)| {
        NextStage(s, i);
        assert !IsLast(s, s.current);
      } else {
        LastStage(s, i);
      }
    }
  }

  /** Going back leads to the listed stage before the current one, unconfirms it and every listed stage behind it, and
      counts as a revision; at the first stage it does nothing, and a stage that is not listed any more is left for the
      last listed one. */
  lemma BackMoves(s: Session)
    ensures var r := Back(s);
            if !Listed(s, s.current) then r == s.(current := r.current) && Listed(s, r.current) && IsLast(s, r.current)
            else if s.current == Onboarding then r == s
            else
              OnlyMoved(s, r) && r.revision == s.revision + 1 && Listed(s, r.current) &&
                IsNext(s, r.current, s.current) &&
              AddedOnce(s.visited, r.visited, s.current) &&
              (forall t :: Listed(s, t) ==> (t in r.confirmed <==> t in s.confirmed && Rank(t) < Rank(r.current))) &&
              (forall t :: t in r.confirmed ==> t in s.confirmed)
  {
    hide StagesFor, UnconfirmFrom;
    StagesAreListed(s);
    var stages := StagesFor(s);
    FirstIsOnboarding(s);
    if s.current !in stages {
      LastStage(s, |stages| - 1);
    } else if s.current != Onboarding {
      var i := IndexOf(stages, s.current);
      NextStage(s, i - 1);
      var r := Back(s);
      forall t | Listed(s, t) ensures t in r.confirmed <==> t in s.confirmed && Rank(t) < Rank(r.current) {
        UnconfirmKeepsBefore(s, s.confirmed, r.current, t);
      }
      forall t ensures t in r.confirmed ==> t in s.confirmed { UnconfirmShrinks(s.confirmed, stages, r.current, t); }
    }
  }

  lemma FirstIsOnboarding(s: Session)
    ensures 0 < |StagesFor(s)| && StagesFor(s)[0] == Onboarding
    ensures forall i :: 0 < i < |StagesFor(s)| ==> StagesFor(s)[i] != Onboarding
  {
    hide StagesFor;
    StagesAreListed(s);
    var stages := StagesFor(s);
    assert Onboarding in stages;
    var i :| 0 <= i < |stages| && stages[i] == Onboarding;
    assert i > 0 ==> Rank(stages[0]) < Rank(stages[i]);
    assert forall j :: 0 < j < |stages| ==> Rank(stages[0]) < Rank(stages[j]);
  }

  // ---- choices ----

  /** The value is of the kind that the stage takes. */
  predicate Fits(stage: Stage, v: Value) {
    match stage
    case RoleStage => v.content == Word && (v.shown == "user" || v.shown == "maintainer")
    case MaintainerAction => true
    case ActionStage => true
    case Scope => true
    case Mode => true
    case Profiles => v.content.Many?
    case Artifacts =>
      v.content.Many? && forall i :: 0 <= i < |v.content.elements| ==> v.content.elements[i].item.Some?
    case Source => v.content.Sources?
    case _ => false
  }

  /** The choice of the stage is this value. */
  predicate Holds(s: Session, stage: Stage, v: Value)
    requires Fits(stage, v)
  {
    match stage
    case RoleStage => (s.role == Some(User) && v.shown == "user") ||
      (s.role == Some(Maintainer) && v.shown == "maintainer")
    case MaintainerAction => s.maintainerAction == Some(v.shown)
    case ActionStage => s.action == Some(v.shown)
    case Scope => s.scope == v.shown
    case Mode => s.installMode == v.shown
    case Profiles =>
      |s.profiles| == |v.content.elements| &&
      forall i :: 0 <= i < |s.profiles| ==> s.profiles[i] == v.content.elements[i].shown
    case Artifacts =>
      |s.basket| == |v.content.elements| &&
      forall i :: 0 <= i < |s.basket| ==> Some(s.basket[i]) == v.content.elements[i].item
    case Source => s.sourceSelection == Some(v.content.selection)
    case _ => false
  }

  /** The choice of this stage is the same in both sessions. */
  predicate SameChoice(a: Session, b: Session, stage: Stage) {
    match stage
    case RoleStage => a.role == b.role
    case MaintainerAction => a.maintainerAction == b.maintainerAction
    case ActionStage => a.action == b.action
    case Scope => a.scope == b.scope
    case Mode => a.installMode == b.installMode
    case Profiles => a.profiles == b.profiles
    case Artifacts => a.basket == b.basket
    case Source => a.sourceSelection == b.sourceSelection
    case _ => true
  }

  lemma {:induction false} ShownAt(es: seq<Element>, i: nat)
    requires i < |es|
    ensures Shown(es)[i] == es[i].shown
  {
    if i > 0 { ShownAt(es[1..], i - 1); }
  }

  lemma {:induction false} ItemsAt(es: seq<Element>, i: nat)
    requires AllItems(es) && i < |es|
    ensures Some(Items(es)[i]) == es[i].item
  {
    if i > 0 { ItemsAt(es[1..], i - 1); }
  }

  /** A choice is stored where its stage keeps it, and nowhere else; only a new role also gives up the checkout. A value
      that does not fit changes nothing. */
  lemma ChoiceIsStored(s: Session, stage: Stage, v: Value)
    ensures var c := Choose(s, stage, v);
            if !Fits(stage, v) then c == s
            else
              Holds(c, stage, v) && (forall u :: u != stage ==> SameChoice(s, c, u)) &&
              c.maintainerCheckout == (stage != RoleStage && s.maintainerCheckout) &&
              c.positions == s.positions && c.notices == s.notices && c.visited == s.visited
  {
    if stage == Profiles && v.content.Many? {
      forall i | 0 <= i < |v.content.elements|
        ensures Shown(v.content.elements)[i] == v.content.elements[i].shown
      {
        ShownAt(v.content.elements, i);
      }
    }
    if stage == Artifacts && v.content.Many? && AllItems(v.content.elements) {
      forall i | 0 <= i < |v.content.elements|
        ensures Some(Items(v.content.elements)[i]) == v.content.elements[i].item
      {
        ItemsAt(v.content.elements, i);
      }
    }
  }

  /** Selecting what is chosen already changes nothing; any other choice is stored, unconfirms its stage and every later
      listed one, drops the notices and counts as a revision, and the session stays where it is as long as that stage is
      listed. */
  lemma SelectMoves(s: Session, stage: Stage, v: Value)
    ensures var c, r := Choose(s, stage, v), Select(s, stage, v);
            if c == s then r == s
            else
              r == c.(current := r.current, confirmed := r.confirmed, notices := [], revision := s.revision + 1) &&
              r.current == (if Listed(c, s.current) then s.current else stage) &&
              (Listed(c, stage) ==>
                 forall t :: Listed(c, t) ==> (t in r.confirmed <==> t in s.confirmed && Rank(t) < Rank(stage)))
  {
    hide StagesFor, Choose, UnconfirmFrom, Listed, Rank;
    var c := Choose(s, stage, v);
    ChoiceKeepsConfirmed(s, stage, v);
    StagesAreListed(c);
    if c != s && Listed(c, stage) {
      forall t | Listed(c, t)
        ensures t in Select(s, stage, v).confirmed <==> t in s.confirmed && Rank(t) < Rank(stage)
      {
        UnconfirmKeepsBefore(c, c.confirmed, stage, t);
      }
    }
  }

  /** Taking the current checkout is for a maintainer who has not done so: the source selection is dropped with its
      stage, and the maintainer's action and everything behind it is unconfirmed. */
  lemma CheckoutMoves(s: Session)
    ensures var r := UseCurrentCheckout(s);
            if s.role != Some(Maintainer) || s.maintainerCheckout then r == s
            else
              r == s.(maintainerCheckout := true, sourceSelection := None, current := r.current,
                      confirmed := r.confirmed, notices := [], revision := s.revision + 1) &&
              !Listed(r, Source) &&
              r.current == (if Listed(s, s.current) && s.current != Source then s.current else MaintainerAction) &&
              (forall t :: Listed(r, t) ==> (t in r.confirmed <==>
                                             t in s.confirmed && Rank(t) < Rank(MaintainerAction)))
  {
    hide StagesFor, UnconfirmFrom;
    if s.role == Some(Maintainer) && !s.maintainerCheckout {
      var c := s.(maintainerCheckout := true, sourceSelection := None);
      var r := UseCurrentCheckout(s);
      StagesAreListed(c);
      forall t | Listed(r, t)
        ensures t in r.confirmed <==> t in s.confirmed && Rank(t) < Rank(MaintainerAction)
      {
        UnconfirmKeepsBefore(c, c.confirmed, MaintainerAction, t);
      }
    }
  }

  lemma {:induction false} ElsewhereMembers(ps: seq<Position>, stage: Stage)
    ensures forall p :: p in PositionsElsewhere(ps, stage) <==> p in ps && p.stage != stage
  {
    if ps != [] { ElsewhereMembers(ps[1..], stage); }
  }

  /** One position is remembered per stage, never a negative one, and those of other stages are kept. */
  lemma RememberMoves(s: Session, stage: Stage, cursor: int, scroll: int)
    ensures var r := RememberPosition(s, stage, cursor, scroll);
            r == s.(positions := r.positions) &&
            forall p :: p in r.positions <==>
              (p.stage != stage && p in s.positions) ||
              p == Position(stage, if cursor < 0 then 0 else cursor, if scroll < 0 then 0 else scroll)
  {
    ElsewhereMembers(s.positions, stage);
  }

  lemma {:induction false} ClampedAt(ps: seq<Position>, last: int, i: nat)
    requires i < |ps|
    ensures Clamped(ps, last)[i] ==
            if ps[i].stage != Artifacts then ps[i]
            else Position(Artifacts, if ps[i].cursor < last then ps[i].cursor else last,
                          if ps[i].scroll < last then ps[i].scroll else last)
  {
    if i > 0 { ClampedAt(ps[1..], last, i - 1); }
  }

  /** Reconciling changes the basket, the notices and the positions on the artifact stage, which are kept within the
      items that there are; and when anything changes, the artifact stage and those behind it are unconfirmed. */
  lemma ReconcileMoves(s: Session, availability: map<string, string>)
    ensures var r, last := Reconciled(s, availability), if |availability| > 0 then |availability| - 1 else 0;
            r.basket == Retained(s.basket, availability) && r.notices == Removed(s.basket, availability) &&
            |r.positions| == |s.positions| &&
            (forall i :: 0 <= i < |s.positions| ==>
               var p := s.positions[i];
               r.positions[i] ==
                 if p.stage != Artifacts then p
                 else Position(Artifacts, if p.cursor < last then p.cursor else last,
                               if p.scroll < last then p.scroll else last)) &&
            r == s.(basket := r.basket, notices := r.notices, positions := r.positions, confirmed := r.confirmed,
                    revision := r.revision) &&
            (r != s ==> r.revision == s.revision + 1) &&
            (r != s && Listed(s, Artifacts) ==>
               forall t :: Listed(s, t) ==> (t in r.confirmed <==> t in s.confirmed && Rank(t) < Rank(Artifacts)))
  {
    hide StagesFor, UnconfirmFrom, Retained, Removed, Clamped, Listed;
    var last := if |availability| > 0 then |availability| - 1 else 0;
    forall i | 0 <= i < |s.positions|
      ensures Clamped(s.positions, last)[i] ==
              if s.positions[i].stage != Artifacts then s.positions[i]
              else Position(Artifacts, if s.positions[i].cursor < last then s.positions[i].cursor else last,
                            if s.positions[i].scroll < last then s.positions[i].scroll else last)
    {
      ClampedAt(s.positions, last, i);
    }
    if Reconciled(s, availability) != s && Listed(s, Artifacts) {
      forall t | Listed(s, t)
        ensures t in Reconciled(s, availability).confirmed <==> t in s.confirmed && Rank(t) < Rank(Artifacts)
      {
        UnconfirmKeepsBefore(s, s.confirmed, Artifacts, t);
      }
    }
  }

  /** Every item that goes is explained by the reason given for it, or by a general one when none is given. */
  lemma RemovalIsExplained(basket: seq<BasketItem>, availability: map<string, string>, item: BasketItem)
    requires item in basket && !(item.key in availability && availability[item.key] == "")
    ensures exists n :: n in Removed(basket, availability) && n.stage == Artifacts && n.value == item.key &&
                        (if item.key in availability then n.reason == availability[item.key]
                         else n.reason == "no longer available for the selected choices")
  {
    ReconcileAccounts(basket, availability);
    assert Notice(Artifacts, item.key, Reason(availability, item)) in Removed(basket, availability);
  }

  // ---- finishing a journey ----

  /** Every stage from the current one on has what it asks for, and the journey ends with a review. */
  predicate Complete(s: Session) {
    Listed(s, Review) && forall t :: Listed(s, t) && Rank(s.current) <= Rank(t) ==> Ready(s, t)
  }

  function Advances(n: nat): seq<Event> {
    seq(n, i => AdvanceEvent)
  }

  lemma AfterOne(s: Session, n: nat)
    ensures Run(s, Advances(n + 1)) == Run(Advance(s), Advances(n))
    decreases n
  {
    hide Advance;
    if n > 0 {
      AfterOne(s, n - 1);
      assert Advances(n + 1)[..n] == Advances(n);
      assert Advances(n)[..n - 1] == Advances(n - 1);
    } else {
      assert Advances(1)[..0] == Advances(0);
    }
  }

  /** A session in shape whose journey is complete reaches its end by advancing alone, with every choice as it was. */
  lemma {:induction false} AdvancingFinishes(s: Session) returns (n: nat)
    requires Shaped(s) && Complete(s)
    ensures CanFinalize(Run(s, Advances(n)), None) && SameChoices(s, Run(s, Advances(n)))
    decreases Rank(Review) - Rank(s.current)
  {
    hide StagesFor, Listed, Advance, Ready, CanFinalize;
    if s.current == Review {
      n := 0;
      ShapedFinalizes(s);
    } else {
      var r := Advance(s);
      AdvanceMoves(s);
      AdvanceShaped(s);
      SameListed(s, r);
      ReviewBehind(s);
      NextComplete(s, r);
      var m := AdvancingFinishes(r);
      n := m + 1;
      AfterOne(s, m);
    }
  }

  lemma ReviewBehind(s: Session)
    requires Listed(s, Review) && s.current != Review
    ensures Rank(s.current) < Rank(Review) && !IsLast(s, s.current)
  {
    RanksDiffer(s.current, Review);
  }

  lemma NextComplete(s: Session, r: Session)
    requires Complete(s) && OnlyMoved(s, r) && Rank(s.current) < Rank(r.current)
    ensures Complete(r)
  {
  }

  /** A session in shape may be finalized when it stands on the review. */
  lemma ShapedFinalizes(s: Session)
    requires Shaped(s) && s.current == Review
    ensures CanFinalize(s, None)
  {
    hide StagesFor, Listed;
    StagesAreListed(s);
    var stages := StagesFor(s);
    ReviewIsLast(s, IndexOf(stages, Review));
    forall t | t in stages && t != Review ensures t in s.confirmed {
      RanksDiffer(t, Review);
      assert Rank(t) <= Rank(Review) by { hide Listed; }
    }
  }

  // ---- whole journeys ----

  lemma Extended(events: seq<Event>, e: Event) returns (more: seq<Event>)
    requires AllInStep(events) && InStep(Run(INITIAL, events), e)
    ensures AllInStep(more) && Run(INITIAL, more) == Apply(Run(INITIAL, events), e)
  {
    hide InStep, Apply;
    more := events + [e];
    var n := |events|;
    assert more[..n] == events && more[n] == e;
    forall k | 0 <= k < |more| ensures InStep(Run(INITIAL, more[..k]), more[k]) {
      if k < n { assert more[..k] == events[..k] && more[k] == events[k]; }
    }
  }

  /** Making the choice of the current stage. */
  lemma Chosen(events: seq<Event>, v: Value) returns (more: seq<Event>)
    requires AllInStep(events) && Fits(Run(INITIAL, events).current, v)
    ensures var s, r := Run(INITIAL, events), Run(INITIAL, more);
            AllInStep(more) && r.current == s.current && SameChoices(r, Choose(s, s.current, v))
  {
    hide Select, Choose, Listed, Fits, Run, AllInStep;
    var s := Run(INITIAL, events);
    RunShaped(events);
    more := Extended(events, SelectEvent(s.current, v));
    SelectMoves(s, s.current, v);
    ChoiceKeepsConfirmed(s, s.current, v);
    if Choose(s, s.current, v) != s { ChoiceListsItself(s, v); }
  }

  /** Advancing from a ready stage to the next one. */
  lemma Advanced(events: seq<Event>, next: Stage) returns (more: seq<Event>)
    requires AllInStep(events)
    requires var s := Run(INITIAL, events); Ready(s, s.current) && IsNext(s, s.current, next)
    ensures var s, r := Run(INITIAL, events), Run(INITIAL, more);
            AllInStep(more) && r.current == next && SameChoices(s, r)
  {
    hide Advance, Listed, Ready, Run, AllInStep, Rank;
    var s := Run(INITIAL, events);
    RunShaped(events);
    more := Extended(events, AdvanceEvent);
    AdvanceMoves(s);
    var r := Advance(s);
    assert Rank(r.current) == Rank(next);
    if r.current != next { RanksDiffer(r.current, next); }
  }

  /** Where a journey stands and what has been chosen on it. */
  predicate Stands(events: seq<Event>, stage: Stage, role: Option<Role>, sources: Option<SourceSelection>) {
    AllInStep(events) &&
    var s := Run(INITIAL, events);
    s.current == stage && s.role == role && s.sourceSelection == sources && !s.maintainerCheckout
  }

  lemma AtRole() returns (events: seq<Event>)
    ensures Stands(events, RoleStage, None, None)
    ensures SameChoices(INITIAL, Run(INITIAL, events))
  {
    hide Run, AllInStep;
    assert AllInStep([]) && Run(INITIAL, []) == INITIAL by { Nothing(); }
    events := Advanced([], RoleStage);
  }

  lemma Nothing()
    ensures AllInStep([]) && Run(INITIAL, []) == INITIAL
  {
  }

  /** Through role and sources. */
  lemma PastSources(role: Role, selection: SourceSelection) returns (events: seq<Event>)
    ensures Stands(events, if role.User? then Profiles else MaintainerAction, Some(role), Some(selection))
    ensures Run(INITIAL, events).maintainerAction == None && Run(INITIAL, events).action == None
  {
    hide Run, AllInStep;
    events := AtRole();
    events := Chosen(events, Value(if role.User? then "user" else "maintainer", Word));
    events := Advanced(events, Source);
    events := Chosen(events, Value("", Sources(selection)));
    events := Advanced(events, if role.User? then Profiles else MaintainerAction);
  }

  /** Every user's install, update, uninstall and status can be finished, in step, with any sources, any profiles and,
      but for a status, any basket that are not empty. */
  lemma UserFinishes(selection: SourceSelection, profiles: Value, action: string, basket: Value)
      returns (events: seq<Event>)
    requires action in ["install", "update", "uninstall", "status"]
    requires Fits(Profiles, profiles) && profiles.content.elements != []
    requires Fits(Artifacts, basket) && basket.content.elements != []
    ensures AllInStep(events) && CanFinalize(Run(INITIAL, events), None)
    ensures var s := Run(INITIAL, events);
            s.role == Some(User) && s.sourceSelection == Some(selection) && s.action == Some(action) &&
            Holds(s, Profiles, profiles) && (action != "status" ==> Holds(s, Artifacts, basket))
  {
    hide Run, AllInStep;
    events := PastSources(User, selection);
    events := Chosen(events, profiles);
    ChoiceIsStored(INITIAL, Profiles, profiles);
    events := Advanced(events, ActionStage);
    events := Chosen(events, Value(action, Opaque));
    events := Advanced(events, Scope);
    if action == "install" { events := Advanced(events, Mode); }
    if action != "status" {
      events := Advanced(events, Artifacts);
      events := Chosen(events, basket);
      ChoiceIsStored(INITIAL, Artifacts, basket);
    }
    events := Advanced(events, Review);
    InStepFinalize(events);
  }

  /** ... and every maintainer's own action, with chosen sources or with the current checkout. */
  lemma MaintainerFinishes(selection: SourceSelection, checkout: bool, action: string) returns (events: seq<Event>)
    requires ReadOnlyAction(action) || NativeAction(action)
    ensures AllInStep(events) && CanFinalize(Run(INITIAL, events), None)
    ensures var s := Run(INITIAL, events);
            s.role == Some(Maintainer) && s.maintainerAction == Some(action) && s.maintainerCheckout == checkout &&
            s.sourceSelection == (if checkout then None else Some(selection))
  {
    hide Run, AllInStep;
    events := PastSources(Maintainer, selection);
    if checkout {
      var s := Run(INITIAL, events);
      CheckoutMoves(s);
      events := Extended(events, CheckoutEvent);
    }
    events := Chosen(events, Value(action, Opaque));
    UserIsNeither();
    if NativeAction(action) { events := Advanced(events, NativeDetails); }
    events := Advanced(events, Review);
    InStepFinalize(events);
  }
}
