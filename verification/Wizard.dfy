/** The wizard session: stages recomputed from the choices, confirmations, and when a session may be finalized. */
module Wizard {
  import opened Text

  datatype Stage =
    | Onboarding | RoleStage | MaintainerAction | Profiles | ActionStage | Scope | Source | Mode | Artifacts
    | NativeDetails | Review

  datatype Role = User | Maintainer

  datatype BasketItem = BasketItem(kind: string, key: string, caption: string, description: string)

  datatype Position = Position(stage: Stage, cursor: int, scroll: int)

  datatype Notice = Notice(stage: Stage, value: string, reason: string)

  /** A chosen set of sources; the wizard only stores it. */
  datatype SourceSelection = SourceSelection(aliases: seq<string>, defaultRegistry: Option<string>)

  datatype Session = Session(
    current: Stage,
    visited: seq<Stage>,
    confirmed: seq<Stage>,
    role: Option<Role>,
    maintainerAction: Option<string>,
    profiles: seq<string>,
    action: Option<string>,
    scope: string,
    installMode: string,
    sourceSelection: Option<SourceSelection>,
    maintainerCheckout: bool,
    basket: seq<BasketItem>,
    positions: seq<Position>,
    notices: seq<Notice>,
    revision: nat)

  const INITIAL := Session(Onboarding, [], [], None, None, [], None, "project", "copy", None, false, [], [], [], 0)

  // ---- stages ----

  function UserStages(s: Session, prefix: seq<Stage>): seq<Stage> {
    var stages := prefix + [Profiles, ActionStage];
    if s.action.None? then stages
    else if s.action.value == "install" then stages + [Scope, Mode, Artifacts, Review]
    else if s.action.value == "update" || s.action.value == "uninstall" then stages + [Scope, Artifacts, Review]
    else if s.action.value == "status" then stages + [Scope, Review]
    else stages + [Scope]
  }

  predicate ReadOnlyAction(a: string) {
    a in ["health", "validate", "audit", "diff", "lock", "build"]
  }

  predicate NativeAction(a: string) {
    a in ["init", "scaffold", "collection", "promote-native", "refresh-native", "vendor", "revendor"]
  }

  function StagesFor(s: Session): seq<Stage> {
    var common := [Onboarding, RoleStage];
    match s.role
    case None => common
    case Some(User) => UserStages(s, common + [Source])
    case Some(Maintainer) =>
      var maintainer := common + (if s.maintainerCheckout then [] else [Source]) + [MaintainerAction];
      match s.maintainerAction
      case None => maintainer
      case Some(a) =>
        if ReadOnlyAction(a) then maintainer + [Review]
        else if NativeAction(a) then maintainer + [NativeDetails, Review]
        else if a == "user" then UserStages(s, maintainer)
        else maintainer
  }

  predicate Ready(s: Session, stage: Stage) {
    match stage
    case RoleStage => s.role.Some?
    case MaintainerAction => s.maintainerAction.Some?
    case Source => s.sourceSelection.Some?
    case Profiles => s.profiles != []
    case ActionStage => s.action.Some?
    case Artifacts => s.basket != []
    case _ => true
  }

  function AppendOnce(stages: seq<Stage>, stage: Stage): seq<Stage> {
    if stage in stages then stages else stages + [stage]
  }

  /** The first position of a stage. */
  function IndexOf(stages: seq<Stage>, stage: Stage): (i: nat)
    requires stage in stages
    ensures i < |stages| && stages[i] == stage && stage !in stages[..i]
  {
    if stages[0] == stage then 0 else 1 + IndexOf(stages[1..], stage)
  }

  function Without(confirmed: seq<Stage>, affected: seq<Stage>): (r: seq<Stage>)
    ensures forall t :: t in r <==> t in confirmed && t !in affected
  {
    if confirmed == [] then []
    else (if confirmed[0] in affected then [] else [confirmed[0]]) + Without(confirmed[1..], affected)
  }

  function UnconfirmFrom(confirmed: seq<Stage>, stages: seq<Stage>, stage: Stage): seq<Stage> {
    if stage !in stages then confirmed else Without(confirmed, stages[IndexOf(stages, stage)..])
  }

  // ---- events ----

  /** A value handed to `Select`: how it prints, and what it is. */
  datatype Element = Element(shown: string, item: Option<BasketItem>)

  datatype Content = Word | Many(elements: seq<Element>) | Sources(selection: SourceSelection) | Opaque

  datatype Value = Value(shown: string, content: Content)

  function Shown(es: seq<Element>): (r: seq<string>)
    ensures |r| == |es|
  {
    if es == [] then [] else [es[0].shown] + Shown(es[1..])
  }

  predicate AllItems(es: seq<Element>) {
    forall i :: 0 <= i < |es| ==> es[i].item.Some?
  }

  function Items(es: seq<Element>): (r: seq<BasketItem>)
    requires AllItems(es)
    ensures |r| == |es|
  {
    if es == [] then [] else [es[0].item.value] + Items(es[1..])
  }

  /** The session with one choice made; unchanged when the value does not fit the stage. */
  function Choose(s: Session, stage: Stage, v: Value): Session {
    match stage
    case RoleStage =>
      if v.content == Word && v.shown == "user" then s.(role := Some(User), maintainerCheckout := false)
      else if v.content == Word && v.shown == "maintainer" then
        s.(role := Some(Maintainer), maintainerCheckout := false)
      else s
    case MaintainerAction => s.(maintainerAction := Some(v.shown))
    case Profiles => if v.content.Many? then s.(profiles := Shown(v.content.elements)) else s
    case ActionStage => s.(action := Some(v.shown))
    case Scope => s.(scope := v.shown)
    case Mode => s.(installMode := v.shown)
    case Artifacts =>
      if v.content.Many? && AllItems(v.content.elements) then s.(basket := Items(v.content.elements)) else s
    case Source => if v.content.Sources? then s.(sourceSelection := Some(v.content.selection)) else s
    case _ => s
  }

  function Select(s: Session, stage: Stage, v: Value): Session {
    var changed := Choose(s, stage, v);
    if changed == s then s
    else
      var stages := StagesFor(changed);
      changed.(current := if changed.current in stages then changed.current else stage,
               confirmed := UnconfirmFrom(changed.confirmed, stages, stage),
               notices := [],
               revision := changed.revision + 1)
  }

  function UseCurrentCheckout(s: Session): Session {
    if s.role != Some(Maintainer) || s.maintainerCheckout then s
    else
      var changed := s.(maintainerCheckout := true, sourceSelection := None);
      var stages := StagesFor(changed);
      changed.(current := if changed.current in stages then changed.current else MaintainerAction,
               confirmed := UnconfirmFrom(changed.confirmed, stages, MaintainerAction),
               notices := [],
               revision := changed.revision + 1)
  }

  function Advance(s: Session): Session {
    var stages := StagesFor(s);
    if s.current !in stages || !Ready(s, s.current) then s
    else
      var i := IndexOf(stages, s.current);
      var confirmed := s.(visited := AppendOnce(s.visited, s.current), confirmed := AppendOnce(s.confirmed, s.current));
      if i + 1 >= |stages| then confirmed else confirmed.(current := stages[i + 1])
  }

  function Back(s: Session): Session {
    var stages := StagesFor(s);
    if s.current !in stages then s.(current := if stages != [] then stages[|stages| - 1] else Onboarding)
    else
      var i := IndexOf(stages, s.current);
      if i == 0 then s
      else
        var target := stages[i - 1];
        s.(current := target, visited := AppendOnce(s.visited, s.current),
           confirmed := UnconfirmFrom(s.confirmed, stages, target), revision := s.revision + 1)
  }

  function PositionsElsewhere(ps: seq<Position>, stage: Stage): seq<Position> {
    if ps == [] then []
    else (if ps[0].stage != stage then [ps[0]] else []) + PositionsElsewhere(ps[1..], stage)
  }

  function Max(a: int, b: int): int { if a > b then a else b }

  function Min(a: int, b: int): int { if a < b then a else b }

  function RememberPosition(s: Session, stage: Stage, cursor: int, scroll: int): Session {
    s.(positions := PositionsElsewhere(s.positions, stage) + [Position(stage, Max(cursor, 0), Max(scroll, 0))])
  }

  // ---- reconciling the basket ----

  predicate Available(availability: map<string, string>, item: BasketItem) {
    item.key in availability && availability[item.key] == ""
  }

  function Retained(basket: seq<BasketItem>, availability: map<string, string>): seq<BasketItem> {
    if basket == [] then []
    else
      var rest := Retained(basket[..|basket| - 1], availability);
      var item := basket[|basket| - 1];
      if Available(availability, item) then rest + [item] else rest
  }

  function Reason(availability: map<string, string>, item: BasketItem): string {
    if item.key in availability && availability[item.key] != "" then availability[item.key]
    else "no longer available for the selected choices"
  }

  function Removed(basket: seq<BasketItem>, availability: map<string, string>): seq<Notice> {
    if basket == [] then []
    else
      var rest := Removed(basket[..|basket| - 1], availability);
      var item := basket[|basket| - 1];
      if Available(availability, item) then rest else rest + [Notice(Artifacts, item.key, Reason(availability, item))]
  }

  function Clamped(ps: seq<Position>, last: int): (r: seq<Position>)
    ensures |r| == |ps|
  {
    if ps == [] then []
    else
      [if ps[0].stage == Artifacts
       then Position(ps[0].stage, Min(ps[0].cursor, last), Min(ps[0].scroll, last)) else ps[0]] + Clamped(ps[1..], last)
  }

  function Reconciled(s: Session, availability: map<string, string>): Session {
    var basket := Retained(s.basket, availability);
    var notices := Removed(s.basket, availability);
    var positions := Clamped(s.positions, Max(|availability| - 1, 0));
    if basket == s.basket && notices == s.notices && positions == s.positions then s
    else
      s.(basket := basket, notices := notices, positions := positions,
         confirmed := UnconfirmFrom(s.confirmed, StagesFor(s), Artifacts), revision := s.revision + 1)
  }

  /** Keeps the available items in order and explains every removed one. */
  method ReconcileBasket(s: Session, availability: map<string, string>) returns (r: Session)
    ensures r == Reconciled(s, availability)
  {
    hide StagesFor, UnconfirmFrom, Clamped, Reason, Available;
    var retained: seq<BasketItem> := [];
    var removed: seq<Notice> := [];
    for i := 0 to |s.basket|
      invariant retained == Retained(s.basket[..i], availability)
      invariant removed == Removed(s.basket[..i], availability)
    {
      var item := s.basket[i];
      assert s.basket[..i + 1][..i] == s.basket[..i];
      if Available(availability, item) {
        retained := retained + [item];
      } else {
        removed := removed + [Notice(Artifacts, item.key, Reason(availability, item))];
      }
    }
    assert s.basket[..|s.basket|] == s.basket;
    var positions := Clamped(s.positions, Max(|availability| - 1, 0));
    if retained == s.basket && removed == s.notices && positions == s.positions {
      return s;
    }
    r := s.(basket := retained, notices := removed, positions := positions,
            confirmed := UnconfirmFrom(s.confirmed, StagesFor(s), Artifacts), revision := s.revision + 1);
  }

  /** The basket keeps exactly its available items, in order and with their number; every other item is explained
      by one notice with a reason; and reconciling again keeps them all. */
  lemma {:induction false} ReconcileAccounts(basket: seq<BasketItem>, availability: map<string, string>)
    ensures var kept, gone := Retained(basket, availability), Removed(basket, availability);
            |kept| + |gone| == |basket| &&
            (forall item :: item in kept <==> item in basket && Available(availability, item)) &&
            (forall n :: n in gone ==> n.stage == Artifacts && n.reason != "") &&
            (forall item :: item in basket && !Available(availability, item) ==>
               Notice(Artifacts, item.key, Reason(availability, item)) in gone) &&
            Retained(kept, availability) == kept && Removed(kept, availability) == []
    decreases |basket|
  {
    if basket != [] {
      var n := |basket| - 1;
      var item := basket[n];
      ReconcileAccounts(basket[..n], availability);
      assert basket == basket[..n] + [item];
      var rest := Retained(basket[..n], availability);
      if Available(availability, item) {
        assert (rest + [item])[..|rest|] == rest;
      }
    }
  }

  predicate CanFinalize(s: Session, revision: Option<nat>) {
    (revision.Some? ==> revision.value == s.revision) &&
    var stages := StagesFor(s);
    s.current == Review && stages != [] && stages[|stages| - 1] == Review &&
    forall t :: t in stages && t != Review ==> t in s.confirmed
  }

  // ---- runs ----

  datatype Event =
    | SelectEvent(stage: Stage, value: Value)
    | CheckoutEvent
    | AdvanceEvent
    | BackEvent
    | RememberEvent(stage: Stage, cursor: int, scroll: int)
    | ReconcileEvent(availability: map<string, string>)

  function Apply(s: Session, e: Event): Session {
    match e
    case SelectEvent(stage, v) => Select(s, stage, v)
    case CheckoutEvent => UseCurrentCheckout(s)
    case AdvanceEvent => Advance(s)
    case BackEvent => Back(s)
    case RememberEvent(stage, cursor, scroll) => RememberPosition(s, stage, cursor, scroll)
    case ReconcileEvent(availability) => Reconciled(s, availability)
  }

  function Run(s: Session, events: seq<Event>): Session {
    if events == [] then s else Apply(Run(s, events[..|events| - 1]), events[|events| - 1])
  }

  // ---- what confirmation means ----

  /** Every confirmed stage of the current list is ready. */
  predicate Sound(s: Session) {
    forall t :: t in StagesFor(s) && t in s.confirmed ==> Ready(s, t)
  }

  // ---- the stage list, by conditions and by order ----

  predicate UserPath(s: Session) {
    s.role == Some(User) || (s.role == Some(Maintainer) && s.maintainerAction == Some("user"))
  }

  predicate ActionIn(s: Session, actions: seq<string>) {
    s.action.Some? && s.action.value in actions
  }

  /** When a stage is part of the journey. */
  predicate Listed(s: Session, t: Stage) {
    match t
    case Onboarding => true
    case RoleStage => true
    case Source => s.role == Some(User) || (s.role == Some(Maintainer) && !s.maintainerCheckout)
    case MaintainerAction => s.role == Some(Maintainer)
    case Profiles => UserPath(s)
    case ActionStage => UserPath(s)
    case Scope => UserPath(s) && s.action.Some?
    case Mode => UserPath(s) && ActionIn(s, ["install"])
    case Artifacts => UserPath(s) && ActionIn(s, ["install", "update", "uninstall"])
    case NativeDetails => s.role == Some(Maintainer) && s.maintainerAction.Some? &&
      NativeAction(s.maintainerAction.value)
    case Review =>
      (UserPath(s) && ActionIn(s, ["install", "update", "uninstall", "status"])) ||
      (s.role == Some(Maintainer) && s.maintainerAction.Some? &&
       (ReadOnlyAction(s.maintainerAction.value) || NativeAction(s.maintainerAction.value)))
  }

  function Rank(t: Stage): nat {
    match t
    case Onboarding => 0
    case RoleStage => 1
    case Source => 2
    case MaintainerAction => 3
    case Profiles => 4
    case ActionStage => 5
    case Scope => 6
    case Mode => 7
    case Artifacts => 8
    case NativeDetails => 9
    case Review => 10
  }

  predicate Ascending(stages: seq<Stage>) {
    forall i, j :: 0 <= i < j < |stages| ==> Rank(stages[i]) < Rank(stages[j])
  }

  lemma UserIsNeither()
    ensures !ReadOnlyAction("user") && !NativeAction("user")
    ensures forall a :: ReadOnlyAction(a) ==> !NativeAction(a)
  {
  }

  predicate Exactly(s: Session, stages: seq<Stage>) {
    Ascending(stages) && forall t :: t in stages <==> Listed(s, t)
  }

  lemma UserStagesAreListed(s: Session, prefix: seq<Stage>)
    requires UserPath(s) && Ascending(prefix)
    requires forall i :: 0 <= i < |prefix| ==> Rank(prefix[i]) < Rank(Profiles)
    requires forall t :: Rank(t) < Rank(Profiles) ==> (t in prefix <==> Listed(s, t))
    ensures Exactly(s, UserStages(s, prefix))
  {
    hide ReadOnlyAction, NativeAction;
    UserIsNeither();
    var stages := UserStages(s, prefix);
    var tail := stages[|prefix|..];
    assert stages == prefix + tail;
    TailListed(s, prefix, tail);
    forall t ensures t in stages <==> Listed(s, t) {
      assert t in stages <==> t in prefix || t in tail;
    }
  }

  lemma TailListed(s: Session, prefix: seq<Stage>, tail: seq<Stage>)
    requires UserPath(s) && UserStages(s, prefix) == prefix + tail
    ensures Ascending(tail) && forall t :: t in tail <==> Rank(t) >= Rank(Profiles) && Listed(s, t)
  {
    hide ReadOnlyAction, NativeAction;
    UserIsNeither();
    assert tail == (prefix + tail)[|prefix|..];
    var head := [Profiles, ActionStage];
    if s.action.None? { assert tail == head; }
    else if s.action.value == "install" { assert tail == head + [Scope, Mode, Artifacts, Review]; }
    else if s.action.value == "update" || s.action.value == "uninstall" {
      assert tail == head + [Scope, Artifacts, Review];
    }
    else if s.action.value == "status" { assert tail == head + [Scope, Review]; }
    else { assert tail == head + [Scope]; }
  }

  lemma OtherMaintainerStages(s: Session, m: seq<Stage>)
    requires s.role == Some(Maintainer) && s.maintainerAction != Some("user")
    requires m == if s.maintainerCheckout then [Onboarding, RoleStage, MaintainerAction]
                  else [Onboarding, RoleStage, Source, MaintainerAction]
    ensures match s.maintainerAction
            case None => Exactly(s, m)
            case Some(a) => Exactly(s, if ReadOnlyAction(a) then m + [Review]
                                       else if NativeAction(a) then m + [NativeDetails, Review] else m)
  {
    hide ReadOnlyAction, NativeAction;
    UserIsNeither();
    assert !UserPath(s);
    hide UserPath, ActionIn;
  }

  lemma UserMaintainerStages(s: Session, m: seq<Stage>)
    requires s.role == Some(Maintainer) && s.maintainerAction == Some("user")
    requires m == if s.maintainerCheckout then [Onboarding, RoleStage, MaintainerAction]
                  else [Onboarding, RoleStage, Source, MaintainerAction]
    ensures Exactly(s, UserStages(s, m))
  {
    hide ReadOnlyAction, NativeAction, UserStages;
    UserIsNeither();
    UserStagesAreListed(s, m);
  }

  /** The list holds exactly the stages that apply, always in the same order. */
  lemma StagesAreListed(s: Session)
    ensures Ascending(StagesFor(s))
    ensures forall t :: t in StagesFor(s) <==> Listed(s, t)
  {
    hide ReadOnlyAction, NativeAction, UserStages;
    UserIsNeither();
    match s.role
    case None =>
    case Some(User) =>
      assert [Onboarding, RoleStage] + [Source] == [Onboarding, RoleStage, Source];
      UserStagesAreListed(s, [Onboarding, RoleStage, Source]);
    case Some(Maintainer) =>
      hide Listed, Rank, Ascending;
      var m := if s.maintainerCheckout then [Onboarding, RoleStage, MaintainerAction]
               else [Onboarding, RoleStage, Source, MaintainerAction];
      assert m == [Onboarding, RoleStage] + (if s.maintainerCheckout then [] else [Source]) + [MaintainerAction];
      if s.maintainerAction == Some("user") { UserMaintainerStages(s, m); } else { OtherMaintainerStages(s, m); }
  }

  /** Unconfirming from a stage keeps, of the listed stages, exactly the confirmed ones before it. */
  lemma UnconfirmKeepsBefore(s: Session, confirmed: seq<Stage>, stage: Stage, t: Stage)
    requires Listed(s, stage) && Listed(s, t)
    ensures t in UnconfirmFrom(confirmed, StagesFor(s), stage) <==> t in confirmed && Rank(t) < Rank(stage)
  {
    hide StagesFor;
    StagesAreListed(s);
    var stages := StagesFor(s);
    var i, j := IndexOf(stages, stage), IndexOf(stages, t);
    assert t in stages[i..] <==> i <= j by {
      if i <= j { assert stages[i..][j - i] == t; }
      if t in stages[i..] {
        var k :| 0 <= k < |stages[i..]| && stages[i..][k] == t;
        assert stages[i + k] == t;
      }
    }
  }

  lemma UnconfirmShrinks(confirmed: seq<Stage>, stages: seq<Stage>, stage: Stage, t: Stage)
    ensures t in UnconfirmFrom(confirmed, stages, stage) ==> t in confirmed
  {
  }

  /** A choice at a stage brings in and takes out only later stages, none at all when the stage is not listed,
      and does not change whether an earlier stage is ready. */
  lemma BeforeChoice(s: Session, stage: Stage, v: Value, t: Stage)
    requires Listed(Choose(s, stage, v), stage) ==> Rank(t) < Rank(stage)
    ensures Listed(Choose(s, stage, v), t) <==> Listed(s, t)
    ensures Listed(s, t) ==> (Ready(s, t) <==> Ready(Choose(s, stage, v), t))
  {
  }

  lemma SelectSound(s: Session, stage: Stage, v: Value)
    requires Sound(s)
    ensures Sound(Select(s, stage, v))
  {
    hide StagesFor, Choose, UnconfirmFrom;
    var c := Choose(s, stage, v);
    var r := Select(s, stage, v);
    if c != s {
      SameStages(c, r);
      StagesAreListed(c);
      StagesAreListed(s);
      forall t | t in StagesFor(r) && t in r.confirmed
        ensures Ready(r, t)
      {
        UnconfirmShrinks(c.confirmed, StagesFor(c), stage, t);
        if Listed(c, stage) { UnconfirmKeepsBefore(c, c.confirmed, stage, t); }
        BeforeChoice(s, stage, v, t);
        ChoiceKeepsConfirmed(s, stage, v);
        assert Ready(c, t) == Ready(r, t);
      }
    }
  }

  lemma ChoiceKeepsConfirmed(s: Session, stage: Stage, v: Value)
    ensures Choose(s, stage, v).confirmed == s.confirmed && Choose(s, stage, v).current == s.current
    ensures Choose(s, stage, v).revision == s.revision
  {
  }

  /** The stage list depends only on the choices. */
  lemma SameStages(a: Session, b: Session)
    requires a.role == b.role && a.maintainerAction == b.maintainerAction && a.action == b.action
    requires a.maintainerCheckout == b.maintainerCheckout
    ensures StagesFor(a) == StagesFor(b)
  {
  }

  lemma CheckoutSound(s: Session)
    requires Sound(s)
    ensures Sound(UseCurrentCheckout(s))
  {
    hide StagesFor, UnconfirmFrom;
    var r := UseCurrentCheckout(s);
    if r != s {
      var c := s.(maintainerCheckout := true, sourceSelection := None);
      SameStages(c, r);
      StagesAreListed(c);
      StagesAreListed(s);
      forall t | t in StagesFor(r) && t in r.confirmed
        ensures Ready(r, t)
      {
        UnconfirmKeepsBefore(c, c.confirmed, MaintainerAction, t);
        assert t in StagesFor(s) && Ready(s, t);
      }
    }
  }

  lemma BackSound(s: Session)
    requires Sound(s)
    ensures Sound(Back(s))
  {
    hide StagesFor, UnconfirmFrom;
    SameStages(s, Back(s));
    forall t | t in StagesFor(s) && t in Back(s).confirmed ensures Ready(Back(s), t) {
      if s.current in StagesFor(s) && IndexOf(StagesFor(s), s.current) > 0 {
        UnconfirmShrinks(s.confirmed, StagesFor(s), StagesFor(s)[IndexOf(StagesFor(s), s.current) - 1], t);
      }
      assert Ready(s, t);
    }
  }

  lemma ReconcileSound(s: Session, availability: map<string, string>)
    requires Sound(s)
    ensures Sound(Reconciled(s, availability))
  {
    hide StagesFor, UnconfirmFrom, Retained, Removed, Clamped;
    var r := Reconciled(s, availability);
    SameStages(s, r);
    StagesAreListed(s);
    forall t | t in StagesFor(s) && t in r.confirmed ensures Ready(r, t) {
      if r != s {
        UnconfirmShrinks(s.confirmed, StagesFor(s), Artifacts, t);
        if Listed(s, Artifacts) { UnconfirmKeepsBefore(s, s.confirmed, Artifacts, t); }
      }
      assert Ready(s, t);
    }
  }

  /** Every event keeps every confirmed stage of the list ready. */
  lemma EventSound(s: Session, e: Event)
    requires Sound(s)
    ensures Sound(Apply(s, e))
  {
    hide StagesFor, UnconfirmFrom, Select, UseCurrentCheckout, Back, Reconciled;
    match e
    case SelectEvent(stage, v) => SelectSound(s, stage, v);
    case CheckoutEvent => CheckoutSound(s);
    case AdvanceEvent => SameStages(s, Advance(s));
    case BackEvent => BackSound(s);
    case RememberEvent(stage, cursor, scroll) => SameStages(s, Apply(s, e));
    case ReconcileEvent(availability) => ReconcileSound(s, availability);
  }

  lemma {:induction false} RunSound(s: Session, events: seq<Event>)
    requires Sound(s)
    ensures Sound(Run(s, events))
    decreases |events|
  {
    hide Sound, Apply;
    if events != [] {
      RunSound(s, events[..|events| - 1]);
      EventSound(Run(s, events[..|events| - 1]), events[|events| - 1]);
    }
  }

  /** After any sequence of events a session that may be finalized has every choice its journey asks for: a role,
      a source selection where sources are chosen, and profiles, an action and a non-empty basket on the way to
      an install, update or uninstall. */
  lemma FinalizeIsSafe(events: seq<Event>)
    ensures var s := Run(INITIAL, events);
            CanFinalize(s, None) ==>
              s.role.Some? && Listed(s, Review) &&
              (Listed(s, Source) ==> s.sourceSelection.Some?) &&
              (Listed(s, MaintainerAction) ==> s.maintainerAction.Some?) &&
              (UserPath(s) ==> s.profiles != [] && s.action.Some?) &&
              (UserPath(s) && s.action.value in ["install", "update", "uninstall"] ==> s.basket != [])
  {
    hide Run, StagesFor;
    assert Sound(INITIAL);
    RunSound(INITIAL, events);
    var s := Run(INITIAL, events);
    StagesAreListed(s);
    if CanFinalize(s, None) {
      assert forall t :: Listed(s, t) && t != Review ==> Ready(s, t);
      assert Listed(s, RoleStage) && Ready(s, RoleStage);
      assert Listed(s, Source) ==> Ready(s, Source);
      assert Listed(s, MaintainerAction) ==> Ready(s, MaintainerAction);
      assert UserPath(s) ==>
        Listed(s, Profiles) && Ready(s, Profiles) && Listed(s, ActionStage) && Ready(s, ActionStage);
      assert Listed(s, Artifacts) ==> Ready(s, Artifacts);
      assert StagesFor(s)[|StagesFor(s)| - 1] in StagesFor(s);
    }
  }

  // ---- sessions driven stage by stage ----

  predicate IsLast(s: Session, stage: Stage) {
    forall t :: Listed(s, t) ==> Rank(t) <= Rank(stage)
  }

  /** The confirmed stages of the list are exactly those before the current one, and the current one itself at most
      once it was confirmed at the end of the list. */
  predicate Shaped(s: Session) {
    Listed(s, s.current) &&
    (forall t :: Listed(s, t) && t != s.current ==> (t in s.confirmed <==> Rank(t) < Rank(s.current))) &&
    (s.current in s.confirmed ==> IsLast(s, s.current))
  }

  /** Choices are made at the current stage, and the two events that reach back come before their stage is passed. */
  predicate InStep(s: Session, e: Event) {
    match e
    case SelectEvent(stage, _) => stage == s.current
    case CheckoutEvent => Rank(s.current) <= Rank(MaintainerAction)
    case ReconcileEvent(_) => !Listed(s, Artifacts) || Rank(s.current) <= Rank(Artifacts)
    case _ => true
  }

  lemma RanksDiffer(a: Stage, b: Stage)
    requires a != b
    ensures Rank(a) != Rank(b)
  {
  }

  lemma SameListed(a: Session, b: Session)
    requires a.role == b.role && a.maintainerAction == b.maintainerAction && a.action == b.action
    requires a.maintainerCheckout == b.maintainerCheckout
    ensures forall t :: Listed(a, t) <==> Listed(b, t)
  {
  }

  lemma SelectShaped(s: Session, v: Value)
    requires Shaped(s)
    ensures Shaped(Select(s, s.current, v))
  {
    hide StagesFor, Choose, UnconfirmFrom, Listed, Rank;
    var c := Choose(s, s.current, v);
    var r := Select(s, s.current, v);
    if c != s {
      SameStages(c, r);
      SameListed(c, r);
      StagesAreListed(c);
      ChoiceKeepsConfirmed(s, s.current, v);
      ChoiceListsItself(s, v);
      forall t | Listed(r, t)
        ensures t in r.confirmed <==> Rank(t) < Rank(r.current)
      {
        UnconfirmKeepsBefore(c, c.confirmed, s.current, t);
        if t != s.current { RanksDiffer(t, s.current); }
        if Rank(t) < Rank(s.current) { BeforeChoice(s, s.current, v, t); }
      }
    }
  }

  lemma ChoiceListsItself(s: Session, v: Value)
    requires Listed(s, s.current) && Choose(s, s.current, v) != s
    ensures Listed(Choose(s, s.current, v), s.current)
  {
  }

  lemma CheckoutShaped(s: Session)
    requires Shaped(s) && Rank(s.current) <= Rank(MaintainerAction)
    ensures Shaped(UseCurrentCheckout(s))
  {
    hide StagesFor, UnconfirmFrom;
    var r := UseCurrentCheckout(s);
    if r != s {
      var c := s.(maintainerCheckout := true, sourceSelection := None);
      SameStages(c, r);
      StagesAreListed(c);
      forall t | Listed(r, t)
        ensures t in r.confirmed <==> Rank(t) < Rank(r.current)
      {
        UnconfirmKeepsBefore(c, c.confirmed, MaintainerAction, t);
        if t != s.current { RanksDiffer(t, s.current); }
        assert Listed(s, t);
        assert Rank(s.current) < Rank(MaintainerAction) ==> !IsLast(s, s.current) by {
          assert Listed(s, MaintainerAction);
        }
      }
    }
  }

  lemma NextStage(s: Session, i: nat)
    requires i + 1 < |StagesFor(s)|
    ensures Listed(s, StagesFor(s)[i]) && Listed(s, StagesFor(s)[i + 1])
    ensures Rank(StagesFor(s)[i]) < Rank(StagesFor(s)[i + 1])
    ensures forall t :: Listed(s, t) ==> Rank(t) <= Rank(StagesFor(s)[i]) || Rank(StagesFor(s)[i + 1]) <= Rank(t)
  {
    hide StagesFor, Listed, Rank;
    StagesAreListed(s);
    var stages := StagesFor(s);
    forall t | Listed(s, t)
      ensures Rank(t) <= Rank(stages[i]) || Rank(stages[i + 1]) <= Rank(t)
    {
      var j :| 0 <= j < |stages| && stages[j] == t;
      assert j <= i || i + 1 <= j;
    }
  }

  lemma LastStage(s: Session, i: nat)
    requires i + 1 == |StagesFor(s)|
    ensures IsLast(s, StagesFor(s)[i])
  {
    hide StagesFor, Listed, Rank;
    StagesAreListed(s);
    var stages := StagesFor(s);
    forall t | Listed(s, t)
      ensures Rank(t) <= Rank(stages[i])
    {
      var j :| 0 <= j < |stages| && stages[j] == t;
      assert j <= i;
    }
  }

  lemma AdvanceShaped(s: Session)
    requires Shaped(s)
    ensures Shaped(Advance(s))
  {
    hide StagesFor, Listed, Rank, Ready;
    StagesAreListed(s);
    var r := Advance(s);
    SameListed(s, r);
    if Ready(s, s.current) {
      var i := IndexOf(StagesFor(s), s.current);
      if i + 1 < |StagesFor(s)| {
        NextStage(s, i);
        assert !IsLast(s, s.current);
        forall t | Listed(s, t) && t != r.current
          ensures t in r.confirmed <==> Rank(t) < Rank(r.current)
        {
          RanksDiffer(t, r.current);
          if t != s.current { RanksDiffer(t, s.current); }
        }
        assert r.current !in r.confirmed;
      } else {
        LastStage(s, i);
        assert forall t :: t in r.confirmed <==> t in s.confirmed || t == s.current;
      }
    }
  }

  lemma BackShaped(s: Session)
    requires Shaped(s)
    ensures Shaped(Back(s))
  {
    hide StagesFor, UnconfirmFrom, Listed, Rank;
    StagesAreListed(s);
    var r := Back(s);
    SameListed(s, r);
    var i := IndexOf(StagesFor(s), s.current);
    if i > 0 {
      NextStage(s, i - 1);
      forall t | Listed(s, t)
        ensures t in r.confirmed <==> Rank(t) < Rank(r.current)
      {
        UnconfirmKeepsBefore(s, s.confirmed, r.current, t);
        if t != s.current { RanksDiffer(t, s.current); }
      }
    }
  }

  lemma UnconfirmAbsent(confirmed: seq<Stage>, stages: seq<Stage>, stage: Stage)
    requires stage !in stages
    ensures UnconfirmFrom(confirmed, stages, stage) == confirmed
  {
  }

  lemma ReconcileShaped(s: Session, availability: map<string, string>)
    requires Shaped(s) && (!Listed(s, Artifacts) || Rank(s.current) <= Rank(Artifacts))
    ensures Shaped(Reconciled(s, availability))
  {
    hide StagesFor, UnconfirmFrom, Listed, Rank, Retained, Removed, Clamped;
    StagesAreListed(s);
    var r := Reconciled(s, availability);
    SameListed(s, r);
    if r != s && !Listed(s, Artifacts) {
      UnconfirmAbsent(s.confirmed, StagesFor(s), Artifacts);
    } else if r != s {
      forall t | Listed(s, t)
        ensures t in r.confirmed <==> t in s.confirmed && Rank(t) < Rank(Artifacts)
      {
        UnconfirmKeepsBefore(s, s.confirmed, Artifacts, t);
      }
      assert s.current in r.confirmed ==> s.current in s.confirmed;
      assert IsLast(s, s.current) ==> IsLast(r, s.current);
      assert forall t :: Listed(s, t) && Rank(t) < Rank(s.current) ==> Rank(t) < Rank(Artifacts);
    }
  }

  /** Driven in step, a session keeps its shape. */
  lemma EventShaped(s: Session, e: Event)
    requires Shaped(s) && InStep(s, e)
    ensures Shaped(Apply(s, e))
  {
    hide StagesFor, UnconfirmFrom, Listed, Rank, Select, UseCurrentCheckout, Advance, Back, Reconciled;
    match e
    case SelectEvent(stage, v) => SelectShaped(s, v);
    case CheckoutEvent => CheckoutShaped(s);
    case AdvanceEvent => AdvanceShaped(s);
    case BackEvent => BackShaped(s);
    case RememberEvent(stage, cursor, scroll) => SameListed(s, Apply(s, e));
    case ReconcileEvent(availability) => ReconcileShaped(s, availability);
  }

  predicate AllInStep(events: seq<Event>) {
    forall n :: 0 <= n < |events| ==> InStep(Run(INITIAL, events[..n]), events[n])
  }

  lemma {:induction false} RunShaped(events: seq<Event>)
    requires AllInStep(events)
    ensures Shaped(Run(INITIAL, events))
    decreases |events|
  {
    hide Shaped, InStep, Apply;
    if events == [] {
      InitialShaped();
    } else {
      var n := |events| - 1;
      assert forall m :: 0 <= m < n ==> events[..n][..m] == events[..m];
      RunShaped(events[..n]);
      EventShaped(Run(INITIAL, events[..n]), events[n]);
    }
  }

  lemma InitialShaped()
    ensures Shaped(INITIAL)
  {
  }

  /** Driven in step, a session may be finalized exactly when it stands on the review of its journey. */
  lemma InStepFinalize(events: seq<Event>)
    requires AllInStep(events)
    ensures var s := Run(INITIAL, events);
            CanFinalize(s, None) <==> s.current == Review
  {
    hide Run, StagesFor, Listed, AllInStep;
    RunShaped(events);
    var s := Run(INITIAL, events);
    StagesAreListed(s);
    if s.current == Review {
      var stages := StagesFor(s);
      var i := IndexOf(stages, Review);
      ReviewIsLast(s, i);
      forall t | t in stages && t != Review ensures t in s.confirmed {
        assert Listed(s, t) && Rank(t) < Rank(Review);
      }
    }
  }

  lemma ReviewIsLast(s: Session, i: nat)
    requires i < |StagesFor(s)| && StagesFor(s)[i] == Review
    ensures i == |StagesFor(s)| - 1
  {
    hide StagesFor;
    StagesAreListed(s);
    var stages := StagesFor(s);
    var n := |stages| - 1;
    assert i < n ==> Rank(stages[i]) < Rank(stages[n]);
    assert Rank(stages[n]) <= 10;
  }

  /** Out of step: when the basket changes on a journey with artifacts, the session cannot be finalized as it is. */
  lemma ChangedBasketBlocks(s: Session, availability: map<string, string>, revision: Option<nat>)
    requires Listed(s, Artifacts) && Reconciled(s, availability) != s
    ensures !CanFinalize(Reconciled(s, availability), revision)
  {
    hide StagesFor, UnconfirmFrom, Retained, Removed, Clamped;
    StagesAreListed(s);
    var r := Reconciled(s, availability);
    SameStages(s, r);
    UnconfirmKeepsBefore(s, s.confirmed, Artifacts, Artifacts);
  }

  // ---- revisions ----

  predicate SameChoices(a: Session, b: Session) {
    a.role == b.role && a.maintainerAction == b.maintainerAction && a.profiles == b.profiles && a.action == b.action &&
    a.scope == b.scope && a.installMode == b.installMode && a.sourceSelection == b.sourceSelection &&
    a.maintainerCheckout == b.maintainerCheckout && a.basket == b.basket
  }

  lemma RevisionMoves(s: Session, e: Event)
    ensures Apply(s, e).revision >= s.revision
    ensures Apply(s, e).revision == s.revision ==> SameChoices(s, Apply(s, e))
  {
    hide StagesFor, UnconfirmFrom, Retained, Removed, Clamped;
    if e.SelectEvent? {
      ChoiceKeepsConfirmed(s, e.stage, e.value);
    }
  }

  lemma {:induction false} LaterRevision(s: Session, events: seq<Event>, more: seq<Event>)
    ensures var a, b := Run(s, events), Run(s, events + more);
            b.revision >= a.revision && (b.revision == a.revision ==> SameChoices(a, b))
    decreases |more|
  {
    hide Apply;
    if more == [] {
      assert events + more == events;
    } else {
      var n := |more| - 1;
      LaterRevision(s, events, more[..n]);
      assert (events + more)[..|events| + n] == events + more[..n];
      RevisionMoves(Run(s, events + more[..n]), more[n]);
    }
  }

  /** Finalizing under the revision that was reviewed finalizes the choices that were reviewed. */
  lemma FinalizedIsReviewed(events: seq<Event>, more: seq<Event>)
    requires CanFinalize(Run(INITIAL, events + more), Some(Run(INITIAL, events).revision))
    ensures SameChoices(Run(INITIAL, events), Run(INITIAL, events + more))
  {
    LaterRevision(INITIAL, events, more);
  }
}
