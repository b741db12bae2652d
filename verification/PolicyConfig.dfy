/** The action registry and the policy settings the pipeline reads. */
module PolicyConfig {

  datatype Option<+T> = None | Some(value: T)

  /** TextOnly is the visual action of FACE rows; no entity resolves to it. */
  datatype Action =
    | Pass | Block | Reroute | Mask | Replace | Redact | Hash | Encrypt | ReversibleReplace
    | TextOnly

  function Strictness(a: Action): int {
    match a
    case Pass => 1
    case Block => 9
    case Reroute => 8
    case Mask => 2
    case Replace => 6
    case Redact => 7
    case Hash => 3
    case Encrypt => 4
    case ReversibleReplace => 5
    case TextOnly => 0
  }

  datatype EntityPolicy = EntityPolicy(entityType: string, action: Action, routeClass: Option<string>)

  datatype Notices = Notices(rerouted: string, masked: string, showWhenNoPii: bool)

  datatype PolicySettings = PolicySettings(
    entityPolicies: seq<EntityPolicy>,
    defaultAction: Action,
    maskOnReroute: bool,
    defaultTarget: string,
    faceAction: Action,
    faceRouteClass: Option<string>,
    notice: Notices)

  /** What loading a policy checks: unique non-FACE entity types, real actions, usable routes. */
  ghost predicate ValidPolicy(p: PolicySettings) {
    && (forall i, j :: 0 <= i < j < |p.entityPolicies| ==>
      p.entityPolicies[i].entityType != p.entityPolicies[j].entityType)
    && (forall i :: 0 <= i < |p.entityPolicies| ==>
          && p.entityPolicies[i].entityType != "FACE"
          && p.entityPolicies[i].action != TextOnly
          && p.entityPolicies[i].routeClass != Some("")
          && (p.entityPolicies[i].routeClass.Some? ==> p.entityPolicies[i].action == Reroute))
    && p.defaultAction != TextOnly
    && p.defaultTarget != ""
    && p.faceAction in {Block, TextOnly, Reroute}
    && p.faceRouteClass != Some("")
  }

  /** The first entry for an entity type; validated policies have at most one. */
  function Lookup(entries: seq<EntityPolicy>, e: string): (r: Option<EntityPolicy>)
    ensures r.Some? ==> r.value in entries && r.value.entityType == e
    ensures r.None? ==> forall i :: 0 <= i < |entries| ==> entries[i].entityType != e
  {
    if entries == [] then None
    else if entries[0].entityType == e then Some(entries[0])
    else Lookup(entries[1..], e)
  }

  /** What the policy says about an entity type, whatever the destination. */
  function Configured(p: PolicySettings, e: string): Action {
    var entry := Lookup(p.entityPolicies, e);
    if entry.Some? then entry.value.action else p.defaultAction
  }

  /** What an entity resolves to: for destinations without a local route, block in place of reroute. */
  function Effective(p: PolicySettings, e: string, rerouteAsBlock: bool): Action {
    var a := Configured(p, e);
    if rerouteAsBlock && a == Reroute then Block else a
  }

  function RouteFor(p: PolicySettings, e: string): string {
    var entry := Lookup(p.entityPolicies, e);
    if entry.Some? && entry.value.routeClass.Some? && entry.value.routeClass.value != "" then
      entry.value.routeClass.value
    else p.defaultTarget
  }

  // ---- what the policy says, without the lookups ----

  /** The actions an entity can have, from least to most strict. */
  const ORDER: seq<Action> := [Pass, Mask, Hash, Encrypt, ReversibleReplace, Replace, Redact, Reroute, Block]

  /** The first action stands before the second. */
  predicate Milder(a: Action, b: Action) {
    exists i, j :: 0 <= i < j < |ORDER| && ORDER[i] == a && ORDER[j] == b
  }

  lemma PlaceInOrder(a: Action) returns (i: nat)
    requires a != TextOnly
    ensures i < |ORDER| && ORDER[i] == a && Strictness(a) == i + 1
    ensures forall j :: 0 <= j < |ORDER| && ORDER[j] == a ==> j == i
  {
    i := match a
      case Pass => 0
      case Mask => 1
      case Hash => 2
      case Encrypt => 3
      case ReversibleReplace => 4
      case Replace => 5
      case Redact => 6
      case Reroute => 7
      case Block => 8;
  }

  /** Strictness numbers the actions in that order. */
  lemma StrictnessIsOrder(a: Action, b: Action)
    requires a != TextOnly && b != TextOnly
    ensures Strictness(a) < Strictness(b) <==> Milder(a, b)
    ensures Strictness(a) == Strictness(b) <==> a == b
  {
    var i := PlaceInOrder(a);
    var j := PlaceInOrder(b);
  }

  /** An entry of the policy gives the entity type this action, or no entry names it and this is the default. */
  ghost predicate Says(p: PolicySettings, e: string, a: Action) {
    || (exists i ::
          0 <= i < |p.entityPolicies| && p.entityPolicies[i].entityType == e && p.entityPolicies[i].action == a)
    || ((forall i :: 0 <= i < |p.entityPolicies| ==> p.entityPolicies[i].entityType != e) && a == p.defaultAction)
  }

  /** The policy's action for an entity type; where there is no local route, block in place of reroute. */
  ghost predicate Resolves(p: PolicySettings, rerouteAsBlock: bool, e: string, a: Action) {
    if rerouteAsBlock then a != Reroute && (Says(p, e, a) || (a == Block && Says(p, e, Reroute))) else Says(p, e, a)
  }

  lemma ConfiguredIsSaid(p: PolicySettings, e: string, a: Action)
    requires ValidPolicy(p)
    ensures Says(p, e, a) <==> Configured(p, e) == a
    ensures Configured(p, e) != TextOnly
  {
    var entry := Lookup(p.entityPolicies, e);
    if entry.Some? {
      var i :| 0 <= i < |p.entityPolicies| && p.entityPolicies[i] == entry.value;
    }
  }

  /** Each entity type resolves to one action, the effective one. */
  lemma EffectiveIsResolved(p: PolicySettings, rerouteAsBlock: bool, e: string, a: Action)
    requires ValidPolicy(p)
    ensures Resolves(p, rerouteAsBlock, e, a) <==> Effective(p, e, rerouteAsBlock) == a
    ensures Effective(p, e, rerouteAsBlock) != TextOnly
  {
    ConfiguredIsSaid(p, e, a);
    ConfiguredIsSaid(p, e, Reroute);
    ConfiguredIsSaid(p, e, Block);
  }

  /**
   * Where a set of rerouted entity types goes: the route of the first entry that names one of them, or
   * the default target where that entry has no route of its own or no entry names any.
   */
  ghost predicate RoutesTo(p: PolicySettings, es: set<string>, target: string) {
    || (exists i :: EntryRoutes(p, es, i, target))
    || ((forall i :: 0 <= i < |p.entityPolicies| ==> p.entityPolicies[i].entityType !in es)
      && target == p.defaultTarget)
  }

  ghost predicate EntryRoutes(p: PolicySettings, es: set<string>, i: int, target: string) {
    && 0 <= i < |p.entityPolicies| && p.entityPolicies[i].entityType in es
    && (forall j :: 0 <= j < i ==> p.entityPolicies[j].entityType !in es)
    && target == if p.entityPolicies[i].routeClass.Some? then p.entityPolicies[i].routeClass.value else p.defaultTarget
  }
}
