/** The planner's own loops: validation, coalescing, overlap resolution, summaries and rewriting in place. */
module Planner {
  import opened Ordering
  import opened Spans
  import opened PolicyConfig
  import opened Matches
  import opened Prepare
  import opened Rewrite

  datatype Failure =
    | InvalidSpan | InvalidScore | BlockedPlan | ReversalConflict
    | InvalidRequest | TooManySegments | TooManyCharacters | PlaceholderCollision
    | InvalidSession | SessionKindMismatch | ResultKindMismatch

  datatype Outcome<+T> = Ok(value: T) | Raised(error: Failure)

  /** The mutable plan of one leaf; its value at any moment is `Data()`, its record of edits `Book()`. */
  class LeafPlan {
    var text: string
    var entities: set<string>
    var entityCounts: map<string, int>
    var entityActions: map<string, Action>
    var transformedCounts: map<string, int>
    var appliedActions: set<Action>
    var reversal: map<string, string>
    var blocked: bool
    var routeClass: Option<string>
    var overlapCount: nat
    var rerouteEntities: set<string>
    var matches: seq<Match>
    var effectiveMatches: seq<Match>
    var transformedValues: map<string, set<string>>

    constructor (text: string, matches: seq<Match>, effectiveMatches: seq<Match>, overlapCount: nat)
      ensures Data() == EmptyPlan(text, matches, effectiveMatches, overlapCount)
    {
      this.text, this.matches, this.effectiveMatches, this.overlapCount :=
        text, matches, effectiveMatches, overlapCount;
      entities, entityCounts, entityActions := {}, map[], map[];
      transformedCounts, appliedActions, reversal := map[], {}, map[];
      blocked, routeClass, rerouteEntities, transformedValues := false, None, {}, map[];
    }

    ghost function Data(): PlanData
      reads this
    {
      PlanData(text, entities, entityCounts, entityActions, transformedCounts, appliedActions, reversal, blocked,
               routeClass, overlapCount, rerouteEntities, matches, effectiveMatches, transformedValues)
    }

    ghost function Book(): Ledger
      reads this
    {
      Ledger(reversal, appliedActions, transformedCounts, transformedValues)
    }
  }

  /** The value of a LeafPlan at one moment. */
  datatype PlanData = PlanData(
    text: string, entities: set<string>, entityCounts: map<string, int>, entityActions: map<string, Action>,
    transformedCounts: map<string, int>, appliedActions: set<Action>, reversal: map<string, string>, blocked: bool,
    routeClass: Option<string>, overlapCount: nat, rerouteEntities: set<string>, matches: seq<Match>,
    effectiveMatches: seq<Match>, transformedValues: map<string, set<string>>)

  ghost function EmptyPlan(text: string, matches: seq<Match>, effective: seq<Match>, overlaps: nat): PlanData {
    PlanData(text, {}, map[], map[], map[], {}, map[], false, None, overlaps, {}, matches, effective, map[])
  }

  /** What is wrong with the first invalid match, its span before its score. */
  function SpanFailure(ms: seq<Match>, length: int): Option<Failure> {
    if ms == [] then None
    else if ms[0].start < 0 || ms[0].end > length || ms[0].end <= ms[0].start then Some(InvalidSpan)
    else if !(0.0 <= ms[0].score <= 1.0) then Some(InvalidScore)
    else SpanFailure(ms[1..], length)
  }

  lemma {:induction false} SpanFailures(ms: seq<Match>, length: int)
    ensures SpanFailure(ms, length).None? <==> ValidSpans(ms, length)
    ensures SpanFailure(ms, length) in {None, Some(InvalidSpan), Some(InvalidScore)}
  {
    if ms != [] {
      SpanFailures(ms[1..], length);
      forall i | 0 < i < |ms| ensures ms[i] == ms[1..][i - 1] {}
    }
  }

  predicate BadSpan(m: Match, length: int) { m.start < 0 || m.end > length || m.end <= m.start }

  predicate BadScore(m: Match) { m.score < 0.0 || m.score > 1.0 }

  /** The first match with a bad span or a bad score decides, by its span before its score. */
  lemma {:induction false} FirstFault(ms: seq<Match>, length: int, j: nat)
    requires j < |ms| && (BadSpan(ms[j], length) || BadScore(ms[j]))
    requires forall k :: 0 <= k < j ==> !BadSpan(ms[k], length) && !BadScore(ms[k])
    ensures SpanFailure(ms, length) == Some(if BadSpan(ms[j], length) then InvalidSpan else InvalidScore)
  {
    if j > 0 {
      assert !BadSpan(ms[0], length) && !BadScore(ms[0]);
      FirstFault(ms[1..], length, j - 1);
    }
  }

  lemma {:induction false} NoFault(ms: seq<Match>, length: int)
    ensures SpanFailure(ms, length).None? <==> forall j :: 0 <= j < |ms| ==> !BadSpan(ms[j], length) && !BadScore(ms[j])
  {
    if ms != [] {
      NoFault(ms[1..], length);
      forall j | 0 < j < |ms| ensures ms[j] == ms[1..][j - 1] {}
    }
  }

  // ---- what prepare and transform leave in a plan ----

  function AsMatches(ls: seq<Logical>): (r: seq<Match>)
    ensures |r| == |ls| && forall k :: 0 <= k < |ls| ==> r[k] == AsMatch(ls[k])
  {
    seq(|ls|, k requires 0 <= k < |ls| => AsMatch(ls[k]))
  }

  function Counts(ms: seq<Match>): map<string, int> {
    if ms == [] then map[] else AddOne(Counts(ms[..|ms| - 1]), ms[|ms| - 1].entity)
  }

  function ActionMap(p: PolicySettings, rab: bool, ms: seq<Match>): map<string, Action> {
    if ms == [] then map[]
    else
      var e := ms[|ms| - 1].entity;
      ActionMap(p, rab, ms[..|ms| - 1])[e := Effective(p, e, rab)]
  }

  lemma NextCount(counts: map<string, int>, ms: seq<Match>, m: Match)
    requires counts.Keys == EntitiesOf(ms) && forall e :: e in counts ==> counts[e] == CountOf(ms, MEntity, e)
    ensures forall e :: e in AddOne(counts, m.entity) ==> AddOne(counts, m.entity)[e] == CountOf(ms + [m], MEntity, e)
  {
    forall e ensures CountOf(ms + [m], MEntity, e) == CountOf(ms, MEntity, e) + (if m.entity == e then 1 else 0) {
      CountSnoc(ms, m, MEntity, e);
    }
    CountAbsent(ms, MEntity, m.entity);
    if CountOf(ms, MEntity, m.entity) > 0 {
      var i :| 0 <= i < |ms| && MEntity(ms[i]) == m.entity;
      assert ms[i].entity in EntitiesOf(ms);
    }
  }

  lemma {:induction false} ActionsMeaning(p: PolicySettings, rab: bool, ms: seq<Match>)
    ensures ActionMap(p, rab, ms).Keys == EntitiesOf(ms)
    ensures forall e :: e in ActionMap(p, rab, ms) ==> ActionMap(p, rab, ms)[e] == Effective(p, e, rab)
  {
    if ms != [] {
      var n := |ms| - 1;
      ActionsMeaning(p, rab, ms[..n]);
      EntitiesNext(ms, n);
      assert ms[..n + 1] == ms;
    }
  }

  lemma {:induction false} TallyMeaning(ms: seq<Match>)
    ensures Counts(ms).Keys == EntitiesOf(ms)
    ensures forall e :: e in Counts(ms) ==> Counts(ms)[e] == CountOf(ms, MEntity, e)
  {
    if ms != [] {
      var n := |ms| - 1;
      TallyMeaning(ms[..n]);
      EntitiesNext(ms, n);
      assert ms[..n + 1] == ms && ms[..n] + [ms[n]] == ms;
      NextCount(Counts(ms[..n]), ms[..n], ms[n]);
    }
  }

  /** The accumulated dictionaries: one key per entity, its number of matches, and its effective action. */
  lemma CountsMeaning(p: PolicySettings, rab: bool, ms: seq<Match>)
    ensures Counts(ms).Keys == ActionMap(p, rab, ms).Keys == EntitiesOf(ms)
    ensures forall e :: e in Counts(ms) ==> Counts(ms)[e] == CountOf(ms, MEntity, e)
    ensures forall e :: e in ActionMap(p, rab, ms) ==> ActionMap(p, rab, ms)[e] == Effective(p, e, rab)
  {
    TallyMeaning(ms);
    ActionsMeaning(p, rab, ms);
  }

  ghost predicate HasAction(p: PolicySettings, rab: bool, ms: seq<Match>, a: Action) {
    exists i :: 0 <= i < |ms| && Effective(p, ms[i].entity, rab) == a
  }

  ghost function Terminal(p: PolicySettings, rab: bool, ms: seq<Match>): set<Action> {
    set a | a in {Pass, Block, Reroute} && HasAction(p, rab, ms, a)
  }

  ghost function ReroutedEntities(p: PolicySettings, rab: bool, ms: seq<Match>): set<string> {
    set i | 0 <= i < |ms| && Effective(p, ms[i].entity, rab) == Reroute :: ms[i].entity
  }

  /** The route of the first rerouted region. */
  ghost function FirstRoute(p: PolicySettings, rab: bool, ms: seq<Match>): Option<string> {
    if ms == [] then None
    else
      var n := |ms| - 1;
      var before := FirstRoute(p, rab, ms[..n]);
      if before.Some? then before
      else if Effective(p, ms[n].entity, rab) == Reroute then Some(RouteFor(p, ms[n].entity))
      else None
  }

  /** The plan of a text with these detections and regions, before any rewriting. */
  ghost function Summary(
    p: PolicySettings, rab: bool, text: string, logical: seq<Match>, rs: seq<Match>, overlaps: nat): PlanData {
    PlanData(text, EntitiesOf(logical), Counts(logical), ActionMap(p, rab, logical), map[], Terminal(p, rab, rs), map[],
             HasAction(p, rab, rs, Block), FirstRoute(p, rab, rs), overlaps, ReroutedEntities(p, rab, rs), logical, rs,
             map[])
  }

  /** The whole plan `prepare` builds from detector output. */
  ghost function Prepared(p: PolicySettings, rab: bool, text: string, ms: seq<Match>): PlanData {
    Summary(p, rab, text, AsMatches(LogicalOf(ms)), EffectiveOf(p, rab, ms), OverlapCount(Groups(ms)))
  }

  /** The plan once its text is rewritten and its edits are entered. */
  ghost function Transformed(d: PlanData, newText: string, book: Ledger): PlanData {
    d.(text := newText, appliedActions := book.applied, transformedCounts := book.counts,
       transformedValues := book.values, reversal := book.reversal)
  }

  // ---- the planner ----

  lemma SelectedNext(p: PolicySettings, rab: bool, done: seq<seq<Logical>>, group: seq<Logical>)
    requires (forall k :: 0 <= k < |done| ==> done[k] != []) && group != []
    ensures SelectedAll(p, rab, done + [group]) == SelectedAll(p, rab, done) + [Selected(p, rab, group)]
    ensures OverlapCount(done + [group]) == OverlapCount(done) + Overlapped(group)
  {
    OverlapNext(done, group);
    assert (done + [group])[..|done|] == done;
  }

  lemma OverlapNext(done: seq<seq<Logical>>, group: seq<Logical>)
    ensures OverlapCount(done + [group]) == OverlapCount(done) + Overlapped(group)
  {
    assert (done + [group])[..|done|] == done;
  }

  class ActionPlanner {
    const policy: PolicySettings
    const ops: Operators

    constructor (policy: PolicySettings, ops: Operators)
      ensures this.policy == policy && this.ops == ops
    {
      this.policy, this.ops := policy, ops;
    }

    static method ValidateSpans(ms: seq<Match>, length: nat) returns (r: Outcome<()>)
      ensures r == if SpanFailure(ms, length).Some? then Raised(SpanFailure(ms, length).value) else Ok(())
      ensures r.Ok? <==> forall j :: 0 <= j < |ms| ==>
                0 <= ms[j].start < ms[j].end <= length && 0.0 <= ms[j].score <= 1.0
    {
      NoFault(ms, length);
      for i := 0 to |ms|
        invariant SpanFailure(ms, length) == SpanFailure(ms[i..], length)
      {
        assert ms[i..][1..] == ms[i + 1..];
        if ms[i].start < 0 || ms[i].end > length || ms[i].end <= ms[i].start {
          return Raised(InvalidSpan);
        }
        if !(0.0 <= ms[i].score <= 1.0) {
          return Raised(InvalidScore);
        }
      }
      r := Ok(());
    }

    /** `set(matches)` visited in any order, filed per entity. */
    static method ByEntity(ms: seq<Match>) returns (byEntity: map<string, seq<Match>>)
      ensures byEntity.Keys == EntitiesOf(ms)
      ensures forall e :: e in byEntity ==> NoDup(byEntity[e]) && forall m :: m in byEntity[e] <==>
                m in ms && m.entity == e
    {
      byEntity := map[];
      var all := set i | 0 <= i < |ms| :: ms[i];
      var rest := all;
      while rest != {}
        invariant rest <= all
        invariant forall e :: e in byEntity <==> exists m :: m in all - rest && m.entity == e
        invariant forall e :: e in byEntity ==> NoDup(byEntity[e]) && forall m :: m in byEntity[e] <==>
                    m in all - rest && m.entity == e
      {
        var m :| m in rest;
        var filed := if m.entity in byEntity then byEntity[m.entity] else [];
        byEntity := byEntity[m.entity := filed + [m]];
        rest := rest - {m};
      }
    }

    static method ListOf(s: set<string>) returns (names: seq<string>)
      ensures NoDup(names) && forall e :: e in names <==> e in s
    {
      names := [];
      var rest := s;
      while rest != {}
        invariant rest <= s && NoDup(names)
        invariant forall e :: e in names <==> e in s - rest
      {
        var e :| e in rest;
        assert e !in names;
        names := names + [e];
        rest := rest - {e};
      }
    }

    /** `sorted` of a set of names. */
    static method SortNames(s: set<string>) returns (names: seq<string>)
      ensures names == SortedNames(s)
    {
      var listed := ListOf(s);
      names := Sort(listed, NameKey);
      SortedNamesUnique(s, listed);
    }

    static method CoalesceEntity(found: seq<Match>) returns (logical: seq<Logical>)
      ensures logical == CoalescedAll(Sweep(Sort(found, SpanKey), MIv))
    {
      var xs := Sort(found, SpanKey);
      var group: seq<Match>, groupEnd := [], -1;
      ghost var done: seq<seq<Match>> := [];
      logical := [];
      for i := 0 to |xs|
        invariant Grouped(xs, i, done, group, groupEnd, MIv)
        invariant logical == CoalescedAll(done)
      {
        var m := xs[i];
        GroupedNext(xs, i, done, group, groupEnd, MIv);
        if group != [] && m.start >= groupEnd {
          logical := logical + [Coalesced(group)];
          done := done + [group];
          group := [];
        }
        assert [] + [m] == [m];
        group := group + [m];
        groupEnd := Max(if |group| > 1 then groupEnd else m.end, m.end);
      }
      GroupedAll(xs, done, group, groupEnd, MIv);
      if group != [] {
        logical := logical + [Coalesced(group)];
      }
    }

    static method CoalesceSameEntity(ms: seq<Match>) returns (logical: seq<Logical>)
      ensures logical == LogicalOf(ms)
    {
      var byEntity := ByEntity(ms);
      var names := SortNames(byEntity.Keys);
      var all: seq<Logical> := [];
      for i := 0 to |names|
        invariant all == LogicalForAll(ms, names[..i])
      {
        NamesNext(ms, names, i);
        assert names[i] in byEntity;
        var found := CoalesceListed(ms, names[i], byEntity);
        all := all + found;
      }
      AllListed(ms, names);
      logical := Sort(all, LogicalKey);
    }

    static method CoalesceListed(ghost ms: seq<Match>, e: string, byEntity: map<string, seq<Match>>)
      returns (found: seq<Logical>)
      requires e in byEntity && NoDup(byEntity[e]) && forall m :: m in byEntity[e] <==> m in ms && m.entity == e
      ensures found == LogicalFor(ms, e)
    {
      EntityListing(ms, e, byEntity[e]);
      found := CoalesceEntity(byEntity[e]);
    }

    /** What the sweep has resolved: one selected owner per closed group, and how many of those span entities. */
    ghost predicate Resolved(rerouteAsBlock: bool, done: seq<seq<Logical>>, effective: seq<Match>, overlaps: nat) {
      && (forall k :: 0 <= k < |done| ==> done[k] != [])
      && effective == SelectedAll(policy, rerouteAsBlock, done) && overlaps == OverlapCount(done)
    }

    /** Resolve one group that is complete. */
    method CloseGroup(
      rerouteAsBlock: bool, ghost done: seq<seq<Logical>>, group: seq<Logical>, effective: seq<Match>, overlaps: nat)
      returns (more: seq<Match>, count: nat)
      requires Resolved(rerouteAsBlock, done, effective, overlaps) && group != []
      ensures Resolved(rerouteAsBlock, done + [group], more, count)
    {
      SelectedNext(policy, rerouteAsBlock, done, group);
      more, count := effective + [Selected(policy, rerouteAsBlock, group)], overlaps + Overlapped(group);
    }

    method ResolveGroups(logical: seq<Logical>, rerouteAsBlock: bool) returns (effective: seq<Match>, overlaps: nat)
      ensures effective == SelectedAll(policy, rerouteAsBlock, Sweep(Sort(logical, GroupKey), LIv))
      ensures overlaps == OverlapCount(Sweep(Sort(logical, GroupKey), LIv))
    {
      var xs := Sort(logical, GroupKey);
      var group: seq<Logical>, groupEnd := [], -1;
      ghost var done: seq<seq<Logical>> := [];
      effective, overlaps := [], 0;
      for i := 0 to |xs|
        invariant Grouped(xs, i, done, group, groupEnd, LIv)
        invariant Resolved(rerouteAsBlock, done, effective, overlaps)
      {
        var l := xs[i];
        GroupedNext(xs, i, done, group, groupEnd, LIv);
        ghost var closes := group != [] && l.start >= groupEnd;
        if group != [] && l.start >= groupEnd {
          effective, overlaps := CloseGroup(rerouteAsBlock, done, group, effective, overlaps);
          done, group := done + [group], [];
        }
        group := group + [l];
        groupEnd := Max(if |group| > 1 then groupEnd else l.end, l.end);
        assert closes ==> group == [l] && groupEnd == l.end;
      }
      GroupedAll(xs, done, group, groupEnd, LIv);
      if group != [] {
        effective, overlaps := CloseGroup(rerouteAsBlock, done, group, effective, overlaps);
      }
    }

    method ResolveMatches(ms: seq<Match>, length: nat, rerouteAsBlock: bool)
      returns (r: Outcome<(seq<Match>, seq<Match>, nat)>)
      ensures r.Ok? <==> ValidSpans(ms, length)
      ensures r.Raised? ==> SpanFailure(ms, length) == Some(r.error)
      ensures r.Ok? ==>
                r.value == (AsMatches(LogicalOf(ms)), EffectiveOf(policy, rerouteAsBlock, ms), OverlapCount(Groups(ms)))
    {
      SpanFailures(ms, length);
      var valid := ValidateSpans(ms, length);
      if valid.Raised? {
        return Raised(valid.error);
      }
      var logical := CoalesceSameEntity(ms);
      var effective, overlaps := ResolveGroups(logical, rerouteAsBlock);
      r := Ok((AsMatches(logical), effective, overlaps));
    }

    /** One key per detected entity, with its number of detections and the one action it resolves to. */
    method SummarizeDetections(plan: LeafPlan, ms: seq<Match>, rerouteAsBlock: bool)
      requires plan.entities == {} && plan.entityCounts == map[] && plan.entityActions == map[]
      modifies plan`entities, plan`entityCounts, plan`entityActions
      ensures plan.entities == EntitiesOf(ms) && plan.entityCounts == Counts(ms)
      ensures plan.entityActions == ActionMap(policy, rerouteAsBlock, ms)
    {
      for i := 0 to |ms|
        invariant plan.entities == EntitiesOf(ms[..i])
        invariant plan.entityCounts == Counts(ms[..i])
        invariant plan.entityActions == ActionMap(policy, rerouteAsBlock, ms[..i])
      {
        var e := ms[i].entity;
        var action := Effective(policy, e, rerouteAsBlock);
        SummaryNext(policy, rerouteAsBlock, ms, i);
        if e in plan.entityActions && plan.entityActions[e] != action {
          assert false;  // one entity type cannot resolve to two actions
        }
        plan.entityActions := plan.entityActions[e := action];
        plan.entities := plan.entities + {e};
        plan.entityCounts := AddOne(plan.entityCounts, e);
      }
      assert ms[..|ms|] == ms;
    }

    /** Pass, block and reroute of the winning regions, and the route of the first rerouted one. */
    method SummarizeEffectiveActions(plan: LeafPlan, rs: seq<Match>, rerouteAsBlock: bool)
      requires plan.appliedActions == {} && !plan.blocked && plan.rerouteEntities == {} && plan.routeClass == None
      modifies plan`appliedActions, plan`blocked, plan`rerouteEntities, plan`routeClass
      ensures plan.appliedActions == Terminal(policy, rerouteAsBlock, rs)
      ensures plan.blocked <==> HasAction(policy, rerouteAsBlock, rs, Block)
      ensures plan.rerouteEntities == ReroutedEntities(policy, rerouteAsBlock, rs)
      ensures plan.routeClass == FirstRoute(policy, rerouteAsBlock, rs)
    {
      for i := 0 to |rs|
        invariant plan.appliedActions == Terminal(policy, rerouteAsBlock, rs[..i])
        invariant plan.blocked <==> HasAction(policy, rerouteAsBlock, rs[..i], Block)
        invariant plan.rerouteEntities == ReroutedEntities(policy, rerouteAsBlock, rs[..i])
        invariant plan.routeClass == FirstRoute(policy, rerouteAsBlock, rs[..i])
      {
        var e := rs[i].entity;
        var action := Effective(policy, e, rerouteAsBlock);
        SummarizedNext(policy, rerouteAsBlock, rs, i);
        if action == Pass {
          plan.appliedActions := plan.appliedActions + {Pass};
        } else if action == Block {
          plan.blocked := true;
          plan.appliedActions := plan.appliedActions + {Block};
        } else if action == Reroute {
          plan.appliedActions := plan.appliedActions + {Reroute};
          plan.rerouteEntities := plan.rerouteEntities + {e};
          if plan.routeClass.None? {
            plan.routeClass := Some(RouteFor(policy, e));
          }
        }
      }
      assert rs[..|rs|] == rs;
    }

    /** A plan of the unchanged text, determined by the set of matches. */
    method Prepare(text: string, ms: seq<Match>, rerouteAsBlock: bool) returns (r: Outcome<LeafPlan>)
      ensures r.Ok? <==> ValidSpans(ms, |text|)
      ensures r.Raised? ==> SpanFailure(ms, |text|) == Some(r.error)
      ensures r.Ok? ==> fresh(r.value) && r.value.Data() == Prepared(policy, rerouteAsBlock, text, ms)
    {
      var resolved := ResolveMatches(ms, |text|, rerouteAsBlock);
      if resolved.Raised? {
        return Raised(resolved.error);
      }
      var (logical, effective, overlaps) := resolved.value;
      var plan := Summarize(text, logical, effective, overlaps, rerouteAsBlock);
      r := Ok(plan);
    }

    method Summarize(text: string, logical: seq<Match>, effective: seq<Match>, overlaps: nat, rerouteAsBlock: bool)
      returns (plan: LeafPlan)
      ensures fresh(plan) && plan.Data() == Summary(policy, rerouteAsBlock, text, logical, effective, overlaps)
    {
      plan := new LeafPlan(text, logical, effective, overlaps);
      SummarizeDetections(plan, logical, rerouteAsBlock);
      assert plan.Data() == EmptyPlan(text, logical, effective, overlaps).(
        entities := EntitiesOf(logical), entityCounts := Counts(logical),
        entityActions := ActionMap(policy, rerouteAsBlock, logical));
      SummarizeEffectiveActions(plan, effective, rerouteAsBlock);
    }

    /** Replace one region of the current text; None when its action leaves the text alone. */
    method RewriteOne(m: Match, nonce: string, leaf: nat, text: string, cache: map<(string, string, string), string>)
      returns (next: string, edit: Edit, placeholders: map<(string, string, string), string>)
      requires 0 <= m.start <= m.end <= |text|
      requires CacheSound(Context(policy, ops, nonce, leaf), cache)
      ensures edit == EditOf(Context(policy, ops, nonce, leaf), m, text[m.start..m.end])
      ensures next == text[..m.start] + Output(edit, text[m.start..m.end]) + text[m.end..]
      ensures CacheSound(Context(policy, ops, nonce, leaf), placeholders)
      ensures Configured(policy, m.entity) in {Pass, Block} ==> next == text && edit == Keep
      ensures Configured(policy, m.entity) == Reroute && !policy.maskOnReroute ==> next == text && edit == Keep
      ensures Configured(policy, m.entity) == Reroute && policy.maskOnReroute ==>
                next == text[..m.start] + ops.anonymize(leaf, Mask, m, text[m.start..m.end]) + text[m.end..]
      ensures Configured(policy, m.entity) == Hash ==>
                next == text[..m.start] + ops.hash(leaf, m, text[m.start..m.end]) + text[m.end..]
      ensures Configured(policy, m.entity) in {Mask, Replace, Redact} ==>
                next == text[..m.start] + ops.anonymize(leaf, Configured(policy, m.entity), m, text[m.start..m.end])
                        + text[m.end..]
      ensures Configured(policy, m.entity) == ReversibleReplace ==>
                var digest := ops.digest(nonce, m.entity, text[m.start..m.end]);
                next == text[..m.start] + Placeholder("REV", m.entity, nonce, digest) + text[m.end..]
      ensures Configured(policy, m.entity) == Encrypt ==>
                var cipher := ops.anonymize(leaf, Encrypt, m, text[m.start..m.end]);
                var digest := ops.digest(nonce, m.entity, cipher);
                next == text[..m.start] + Placeholder("ENCRYPTED", m.entity, nonce, digest) + text[m.end..]
    {
      next, edit, placeholders := text, Keep, cache;
      var action := Configured(policy, m.entity);
      if action in {Pass, Block} || (action == Reroute && !policy.maskOnReroute) {
        assert text == text[..m.start] + text[m.start..m.end] + text[m.end..];
        return;
      }
      var effective := if action == Reroute then Mask else action;
      var original := text[m.start..m.end];
      if effective == ReversibleReplace {
        var replacement;
        replacement, placeholders := CachedPlaceholder("REV", m.entity, original, nonce, leaf, placeholders);
        next, edit := text[..m.start] + replacement + text[m.end..], Reversible(replacement);
      } else if effective == Hash {
        var replacement := ops.hash(leaf, m, original);
        next, edit := text[..m.start] + replacement + text[m.end..], Irreversible(replacement);
      } else if effective == Encrypt {
        var encrypted := ApplyOperator(ops, leaf, text, m, Encrypt);
        var cipher := encrypted[m.start..|encrypted| - (|text| - m.end)];
        assert cipher == ops.anonymize(leaf, Encrypt, m, original);
        var replacement;
        replacement, placeholders := CachedPlaceholder("ENCRYPTED", m.entity, cipher, nonce, leaf, placeholders);
        next, edit := text[..m.start] + replacement + text[m.end..], Reversible(replacement);
      } else {
        next := ApplyOperator(ops, leaf, text, m, effective);
        edit := Irreversible(ops.anonymize(leaf, effective, m, original));
      }
    }

    method CachedPlaceholder(
      prefix: string, entity: string, value: string, nonce: string, leaf: nat,
      cache: map<(string, string, string), string>)
      returns (placeholder: string, placeholders: map<(string, string, string), string>)
      requires CacheSound(Context(policy, ops, nonce, leaf), cache)
      ensures placeholder == Placeholder(prefix, entity, nonce, ops.digest(nonce, entity, value))
      ensures CacheSound(Context(policy, ops, nonce, leaf), placeholders)
    {
      placeholders := cache;
      var key := (prefix, entity, value);
      if key !in placeholders {
        placeholders := placeholders[key := Placeholder(prefix, entity, nonce, ops.digest(nonce, entity, value))];
      }
      placeholder := placeholders[key];
    }

    /** Record one executed edit; false when its placeholder already stands for another text. */
    method Record(plan: LeafPlan, m: Match, edit: Edit, original: string) returns (ok: bool)
      requires edit != Keep
      modifies plan`reversal, plan`appliedActions, plan`transformedCounts, plan`transformedValues
      ensures var entered := Entered(old(plan.Book()), Configured(policy, m.entity), m.entity, edit, original);
              if ok then entered == Some(plan.Book()) else entered.None?
    {
      if edit.Reversible? {
        var added := AddReversal(plan.reversal, edit.placeholder, original);
        if added.None? {
          return false;
        }
        plan.reversal := added.value;
      }
      var action := Configured(policy, m.entity);
      if action != Reroute {
        plan.appliedActions := plan.appliedActions + {action};
      }
      plan.transformedCounts := AddOne(plan.transformedCounts, m.entity);
      plan.transformedValues := AddValue(plan.transformedValues, m.entity, original);
      ok := true;
    }

    /** One region of the right-to-left loop: rewrite it and record what was done. */
    method RewriteRegion(
      text: string, m: Match, ghost done: seq<Match>, ghost limit: int, ghost base: set<Action>, result: string,
      cache: map<(string, string, string), string>, nonce: string, leaf: nat, plan: LeafPlan)
      returns (ok: bool, next: string, placeholders: map<(string, string, string), string>)
      requires RewrittenFrom(Context(policy, ops, nonce, leaf), text, limit, done, result)
      requires 0 <= m.start < m.end <= limit
      requires CacheSound(Context(policy, ops, nonce, leaf), cache)
      requires LedgerOf(Context(policy, ops, nonce, leaf), base, text, done) == Some(plan.Book())
      modifies plan`reversal, plan`appliedActions, plan`transformedCounts, plan`transformedValues
      ensures CacheSound(Context(policy, ops, nonce, leaf), placeholders)
      ensures RewrittenFrom(Context(policy, ops, nonce, leaf), text, m.start, [m] + done, next)
      ensures var book := LedgerOf(Context(policy, ops, nonce, leaf), base, text, [m] + done);
              if ok then book == Some(plan.Book()) else book.None?
    {
      ghost var c := Context(policy, ops, nonce, leaf);
      RewriteNext(c, text, m, done, limit, result);
      assert ([m] + done)[1..] == done;
      var original := result[m.start..m.end];
      var edit;
      next, edit, placeholders := RewriteOne(m, nonce, leaf, result, cache);
      ok := true;
      if edit != Keep {
        ok := Record(plan, m, edit, original);
      }
    }

    /** The spliced text, with every edit in the plan's ledger; fails exactly on an ambiguous placeholder. */
    method RewriteText(text: string, rs: seq<Match>, nonce: string, leaf: nat, plan: LeafPlan)
      returns (r: Outcome<string>)
      requires Fits(text, 0, rs)
      requires plan.transformedCounts == map[] && plan.transformedValues == map[] && plan.reversal == map[]
      modifies plan`reversal, plan`appliedActions, plan`transformedCounts, plan`transformedValues
      ensures var c := Context(policy, ops, nonce, leaf);
              var book := LedgerOf(c, old(plan.appliedActions), text, rs);
              if r.Ok? then r.value == Splice(c, text, 0, rs) && book == Some(plan.Book())
              else r.error == ReversalConflict && book.None?
    {
      var ordered := Sort(rs, EndsKey);
      FitsSorted(text, rs);
      ghost var c, base := Context(policy, ops, nonce, leaf), plan.appliedActions;
      var result := text;
      var placeholders: map<(string, string, string), string> := map[];
      ghost var limit := |text|;
      for k := |ordered| downto 0
        invariant limit == if k < |ordered| then ordered[k].start else |text|
        invariant RewrittenFrom(c, text, limit, ordered[k..], result)
        invariant CacheSound(c, placeholders)
        invariant LedgerOf(c, base, text, ordered[k..]) == Some(plan.Book())
      {
        SuffixHead(ordered, k);
        var ok;
        ok, result, placeholders :=
          RewriteRegion(text, ordered[k], ordered[k + 1..], limit, base, result, placeholders, nonce, leaf, plan);
        limit := ordered[k].start;
        if !ok {
          LedgerNone(c, base, text, ordered, k);
          return Raised(ReversalConflict);
        }
      }
      assert ordered[0..] == ordered;
      SpliceShift(c, text, 0, limit, ordered);
      r := Ok(result);
    }

    /** Apply a prepared plan that does not block. */
    method Transform(plan: LeafPlan, nonce: string, leaf: nat) returns (r: Outcome<()>)
      requires Fits(plan.text, 0, plan.effectiveMatches)
      requires plan.transformedCounts == map[] && plan.transformedValues == map[] && plan.reversal == map[]
      modifies plan
      ensures var c := Context(policy, ops, nonce, leaf);
              var d := old(plan.Data());
              var book := LedgerOf(c, d.appliedActions, d.text, d.effectiveMatches);
              && (r.Ok? <==> !d.blocked && book.Some?)
              && (r.Raised? ==> r.error == if d.blocked then BlockedPlan else ReversalConflict)
              && (r.Ok? ==> plan.Data() == Transformed(d, Splice(c, d.text, 0, d.effectiveMatches), book.value))
      ensures r.Ok? ==>
                Rewritten(
                  Context(policy, ops, nonce, leaf), old(plan.text), 0, old(plan.effectiveMatches), plan.text)
    {
      if plan.blocked {
        return Raised(BlockedPlan);
      }
      SpliceRewrites(Context(policy, ops, nonce, leaf), plan.text, 0, plan.effectiveMatches);
      var rewritten := RewriteText(plan.text, plan.effectiveMatches, nonce, leaf, plan);
      if rewritten.Raised? {
        return Raised(rewritten.error);
      }
      plan.text := rewritten.value;
      r := Ok(());
    }
  }

  // ---- one step of each loop ----

  lemma AllListed(ms: seq<Match>, names: seq<string>)
    requires names == SortedNames(EntitiesOf(ms))
    ensures Sort(LogicalForAll(ms, names[..|names|]), LogicalKey) == LogicalOf(ms)
  {
    assert names[..|names|] == names;
  }

  lemma NamesNext(ms: seq<Match>, names: seq<string>, i: nat)
    requires i < |names|
    ensures names[i] in names
    ensures LogicalForAll(ms, names[..i + 1]) == LogicalForAll(ms, names[..i]) + LogicalFor(ms, names[i])
  {
    assert names[..i + 1][..i] == names[..i];
  }

  lemma SummaryNext(p: PolicySettings, rab: bool, ms: seq<Match>, i: nat)
    requires i < |ms|
    ensures EntitiesOf(ms[..i + 1]) == EntitiesOf(ms[..i]) + {ms[i].entity}
    ensures Counts(ms[..i + 1]) == AddOne(Counts(ms[..i]), ms[i].entity)
    ensures ActionMap(p, rab, ms[..i + 1]) ==
              ActionMap(p, rab, ms[..i])[ms[i].entity := Effective(p, ms[i].entity, rab)]
    ensures ms[i].entity in ActionMap(p, rab, ms[..i]) ==>
              ActionMap(p, rab, ms[..i])[ms[i].entity] == Effective(p, ms[i].entity, rab)
  {
    EntitiesNext(ms, i);
    CountsMeaning(p, rab, ms[..i]);
    assert ms[..i + 1][..i] == ms[..i];
  }

  lemma EntitiesNext(ms: seq<Match>, i: nat)
    requires i < |ms|
    ensures EntitiesOf(ms[..i + 1]) == EntitiesOf(ms[..i]) + {ms[i].entity}
  {
    var a, b := ms[..i], ms[..i + 1];
    forall e ensures e in EntitiesOf(b) <==> e in EntitiesOf(a) || e == ms[i].entity {
      if e in EntitiesOf(a) {
        var k :| 0 <= k < |a| && a[k].entity == e;
        assert b[k].entity == e;
      }
      if e == ms[i].entity { assert b[i].entity == e; }
      if e in EntitiesOf(b) {
        var k :| 0 <= k < |b| && b[k].entity == e;
        assert k == i || a[k].entity == e;
      }
    }
  }

  lemma SummarizedNext(p: PolicySettings, rab: bool, rs: seq<Match>, i: nat)
    requires i < |rs|
    ensures var a, front, next := Effective(p, rs[i].entity, rab), rs[..i], rs[..i + 1];
            && Terminal(p, rab, next) == Terminal(p, rab, front) + (if a in {Pass, Block, Reroute} then {a} else {})
            && (HasAction(p, rab, next, Block) <==> HasAction(p, rab, front, Block) || a == Block)
            && ReroutedEntities(p, rab, next) == ReroutedEntities(p, rab, front) +
              (if a == Reroute then {rs[i].entity} else {})
            && FirstRoute(p, rab, next) ==
               (if FirstRoute(p, rab, front).Some? then FirstRoute(p, rab, front)
                else if a == Reroute then Some(RouteFor(p, rs[i].entity)) else None)
  {
    var front, next := rs[..i], rs[..i + 1];
    assert next[..i] == front && next[i] == rs[i];
    forall a
      ensures HasAction(p, rab, next, a) <==> HasAction(p, rab, front, a) || Effective(p, rs[i].entity, rab) == a
    {
      HasActionNext(p, rab, front, rs[i], a);
      assert next == front + [rs[i]];
    }
    ReroutedNext(p, rab, front, rs[i]);
    assert next == front + [rs[i]];
  }

  lemma HasActionNext(p: PolicySettings, rab: bool, front: seq<Match>, m: Match, a: Action)
    ensures HasAction(p, rab, front + [m], a) <==> HasAction(p, rab, front, a) || Effective(p, m.entity, rab) == a
  {
    var next := front + [m];
    if k :| 0 <= k < |front| && Effective(p, front[k].entity, rab) == a {
      assert Effective(p, next[k].entity, rab) == a;
    }
    if Effective(p, m.entity, rab) == a { assert Effective(p, next[|front|].entity, rab) == a; }
  }

  lemma ReroutedNext(p: PolicySettings, rab: bool, front: seq<Match>, m: Match)
    ensures ReroutedEntities(p, rab, front + [m]) == ReroutedEntities(p, rab, front) +
              (if Effective(p, m.entity, rab) == Reroute then {m.entity} else {})
  {
    var next := front + [m];
    forall e | e in ReroutedEntities(p, rab, front) ensures e in ReroutedEntities(p, rab, next) {
      var k :| 0 <= k < |front| && Effective(p, front[k].entity, rab) == Reroute && front[k].entity == e;
      assert next[k] == front[k];
    }
    if Effective(p, m.entity, rab) == Reroute { assert next[|front|] == m; }
  }

  function EndsKey(m: Match): Key { [Num(m.start as real), Num(m.end as real)] }

  /** Effective regions are already in the order the rewriting sorts them by. */
  lemma FitsSorted(text: string, rs: seq<Match>)
    requires Fits(text, 0, rs)
    ensures Sort(rs, EndsKey) == rs
  {
    forall i, j | 0 <= i < j < |rs| ensures Leq(EndsKey(rs[i]), EndsKey(rs[j])) && rs[i] != rs[j] {
      assert rs[i].start < rs[j].start;
    }
    forall x, y | x in rs && y in rs && EndsKey(x) == EndsKey(y) ensures x == y {
      assert EndsKey(x)[0].n == EndsKey(y)[0].n;
    }
    SortIdentity(rs, EndsKey);
  }

  /** The cache only ever holds the placeholder its key stands for. */
  ghost predicate CacheSound(c: Context, cache: map<(string, string, string), string>) {
    forall key :: key in cache ==> cache[key] == Placeholder(key.0, key.1, c.nonce, c.ops.digest(c.nonce, key.1, key.2))
  }

  /** Up to limit the text is original; from there on it is the splice of the regions done. */
  ghost predicate RewrittenFrom(c: Context, text: string, limit: int, done: seq<Match>, result: string) {
    Fits(text, limit, done) && result == text[..limit] + Splice(c, text, limit, done)
  }

  lemma RewriteNext(c: Context, text: string, m: Match, done: seq<Match>, limit: int, result: string)
    requires RewrittenFrom(c, text, limit, done, result) && 0 <= m.start < m.end <= limit
    ensures Fits(text, m.start, [m] + done)
    ensures m.end <= |result| && result[m.start..m.end] == Original(text, m)
    ensures RewrittenFrom(c, text, m.start, [m] + done,
              result[..m.start] + Output(EditAt(c, text, m), Original(text, m)) + result[m.end..])
  {
    assert Fits(text, m.end, done);
    SpliceShift(c, text, m.end, limit, done);
    SpliceFront(c, text, m, done);
    TextAround(text, m.start, m.end, limit, Splice(c, text, limit, done), Output(EditAt(c, text, m), Original(text, m)),
      result);
  }

  lemma SpliceFront(c: Context, text: string, m: Match, done: seq<Match>)
    requires Fits(text, m.end, done) && 0 <= m.start < m.end && Fits(text, m.start, [m] + done)
    ensures Splice(c, text, m.start, [m] + done) == Output(EditAt(c, text, m), Original(text, m)) +
              Splice(c, text, m.end, done)
  {
    assert ([m] + done)[1..] == done;
    assert text[m.start..m.start] == [];
  }

  lemma TextAround(text: string, lo: int, hi: int, limit: int, tail: string, out: string, result: string)
    requires 0 <= lo <= hi <= limit <= |text| && result == text[..limit] + tail
    ensures result[lo..hi] == text[lo..hi] && hi <= |result|
    ensures result[..lo] + out + result[hi..] == text[..lo] + (out + (text[hi..limit] + tail))
  {
    assert result[..lo] == text[..lo];
    assert result[hi..] == text[hi..limit] + tail;
  }

  lemma SuffixHead<T>(xs: seq<T>, k: nat)
    requires k < |xs|
    ensures xs[k..] == [xs[k]] + xs[k + 1..] && xs[k..][1..] == xs[k + 1..]
  {
  }
}
