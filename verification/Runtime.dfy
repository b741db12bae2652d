/** The runtime's handling of one segment request against the keyed session store. */
module Runtime {
  import opened Ordering
  import opened PolicyConfig
  import opened Planner
  import opened Contracts
  import opened Policy
  import opened PolicyService
  import opened Response
  import opened Session

  // ---- keyed decisions that expire ----

  datatype Entry = Entry(value: SessionDecision, expires: int)

  /** What a key holds at a moment: an entry counts until it expires. */
  function LiveAt(entries: map<string, Entry>, key: string, now: int): Option<SessionDecision> {
    if key in entries && now < entries[key].expires then Some(entries[key].value) else None
  }

  /** Reading a live entry starts its lifetime anew. */
  function Refreshed(entries: map<string, Entry>, ttl: int, key: string, now: int): map<string, Entry> {
    if LiveAt(entries, key, now).Some? then entries[key := Entry(entries[key].value, now + ttl)] else entries
  }

  /** Whether a request reads the store at all. */
  predicate Reads(v: Service, q: Ask) { q.request.sessionScoped && LimitFailure(v, q.request.segments).None? }

  /** The entries after one request with this outcome that read its key at one moment and wrote at a later one. */
  ghost function EntriesWith(entries: map<string, Entry>, ttl: int, key: string, reading: bool,
                             h: Outcome<(Result, Option<SessionDecision>)>, readAt: int, writtenAt: int)
    : map<string, Entry>
  {
    WithTaint(if reading then Refreshed(entries, ttl, key, readAt) else entries, ttl, key, h, writtenAt)
  }

  ghost function EntriesAfter(
    entries: map<string, Entry>, ttl: int, key: string, v: Service, q: Ask, readAt: int, writtenAt: int)
    : map<string, Entry>
    requires |q.found| == |q.request.segments|
  {
    EntriesWith(entries, ttl, key, Reads(v, q), Handle(v, q, LiveAt(entries, key, readAt)), readAt, writtenAt)
  }

  /** A decision that a request writes lives from then on. */
  ghost function WithTaint(
    entries: map<string, Entry>, ttl: int, key: string, h: Outcome<(Result, Option<SessionDecision>)>, now: int)
    : map<string, Entry>
  {
    if h.Ok? && h.value.1.Some? then entries[key := Entry(h.value.1.value, now + ttl)] else entries
  }

  /**
   * For one lifetime after a session request read its key, the key holds what the run of untimed steps
   * says; other keys are never touched.
   */
  lemma HoldsForOneLifetime(
    entries: map<string, Entry>, ttl: int, key: string, h: Outcome<(Result, Option<SessionDecision>)>,
    readAt: int, writtenAt: int, t: int)
    requires readAt <= writtenAt <= t < readAt + ttl
    ensures LiveAt(EntriesWith(entries, ttl, key, true, h, readAt, writtenAt), key, t) ==
              AfterOutcome(h, LiveAt(entries, key, readAt))
    ensures forall other :: other != key ==>
              LiveAt(EntriesWith(entries, ttl, key, true, h, readAt, writtenAt), other, t) == LiveAt(entries, other, t)
  {
  }

  /** Once a lifetime has passed since a key was last read and written, nothing is live under it. */
  lemma ExpiresAfterLifetime(
    entries: map<string, Entry>, ttl: int, key: string, h: Outcome<(Result, Option<SessionDecision>)>,
    readAt: int, writtenAt: int, t: int)
    requires 0 < ttl && readAt <= writtenAt && writtenAt + ttl <= t
    ensures LiveAt(EntriesWith(entries, ttl, key, true, h, readAt, writtenAt), key, t).None?
  {
  }

  /** Session requests on one key, each read before its write, and within one lifetime of the read before it. */
  ghost predicate Timely(asks: seq<Ask>, readAt: seq<int>, writtenAt: seq<int>, ttl: int) {
    && |asks| == |readAt| == |writtenAt|
    && (forall i :: 0 <= i < |asks| ==> readAt[i] <= writtenAt[i])
    && forall i :: 0 < i < |asks| ==> writtenAt[i - 1] <= readAt[i] < readAt[i - 1] + ttl
  }

  ghost predicate Served(
    v: Service, ttl: int, key: string, asks: seq<Ask>, readAt: seq<int>, writtenAt: seq<int>, states: seq<map<string,
    Entry>>, i: nat)
  {
    && i < |asks| == |readAt| == |writtenAt| && i + 1 < |states|
    && |asks[i].found| == |asks[i].request.segments| && Reads(v, asks[i])
    && states[i + 1] == EntriesAfter(states[i], ttl, key, v, asks[i], readAt[i], writtenAt[i])
  }

  /** The entries before and after each of some timely requests on one key. */
  ghost predicate TimedRun(
    v: Service, ttl: int, key: string, asks: seq<Ask>, readAt: seq<int>, writtenAt: seq<int>, states: seq<map<string,
    Entry>>)
  {
    && Timely(asks, readAt, writtenAt, ttl) && asks != [] && |states| == |asks| + 1
    && forall i :: 0 <= i < |asks| ==> Served(v, ttl, key, asks, readAt, writtenAt, states, i)
  }

  /** Each timely request reads what the one before it left. */
  lemma ReadsWhatWasLeft(
    v: Service, ttl: int, key: string, asks: seq<Ask>, readAt: seq<int>, writtenAt: seq<int>, states: seq<map<string,
    Entry>>, i: nat)
    requires TimedRun(v, ttl, key, asks, readAt, writtenAt, states) && 0 < i < |asks|
    ensures |asks[i - 1].found| == |asks[i - 1].request.segments|
    ensures LiveAt(states[i], key, readAt[i]) == After(v, asks[i - 1], LiveAt(states[i - 1], key, readAt[i - 1]))
  {
    assert Served(v, ttl, key, asks, readAt, writtenAt, states, i - 1);
    var h := Handle(v, asks[i - 1], LiveAt(states[i - 1], key, readAt[i - 1]));
    HoldsForOneLifetime(states[i - 1], ttl, key, h, readAt[i - 1], writtenAt[i - 1], readAt[i]);
  }

  /** While no lifetime lapses between requests, what they read is a run, so taint read from a key is monotone. */
  lemma TimelyTaintIsMonotone(
    v: Service, ttl: int, key: string, asks: seq<Ask>, readAt: seq<int>, writtenAt: seq<int>, states: seq<map<string,
    Entry>>,
    i: nat, j: nat, names: set<string>)
    requires ValidService(v) && Catalogue(names) && ValidAsks(asks, names)
    requires TimedRun(v, ttl, key, asks, readAt, writtenAt, states)
    requires Safe(LiveAt(states[0], key, readAt[0]), names) && i <= j < |asks|
    ensures Safe(LiveAt(states[j], key, readAt[j]), names)
    ensures Sticky(LiveAt(states[i], key, readAt[i]), LiveAt(states[j], key, readAt[j]))
  {
    var n := |asks| - 1;
    var stored := seq(n + 1, k requires 0 <= k <= n => LiveAt(states[k], key, readAt[k]));
    forall k | 0 <= k < n ensures Handled(v, asks[..n], stored, k) {
      ReadsWhatWasLeft(v, ttl, key, asks, readAt, writtenAt, states, k + 1);
    }
    TaintIsMonotone(v, asks[..n], stored, i, j, names);
    RunIsSafe(v, asks[..n], stored, j, names);
  }

  /** Keyed taint state; a decision is checked when it is built to be written and again when it is read. */
  class SessionStore {
    const ttl: int
    var entries: map<string, Entry>

    constructor (ttl: int)
      ensures this.ttl == ttl && entries == map[]
    {
      this.ttl, entries := ttl, map[];
    }

    /** Read a key, and start the lifetime of what is found anew even where it is then rejected. */
    method Get(key: string, now: int) returns (r: Outcome<Option<SessionDecision>>)
      modifies this
      ensures var live := LiveAt(old(entries), key, now);
              r == if live.Some? && !ValidSession(live.value) then Raised(InvalidSession) else Ok(live)
      ensures entries == Refreshed(old(entries), ttl, key, now)
    {
      if key !in entries || entries[key].expires <= now {
        return Ok(None);
      }
      entries := entries[key := Entry(entries[key].value, now + ttl)];
      r := if ValidSession(entries[key].value) then Ok(Some(entries[key].value)) else Raised(InvalidSession);
    }

    method Set(key: string, s: SessionDecision, now: int) returns (ok: bool)
      modifies this
      ensures ok <==> ValidSession(s)
      ensures entries == if ok then old(entries)[key := Entry(s, now + ttl)] else old(entries)
    {
      ok := ValidSession(s);
      if ok {
        entries := entries[key := Entry(s, now + ttl)];
      }
    }
  }

  /** An outcome is the specified one, errors included; a result is compared by its value. */
  ghost predicate Serves(out: Outcome<PolicyResult>, expected: Outcome<(Result, Option<SessionDecision>)>)
    reads if out.Ok? then {out.value} else {}
  {
    if expected.Ok? then out.Ok? && out.value.Data() == expected.value.0 else out == Raised(expected.error)
  }

  class EngineRuntime {
    const pipeline: Pipeline
    const session: SessionStore

    constructor (v: Service, ttl: int)
      ensures pipeline.v == v && pipeline.Valid() && fresh(session) && session.ttl == ttl && session.entries == map[]
    {
      pipeline := new Pipeline(v);
      session := new SessionStore(ttl);
    }

    /** A stored reroute overrides whatever the current request decided, except a block. */
    static method ApplyCachedDecision(result: PolicyResult, cached: Option<SessionDecision>)
      modifies result
      ensures result.Data() == ApplyCached(old(result.Data()), cached)
    {
      if cached.Some? && cached.value.decision == Rerouted && result.decision != Blocked {
        MergeReroute(result, cached.value);
      }
    }

    static method MergeReroute(result: PolicyResult, s: SessionDecision)
      modifies result
      ensures result.Data() == Merged(old(result.Data()), s)
    {
      var names := ActionPlanner.SortNames(Members(result.entities) + Members(s.entities));
      var counts := MergeLargest(result.entityCounts, s.entityCounts);
      SetDetections(result, names, counts, result.appliedActions + {Reroute});
      SetRoute(result, s);
    }

    static method SetDetections(
      result: PolicyResult, names: seq<string>, counts: map<string, int>, actions: set<Action>)
      modifies result
      ensures result.Data() == old(result.Data()).(entities := names, entityCounts := counts, appliedActions := actions)
    {
      result.entities, result.entityCounts, result.appliedActions := names, counts, actions;
    }

    static method SetRoute(result: PolicyResult, s: SessionDecision)
      modifies result
      ensures result.Data() == old(result.Data()).(
                decision := Rerouted, remoteAllowed := false, routeClass := s.routeClass,
                requestNotices := s.requestNotices, responseNotices := s.responseNotices, cachedDecisionApplied := true)
    {
      result.decision, result.remoteAllowed, result.routeClass := Rerouted, false, s.routeClass;
      result.requestNotices, result.responseNotices, result.cachedDecisionApplied :=
        s.requestNotices, s.responseNotices, true;
    }

    static method MergeLargest(a: map<string, int>, b: map<string, int>) returns (merged: map<string, int>)
      ensures merged == MergeMax(a, b)
    {
      merged := a;
      var rest := b.Keys;
      while rest != {}
        invariant rest <= b.Keys && merged.Keys == a.Keys + (b.Keys - rest)
        invariant forall e :: e in merged ==>
                    merged[e] == if e in b && e !in rest then Larger(Get(a, e), b[e]) else a[e]
      {
        var e :| e in rest;
        merged := merged[e := Larger(Get(merged, e), b[e])];
        rest := rest - {e};
      }
    }

    /** Write back a blocked or rerouted session request. */
    method TaintSession(key: string, result: PolicyResult, cached: Option<SessionDecision>, r: SegmentRequest, now: int)
      returns (ok: bool)
      modifies session
      ensures var t, was := TaintOf(result.Data(), cached, r), old(session.entries);
              && (ok <==> (t.Some? ==> ValidSession(t.value)))
              && session.entries == if t.Some? && ok then was[key := Entry(t.value, now + session.ttl)] else was
    {
      if !r.sessionScoped || result.decision !in {Blocked, Rerouted} {
        return true;
      }
      var taint := Taint(result, cached, r);
      ok := WriteTaint(key, taint, now);
      assert result.Data() == old(result.Data());
    }

    method WriteTaint(key: string, taint: SessionDecision, now: int) returns (ok: bool)
      modifies session
      ensures ok <==> ValidSession(taint)
      ensures session.entries ==
              if ok then old(session.entries)[key := Entry(taint, now + session.ttl)] else old(session.entries)
    {
      ok := session.Set(key, taint, now);
    }

    /** The decision to store: rows and overlaps of a stored reroute are kept, the rest is the result's. */
    static method Taint(result: PolicyResult, cached: Option<SessionDecision>, r: SegmentRequest)
      returns (taint: SessionDecision)
      requires r.sessionScoped && result.decision in {Blocked, Rerouted}
      ensures TaintOf(result.Data(), cached, r) == Some(taint)
    {
      var rows, overlaps := result.rows, result.overlapCount;
      if result.cachedDecisionApplied && cached.Some? {
        rows, overlaps := cached.value.rows, cached.value.overlapCount;
      }
      taint := SessionDecision(IsMcp(r), result.decision, result.entities, result.entityCounts, rows, overlaps,
                               result.routeClass, result.remoteAllowed, result.requestNotices, result.responseNotices);
    }

    /** One segment request: bounds, the stored decision, analysis, sticky routing, and the write back. */
    method AnalyzeSegments(key: string, q: Ask, readAt: int, writtenAt: int) returns (out: Outcome<PolicyResult>)
      requires pipeline.Valid() && |q.found| == |q.request.segments| && NoDup(Ids(q.request.segments))
      modifies session
      ensures Serves(out, Handle(pipeline.v, q, LiveAt(old(session.entries), key, readAt)))
      ensures out.Ok? ==> fresh(out.value)
      ensures session.entries == EntriesAfter(old(session.entries), session.ttl, key, pipeline.v, q, readAt, writtenAt)
    {
      var limits := LimitFailure(pipeline.v, q.request.segments);
      if limits.Some? {
        return Raised(limits.value);
      }
      var cached := CachedDecision(key, q.request, readAt);
      if cached.Raised? {
        return Raised(cached.error);
      }
      var final := FinalCached(pipeline.v.policy, q.request, cached.value);
      if final.Some? {
        if !ResultKindOk(final.value, q.request) {
          return Raised(ResultKindMismatch);
        }
        var served := new PolicyResult(final.value);
        return Ok(served);
      }
      out := AnalyzeCurrent(key, q, cached.value, writtenAt);
    }

    method CachedDecision(key: string, r: SegmentRequest, now: int) returns (cached: Outcome<Option<SessionDecision>>)
      modifies session
      ensures cached == ReadCached(r, LiveAt(old(session.entries), key, now))
      ensures session.entries ==
              if r.sessionScoped then Refreshed(old(session.entries), session.ttl, key, now) else old(session.entries)
    {
      if !r.sessionScoped {
        return Ok(None);
      }
      cached := session.Get(key, now);
      if cached.Ok? && cached.value.Some? && cached.value.value.mcp != IsMcp(r) {
        return Raised(SessionKindMismatch);
      }
    }

    method AnalyzeCurrent(key: string, q: Ask, cached: Option<SessionDecision>, now: int)
      returns (out: Outcome<PolicyResult>)
      requires pipeline.Valid() && |q.found| == |q.request.segments| && NoDup(Ids(q.request.segments))
      requires FinalCached(pipeline.v.policy, q.request, cached).None?
      modifies session
      ensures var h := RespondWith(pipeline.v.policy, q, cached, Analysis(pipeline.v, q));
              && Serves(out, h) && (out.Ok? ==> fresh(out.value))
              && session.entries == WithTaint(old(session.entries), session.ttl, key, h, now)
    {
      var current := pipeline.Analyze(q.request, q.found, q.nonce);
      if current.Raised? {
        return current;
      }
      var result := current.value;
      Stamp(result, q.elapsedMs);
      out := FinishCurrent(key, q.request, result, cached, now);
    }

    /** Only a scan has a duration, and a bounded one. */
    static method Stamp(result: PolicyResult, elapsedMs: nat)
      modifies result
      ensures result.Data() == Timed(old(result.Data()), elapsedMs)
    {
      if result.scanPerformed {
        result.durationMs := Some(if elapsedMs < 600_000 then elapsedMs else 600_000);
      }
    }

    method FinishCurrent(
      key: string, r: SegmentRequest, result: PolicyResult, cached: Option<SessionDecision>, now: int)
      returns (out: Outcome<PolicyResult>)
      modifies session, result
      ensures var h := Finished(r, ApplyCached(old(result.Data()), cached), cached);
              && Serves(out, h) && (out.Ok? ==> out.value == result)
              && session.entries == WithTaint(old(session.entries), session.ttl, key, h, now)
    {
      ApplyCachedDecision(result, cached);
      if !ResultAllowed(result, r) {
        return Raised(ResultKindMismatch);
      }
      var ok := TaintSession(key, result, cached, r, now);
      out := if ok then Ok(result) else Raised(InvalidSession);
    }

    static predicate ResultAllowed(result: PolicyResult, r: SegmentRequest)
      reads result
      ensures ResultAllowed(result, r) <==> ResultKindOk(result.Data(), r)
    {
      IsMcp(r) ==>
        && result.decision != Rerouted && result.routeClass.None?
        && result.requestNotices == [] && result.responseNotices == [] && !HasRow(result.rows, Reroute)
    }
  }
}
