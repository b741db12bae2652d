/** What one request on a session key is answered and stores, case by case of what is stored under the key. */
module Sticky {
  import opened Ordering
  import opened PolicyConfig
  import opened Planner
  import opened Contracts
  import opened Policy
  import opened Requests
  import opened Session

  // ---- refusals ----

  /** Before anything else: the limits, then the stored decision's own validity, then its kind. */
  lemma ReadRefused(v: Service, q: Ask, stored: Option<SessionDecision>)
    requires |q.found| == |q.request.segments|
    ensures |q.request.segments| > v.maxLeaves ==> Handle(v, q, stored) == Raised(TooManySegments)
    ensures |q.request.segments| <= v.maxLeaves && CharacterCount(q.request.segments) > v.maxCharacters ==>
              Handle(v, q, stored) == Raised(TooManyCharacters)
    ensures WithinLimits(v, q.request) && q.request.sessionScoped && stored.Some? && !ValidSession(stored.value) ==>
              Handle(v, q, stored) == Raised(InvalidSession)
    ensures WithinLimits(v, q.request) && q.request.sessionScoped && stored.Some? && ValidSession(stored.value)
              && stored.value.mcp != IsMcp(q.request) ==>
              Handle(v, q, stored) == Raised(SessionKindMismatch)
  {
  }

  lemma AnsweredIsRead(v: Service, q: Ask, stored: Option<SessionDecision>)
    requires |q.found| == |q.request.segments| && Handle(v, q, stored).Ok?
    ensures WithinLimits(v, q.request)
    ensures q.request.sessionScoped && stored.Some? ==>
              ValidSession(stored.value) && stored.value.mcp == IsMcp(q.request)
  {
    ReadRefused(v, q, stored);
  }

  // ---- nothing is read ----

  /** The response is the analysis; only its duration is stamped on it, where a scan took place. */
  predicate Stamped(w: Result, analysis: Result, elapsedMs: nat) {
    && w == analysis.(durationMs := w.durationMs)
    && w.durationMs ==
       if !analysis.scanPerformed then analysis.durationMs
       else if elapsedMs < 600_000 then Some(elapsedMs)
       else Some(600_000)
  }

  /** Without a stored decision, or outside a session, the answer is the analysis of the request. */
  lemma NothingStored(v: Service, q: Ask, stored: Option<SessionDecision>)
    requires |q.found| == |q.request.segments| && (stored.None? || !q.request.sessionScoped)
    ensures Handle(v, q, stored).Ok? ==>
              Analysis(v, q).Ok? && Stamped(Handle(v, q, stored).value.0, Analysis(v, q).value, q.elapsedMs)
    ensures WithinLimits(v, q.request) && Analysis(v, q).Raised? ==>
              Handle(v, q, stored) == Raised(Analysis(v, q).error)
  {
    NothingReadWith(v, q, stored, Analysis(v, q));
  }

  lemma NothingReadWith(v: Service, q: Ask, stored: Option<SessionDecision>, current: Outcome<Result>)
    requires stored.None? || !q.request.sessionScoped
    ensures HandleWith(v, q, stored, current).Ok? ==>
              current.Ok? && Stamped(HandleWith(v, q, stored, current).value.0, current.value, q.elapsedMs)
    ensures WithinLimits(v, q.request) && current.Raised? ==>
              HandleWith(v, q, stored, current) == Raised(current.error)
  {
  }

  // ---- a block is stored ----

  /** The answer repeats a stored decision: its counts, rows, route and notices, with nothing of this request's text. */
  predicate Repeats(w: Result, s: SessionDecision) {
    && w.decision == s.decision && w.remoteAllowed == s.remoteAllowed && w.entities == s.entities
    && w.entityCounts == s.entityCounts && w.rows == s.rows && w.overlapCount == s.overlapCount
    && w.routeClass == s.routeClass && w.requestNotices == s.requestNotices && w.responseNotices == s.responseNotices
    && w.reversal == map[] && !w.scanPerformed && w.source == CachedDecision && w.cachedDecisionApplied
  }

  /** A stored block is the answer to every request on its key, whatever analysis would find, and stays stored. */
  lemma BlockStored(v: Service, q: Ask, s: SessionDecision)
    requires |q.found| == |q.request.segments| && WithinLimits(v, q.request) && q.request.sessionScoped
    requires ValidSession(s) && s.decision == Blocked && s.mcp == IsMcp(q.request)
    ensures Handle(v, q, Some(s)).Ok? && After(v, q, Some(s)) == Some(s)
    ensures var w := Handle(v, q, Some(s)).value.0;
            Repeats(w, s) && w.segments.None? && w.appliedActions == {Block}
    ensures forall x: Ask :: x.request == q.request && |x.found| == |q.found| ==>
              Handle(v, x, Some(s)) == Handle(v, q, Some(s))
  {
    BlockStoredWith(v, q, s, Analysis(v, q));
    forall x: Ask | x.request == q.request && |x.found| == |q.found|
      ensures Handle(v, x, Some(s)) == Handle(v, q, Some(s))
    {
      BlockStoredWith(v, x, s, Analysis(v, x));
    }
  }

  lemma BlockStoredWith(v: Service, q: Ask, s: SessionDecision, current: Outcome<Result>)
    requires WithinLimits(v, q.request) && q.request.sessionScoped
    requires ValidSession(s) && s.decision == Blocked && s.mcp == IsMcp(q.request)
    ensures HandleWith(v, q, Some(s), current) == Ok((FromCache(q.request, s), None))
    ensures Repeats(FromCache(q.request, s), s) && FromCache(q.request, s).segments.None?
    ensures FromCache(q.request, s).appliedActions == {Block}
  {
    assert s.mcp ==> !HasRow(s.rows, Reroute) && s.responseNotices == [];
  }

  // ---- a reroute is stored ----

  /** Without masking and without attachments, a stored reroute forwards the request's own text, unread. */
  lemma PlainReroute(v: Service, q: Ask, s: SessionDecision)
    requires |q.found| == |q.request.segments| && WithinLimits(v, q.request) && q.request.sessionScoped
    requires ValidSession(s) && s.decision == Rerouted && s.mcp == IsMcp(q.request)
    requires !v.policy.maskOnReroute && !q.request.attachmentsPresent
    ensures Handle(v, q, Some(s)).Ok? && After(v, q, Some(s)) == Some(s)
    ensures var w := Handle(v, q, Some(s)).value.0;
            Repeats(w, s) && w.segments == Some(q.request.segments) && w.appliedActions == {Reroute}
    ensures forall x: Ask :: x.request == q.request && |x.found| == |q.found| ==>
              Handle(v, x, Some(s)) == Handle(v, q, Some(s))
  {
    PlainRerouteWith(v, q, s, Analysis(v, q));
    forall x: Ask | x.request == q.request && |x.found| == |q.found|
      ensures Handle(v, x, Some(s)) == Handle(v, q, Some(s))
    {
      PlainRerouteWith(v, x, s, Analysis(v, x));
    }
  }

  lemma PlainRerouteWith(v: Service, q: Ask, s: SessionDecision, current: Outcome<Result>)
    requires WithinLimits(v, q.request) && q.request.sessionScoped
    requires ValidSession(s) && s.decision == Rerouted && s.mcp == IsMcp(q.request)
    requires !v.policy.maskOnReroute && !q.request.attachmentsPresent
    ensures HandleWith(v, q, Some(s), current) == Ok((FromCache(q.request, s), None))
    ensures Repeats(FromCache(q.request, s), s) && FromCache(q.request, s).segments == Some(q.request.segments)
    ensures FromCache(q.request, s).appliedActions == {Reroute}
  {
  }

  /** An analysis that a stored reroute overrides: its text, the stored route and notices, the larger counts. */
  ghost predicate Overrides(w: Result, analysis: Result, s: SessionDecision) {
    && w.decision == Rerouted && !w.remoteAllowed && w.cachedDecisionApplied
    && w.segments == analysis.segments && w.reversal == analysis.reversal && w.rows == analysis.rows
    && w.overlapCount == analysis.overlapCount && w.safetyRule == analysis.safetyRule
    && w.routeClass == s.routeClass && w.requestNotices == s.requestNotices && w.responseNotices == s.responseNotices
    && w.appliedActions == analysis.appliedActions + {Reroute}
    && Sorted(w.entities, NameKey) && NoDup(w.entities)
    && (forall e :: e in w.entities <==> e in analysis.entities || e in s.entities)
    && (forall e :: e in w.entityCounts <==> e in analysis.entityCounts || e in s.entityCounts)
    && forall e :: e in w.entityCounts ==> LargerOf(w.entityCounts[e], analysis.entityCounts, s.entityCounts, e)
  }

  /** One of the two counts, and no smaller than the other. */
  predicate LargerOf(n: int, a: map<string, int>, b: map<string, int>, e: string) {
    && (e in a ==> a[e] <= n) && (e in b ==> b[e] <= n)
    && ((e in a && n == a[e]) || (e in b && n == b[e]))
  }

  /** With masking, or beside attachments, the text and the reversal map are those of the current analysis. */
  lemma AnalyzedReroute(v: Service, q: Ask, s: SessionDecision)
    requires |q.found| == |q.request.segments| && q.request.sessionScoped && s.decision == Rerouted
    requires (v.policy.maskOnReroute || q.request.attachmentsPresent) && Handle(v, q, Some(s)).Ok?
    ensures Analysis(v, q).Ok?
    ensures var w, analysis := Handle(v, q, Some(s)).value.0, Analysis(v, q).value;
            && w.segments == analysis.segments && w.reversal == analysis.reversal
            && if analysis.decision == Blocked then Stamped(w, analysis, q.elapsedMs) else Overrides(w, analysis, s)
  {
    AnalyzedRerouteWith(v, q, s, Analysis(v, q));
  }

  lemma AnalyzedRerouteWith(v: Service, q: Ask, s: SessionDecision, current: Outcome<Result>)
    requires q.request.sessionScoped && s.decision == Rerouted
    requires (v.policy.maskOnReroute || q.request.attachmentsPresent) && HandleWith(v, q, Some(s), current).Ok?
    ensures current.Ok?
    ensures var w := HandleWith(v, q, Some(s), current).value.0;
            && w.segments == current.value.segments && w.reversal == current.value.reversal
            && if current.value.decision == Blocked then Stamped(w, current.value, q.elapsedMs)
               else Overrides(w, current.value, s)
  {
    if current.Ok? {
      RespondedBy(v, q, s, current);
      if current.value.decision != Blocked {
        MergedOverrides(Timed(current.value, q.elapsedMs), s);
        SameButTimed(Merged(Timed(current.value, q.elapsedMs), s), current.value, q.elapsedMs, s);
      }
    }
  }

  lemma RespondedBy(v: Service, q: Ask, s: SessionDecision, current: Outcome<Result>)
    requires q.request.sessionScoped && s.decision == Rerouted && current.Ok?
    requires (v.policy.maskOnReroute || q.request.attachmentsPresent) && HandleWith(v, q, Some(s), current).Ok?
    ensures var w, timed := HandleWith(v, q, Some(s), current).value.0, Timed(current.value, q.elapsedMs);
            w == if timed.decision == Blocked then timed else Merged(timed, s)
    ensures ValidSession(s)
  {
    assert FinalCached(v.policy, q.request, Some(s)).None?;
    assert HandleWith(v, q, Some(s), current) ==
      Finished(q.request, ApplyCached(Timed(current.value, q.elapsedMs), Some(s)), Some(s));
  }

  lemma SameButTimed(w: Result, analysis: Result, elapsedMs: nat, s: SessionDecision)
    requires Overrides(w, Timed(analysis, elapsedMs), s)
    ensures Overrides(w, analysis, s)
  {
  }

  lemma MergedEntities(w: Result, s: SessionDecision, e: string)
    ensures e in Merged(w, s).entities <==> e in w.entities || e in s.entities
  {
    assert e in SortedNames(Members(w.entities) + Members(s.entities)) <==>
      e in Members(w.entities) + Members(s.entities);
  }

  lemma MergedLarger(a: map<string, int>, b: map<string, int>, e: string)
    requires forall x :: x in b ==> b[x] >= 0
    ensures e in MergeMax(a, b) <==> e in a || e in b
    ensures e in MergeMax(a, b) ==> LargerOf(MergeMax(a, b)[e], a, b, e)
  {
  }

  lemma MergedOverrides(w: Result, s: SessionDecision)
    requires ValidSession(s)
    ensures Overrides(Merged(w, s), w, s)
  {
    var m := Merged(w, s);
    forall e ensures e in m.entities <==> e in w.entities || e in s.entities {
      MergedEntities(w, s, e);
    }
    forall e
      ensures e in m.entityCounts <==> e in w.entityCounts || e in s.entityCounts
      ensures e in m.entityCounts ==> LargerOf(m.entityCounts[e], w.entityCounts, s.entityCounts, e)
    {
      MergedLarger(w.entityCounts, s.entityCounts, e);
    }
  }

  // ---- attachments ----

  /** A session request with attachments that succeeds is blocked, whatever is stored, and leaves a block stored. */
  lemma AttachmentsAlwaysBlock(v: Service, q: Ask, stored: Option<SessionDecision>)
    requires |q.found| == |q.request.segments| && q.request.attachmentsPresent && Handle(v, q, stored).Ok?
    ensures Handle(v, q, stored).value.0.decision == Blocked
    ensures q.request.sessionScoped ==>
              After(v, q, stored).Some? && After(v, q, stored).value.decision == Blocked
  {
    AnsweredIsRead(v, q, stored);
    AttachmentsBlock(v, q.request, q.found, q.nonce);
    BlockedWith(v, q, stored, Analysis(v, q));
  }

  lemma BlockedWith(v: Service, q: Ask, stored: Option<SessionDecision>, current: Outcome<Result>)
    requires q.request.attachmentsPresent && current.Ok? && current.value.decision == Blocked
    requires HandleWith(v, q, stored, current).Ok?
    ensures HandleWith(v, q, stored, current).value.0.decision == Blocked
    ensures q.request.sessionScoped ==>
              var after := AfterOutcome(HandleWith(v, q, stored, current), stored);
              after.Some? && after.value.decision == Blocked
  {
  }

  // ---- what is written ----

  /** A stored decision answers this request by itself. */
  predicate Answers(p: PolicySettings, r: SegmentRequest, stored: Option<SessionDecision>) {
    && r.sessionScoped && stored.Some?
    && (stored.value.decision == Blocked || (!p.maskOnReroute && !r.attachmentsPresent))
  }

  /** The written decision is the answer's; rows and overlaps of a reroute that was merged in are kept. */
  predicate Mirrors(t: SessionDecision, w: Result, mcp: bool, stored: Option<SessionDecision>) {
    && t.mcp == mcp && t.decision == w.decision && t.entities == w.entities && t.entityCounts == w.entityCounts
    && t.routeClass == w.routeClass && t.remoteAllowed == w.remoteAllowed
    && t.requestNotices == w.requestNotices && t.responseNotices == w.responseNotices
    && if w.cachedDecisionApplied && stored.Some? then
         t.rows == stored.value.rows && t.overlapCount == stored.value.overlapCount
       else t.rows == w.rows && t.overlapCount == w.overlapCount
  }

  /** A request writes exactly when it is analysed in a session and ends blocked or rerouted, and writes its answer. */
  lemma WritesItsAnswer(v: Service, q: Ask, stored: Option<SessionDecision>)
    requires |q.found| == |q.request.segments| && Handle(v, q, stored).Ok?
    ensures var (w, taint) := Handle(v, q, stored).value;
            && (taint.Some? <==>
                  q.request.sessionScoped && !Answers(v.policy, q.request, stored) && w.decision in {Blocked, Rerouted})
            && (taint.Some? ==> ValidSession(taint.value) && Mirrors(taint.value, w, IsMcp(q.request), stored))
            && After(v, q, stored) == if taint.Some? then taint else stored
  {
    WritesWith(v, q, stored, Analysis(v, q));
  }

  lemma WritesWith(v: Service, q: Ask, stored: Option<SessionDecision>, current: Outcome<Result>)
    requires HandleWith(v, q, stored, current).Ok?
    ensures var (w, taint) := HandleWith(v, q, stored, current).value;
            && (taint.Some? <==>
                  q.request.sessionScoped && !Answers(v.policy, q.request, stored) && w.decision in {Blocked, Rerouted})
            && (taint.Some? ==> ValidSession(taint.value) && Mirrors(taint.value, w, IsMcp(q.request), stored))
  {
  }

  /** No MCP answer carries routing or notices, whatever was stored or analysed. */
  lemma McpAnswer(v: Service, q: Ask, stored: Option<SessionDecision>)
    requires |q.found| == |q.request.segments| && q.request.kind == Mcp && Handle(v, q, stored).Ok?
    ensures var w := Handle(v, q, stored).value.0;
            && w.decision != Rerouted && w.routeClass.None? && w.requestNotices == [] && w.responseNotices == []
            && forall i :: 0 <= i < |w.rows| ==> w.rows[i].action != Reroute
  {
    McpAnswerWith(v, q, stored, Analysis(v, q));
  }

  lemma McpAnswerWith(v: Service, q: Ask, stored: Option<SessionDecision>, current: Outcome<Result>)
    requires q.request.kind == Mcp && HandleWith(v, q, stored, current).Ok?
    ensures var w := HandleWith(v, q, stored, current).value.0;
            && w.decision != Rerouted && w.routeClass.None? && w.requestNotices == [] && w.responseNotices == []
            && forall i :: 0 <= i < |w.rows| ==> w.rows[i].action != Reroute
  {
  }
}
