/** One service alone: for which services the guard of overlapping finishes is exact. */
module FixedService {
  import opened PolicyConfig
  import opened Matches
  import opened Planner
  import opened Contracts
  import opened Policy
  import opened Requests
  import opened Response
  import opened Session

  /** Whatever is asked of this service, finishing on this read keeps the order of what is stored. */
  ghost predicate KeepsOrderFor(
    v: Service, names: set<string>, stored: Option<SessionDecision>, read: Option<SessionDecision>)
  {
    forall q :: ValidAsk(q, names) ==> Sticky(stored, Stored(v, q, stored, read))
  }

  /** A session request that the service lets pass with nothing found in it. */
  ghost predicate FindsNothing(v: Service, names: set<string>, q: Ask) {
    && ValidAsk(q, names) && q.request.sessionScoped && q.request.visual.None? && !IsMcp(q.request)
    && !q.request.attachmentsPresent && LimitFailure(v, q.request.segments).None?
    && Analysis(v, q).Ok? && Analysis(v, q).value.decision != Blocked && Analysis(v, q).value.entityCounts == map[]
  }

  /** A request that, having read nothing, stores a reroute with this report. */
  ghost predicate StoresReroute(v: Service, names: set<string>, q: Ask, rows: seq<Row>) {
    ValidAsk(q, names) && Level(WriterOf(v)(q, None)) == 1 && WriterOf(v)(q, None).value.rows == rows
  }

  /** Masks what it reroutes, lets some request pass with nothing found, and reroutes with different reports. */
  ghost predicate Versatile(v: Service, names: set<string>) {
    && v.policy.maskOnReroute && (exists q :: FindsNothing(v, names, q))
    && exists q1, q2, rows1, rows2 ::
         rows1 != rows2 && StoresReroute(v, names, q1, rows1) && StoresReroute(v, names, q2, rows2)
  }

  // ---- where a block is stored: attachments always block ----

  function Attached(kind: RequestKind): Ask {
    Ask(SegmentRequest(kind, true, [], true, true, None), [], NONCE, 1)
  }

  lemma AttachedWrites(v: Service, names: set<string>, kind: RequestKind)
    requires ValidService(v) && Catalogue(names)
    ensures ValidAsk(Attached(kind), names)
    ensures var w := WriterOf(v)(Attached(kind), None); Level(w) == 2 && w.value.mcp == (kind == Mcp)
  {
    var q := Attached(kind);
    assert CharacterCount([]) == 0;
    AttachedIsValid(v, names);
    AttachmentsBlock(v, q.request, [], NONCE);
    WritesTaint(v, q, names);
  }

  /** Any service can replace a stored block by another one. */
  lemma NeededForBlock(v: Service, names: set<string>, s: SessionDecision)
    requires ValidService(v) && Catalogue(names) && s.decision == Blocked
    ensures !KeepsOrderFor(v, names, Some(s), None)
  {
    var kind := if s.mcp then Chat else Mcp;
    AttachedWrites(v, names, kind);
    assert !Sticky(Some(s), Stored(v, Attached(kind), Some(s), None));
  }

  // ---- where a reroute is stored or was read ----

  lemma NeededForReroute(v: Service, names: set<string>, s: SessionDecision)
    requires Versatile(v, names) && s.decision == Rerouted
    ensures !KeepsOrderFor(v, names, Some(s), None)
  {
    var q1, q2, rows1, rows2 :| rows1 != rows2 && StoresReroute(v, names, q1, rows1)
      && StoresReroute(v, names, q2, rows2);
    var q := if s.rows == rows1 then q2 else q1;
    assert !Sticky(Some(s), Stored(v, q, Some(s), None));
  }

  lemma NeededAfterReroute(v: Service, names: set<string>, stored: Option<SessionDecision>, read: SessionDecision)
    requires ValidService(v) && Catalogue(names) && Versatile(v, names) && Safe(Some(read), names)
    requires read.decision == Rerouted && !Sticky(stored, Some(read))
    ensures !KeepsOrderFor(v, names, stored, Some(read))
  {
    var q :| FindsNothing(v, names, q);
    CurrentResult(v, q, names);
    HandsBack(v, q, read, names, Analysis(v, q));
    WriterIs(v, q, Some(read));
    if Sticky(stored, Stored(v, q, stored, Some(read))) {
      SameRouteBack(stored, WriterOf(v)(q, Some(read)), read);
    }
  }

  lemma Suffices(v: Service, names: set<string>, stored: Option<SessionDecision>, read: Option<SessionDecision>)
    requires ValidService(v) && Catalogue(names) && Safe(read, names) && MayFinish(stored, read)
    ensures KeepsOrderFor(v, names, stored, read)
  {
    MayFinishSuffices(names, stored, read);
  }

  /**
   * For one versatile service, whatever it is asked, finishing on a read keeps the order of what is stored
   * exactly under the guard; where a block is stored and nothing was read, that is so for every service.
   */
  lemma FixedServiceKeepsOrder(
    v: Service, names: set<string>, stored: Option<SessionDecision>, read: Option<SessionDecision>)
    requires ValidService(v) && Catalogue(names) && Safe(stored, names) && Safe(read, names)
    requires Versatile(v, names) || (Level(stored) == 2 && read.None?)
    ensures KeepsOrderFor(v, names, stored, read) <==> MayFinish(stored, read)
  {
    if MayFinish(stored, read) {
      Suffices(v, names, stored, read);
    } else if read.Some? {
      NeededAfterReroute(v, names, stored, read.value);
    } else if Level(stored) == 2 {
      NeededForBlock(v, names, stored.value);
    } else {
      NeededForReroute(v, names, stored.value);
    }
  }

  // ---- a service that is versatile ----

  lemma RowsNamed(w: Result, r: SegmentRequest, e: string)
    requires Current(w, r, {e}) && w.decision == Rerouted && r.visual.None?
    ensures w.rows != [] && w.rows[0].entity == e
  {
    assert w.rows[0].entity in w.entityCounts;
  }

  /** A service that reroutes every entity stores a report that names what was found. */
  lemma StoresNamed(e: string, names: set<string>) returns (rows: seq<Row>)
    requires Catalogue(names) && e in names
    ensures StoresReroute(ServiceOf(Reroute, true, "local", None), names, Sample([Letter(e)]), rows)
    ensures rows != [] && rows[0].entity == e
  {
    var v, q := ServiceOf(Reroute, true, "local", None), Sample([Letter(e)]);
    ServiceIsValid(Reroute, true, "local", None);
    SampleIsValid([Letter(e)], names);
    SmallCatalogue(e, names);
    SampleIsValid([Letter(e)], {e});
    PlainIsSmall(v);
    DetectionReroutes(e, true, "local");
    WritesTaint(v, q, names);
    CurrentResult(v, q, {e});
    RowsNamed(Timed(Analysis(v, q).value, 1), PLAIN, e);
    rows := Analysis(v, q).value.rows;
  }

  lemma SmallCatalogue(e: string, names: set<string>)
    requires Catalogue(names) && e in names
    ensures Catalogue({e})
  {
  }

  /** With two entity types to detect, a policy that masks and reroutes everything is versatile. */
  lemma SomeServiceIsVersatile(names: set<string>, e: string, f: string)
    requires Catalogue(names) && e in names && f in names && e != f
    ensures ValidService(ServiceOf(Reroute, true, "local", None))
    ensures Versatile(ServiceOf(Reroute, true, "local", None), names)
  {
    var v := ServiceOf(Reroute, true, "local", None);
    ServiceIsValid(Reroute, true, "local", None);
    SampleIsValid([], names);
    PlainIsSmall(v);
    NothingFound(Reroute);
    assert FindsNothing(v, names, Sample([]));
    var rows1 := StoresNamed(e, names);
    var rows2 := StoresNamed(f, names);
    assert rows1 != rows2;
  }
}
