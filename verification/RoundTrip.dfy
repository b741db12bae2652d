/** Restoring undoes transforming: one substitution with the reversal map gives back the original text. */
module RoundTrip {
  import opened PolicyConfig
  import opened Matches
  import Prepare
  import opened Rewrite
  import opened Restore
  import opened Planner
  import opened Contracts
  import opened Policy
  import opened Verdict
  import opened Response

  const SIMULATION_PREFIX := "[SIMULATED - NO MODEL CALLED]"

  /** Actions whose rewriting can be undone: pass, encrypt, reversible replace, and unmasked reroute. */
  predicate Undoable(p: PolicySettings, e: string) {
    var a := Configured(p, e);
    a in {Pass, Encrypt, ReversibleReplace} || (a == Reroute && !p.maskOnReroute)
  }

  ghost predicate UndoableRegions(p: PolicySettings, regions: seq<Match>) {
    forall k :: 0 <= k < |regions| ==> Undoable(p, regions[k].entity)
  }

  // ---- one leaf as characters and holes ----

  ghost function Chars(s: string): (xs: seq<Item>)
    ensures |xs| == |s| && forall i :: 0 <= i < |xs| ==> xs[i] == Ch(s[i])
  {
    seq(|s|, i requires 0 <= i < |s| => Ch(s[i]))
  }

  ghost function RegionItems(c: Context, text: string, m: Match): seq<Item>
    requires 0 <= m.start <= m.end <= |text|
  {
    var edit := EditAt(c, text, m);
    if edit.Reversible? then [Hole(edit.placeholder, Original(text, m))] else Chars(Original(text, m))
  }

  ghost function LeafItems(c: Context, text: string, pos: int, regions: seq<Match>): seq<Item>
    requires Fits(text, pos, regions)
    decreases |regions|
  {
    if regions == [] then Chars(text[pos..])
    else Chars(text[pos..regions[0].start]) +
         (RegionItems(c, text, regions[0]) + LeafItems(c, text, regions[0].end, regions[1..]))
  }

  lemma {:induction false} RenderConcat(xs: seq<Item>, ys: seq<Item>)
    ensures Render(xs + ys) == Render(xs) + Render(ys)
  {
    if xs == [] {
      assert xs + ys == ys;
    } else {
      assert (xs + ys)[1..] == xs[1..] + ys;
      RenderConcat(xs[1..], ys);
      Associates(Rendered(xs[0]), Render(xs[1..]), Render(ys));
    }
  }

  lemma {:induction false} PlainConcat(xs: seq<Item>, ys: seq<Item>)
    ensures Plain(xs + ys) == Plain(xs) + Plain(ys)
  {
    if xs == [] {
      assert xs + ys == ys;
    } else {
      assert (xs + ys)[1..] == xs[1..] + ys;
      PlainConcat(xs[1..], ys);
      Associates(Underlying(xs[0]), Plain(xs[1..]), Plain(ys));
    }
  }

  lemma {:induction false} HoleEntitiesConcat(xs: seq<Item>, ys: seq<Item>)
    ensures HoleEntities(xs + ys) == HoleEntities(xs) + HoleEntities(ys)
  {
    if xs == [] {
      assert xs + ys == ys;
    } else {
      assert (xs + ys)[1..] == xs[1..] + ys;
      HoleEntitiesConcat(xs[1..], ys);
      if xs[0].Hole? && InGrammar(xs[0].placeholder) {
        var e, front, back := [EntityGroup(xs[0].placeholder)], HoleEntities(xs[1..]), HoleEntities(ys);
        assert (e + front) + back == e + (front + back);
      }
    }
  }

  lemma {:induction false} CharsText(s: string)
    ensures Render(Chars(s)) == s && Plain(Chars(s)) == s && HoleEntities(Chars(s)) == []
  {
    if s != [] {
      assert Chars(s)[1..] == Chars(s[1..]);
      CharsText(s[1..]);
    }
  }

  lemma RegionText(c: Context, text: string, m: Match)
    requires 0 <= m.start <= m.end <= |text| && Undoable(c.policy, m.entity)
    ensures Render(RegionItems(c, text, m)) == Output(EditAt(c, text, m), Original(text, m))
    ensures Plain(RegionItems(c, text, m)) == Original(text, m)
  {
    CharsText(Original(text, m));
    var xs := RegionItems(c, text, m);
    if EditAt(c, text, m).Reversible? {
      assert xs[1..] == [];
    }
  }

  /** A leaf's items render to its transformed text. */
  lemma {:induction false} LeafText(c: Context, text: string, pos: int, regions: seq<Match>)
    requires Fits(text, pos, regions) && UndoableRegions(c.policy, regions)
    ensures Render(LeafItems(c, text, pos, regions)) == Splice(c, text, pos, regions)
    decreases |regions|
  {
    if regions == [] {
      CharsText(text[pos..]);
    } else {
      var m, rest := regions[0], regions[1..];
      var region, tail := RegionItems(c, text, m), LeafItems(c, text, m.end, rest);
      LeafText(c, text, m.end, rest);
      RegionText(c, text, m);
      CharsText(text[pos..m.start]);
      RenderConcat(region, tail);
      RenderConcat(Chars(text[pos..m.start]), region + tail);
    }
  }

  lemma Cut(text: string, i: int, j: int, k: int)
    requires 0 <= i <= j <= k <= |text|
    ensures text[i..] == text[i..j] + (text[j..k] + text[k..])
  {
  }

  /** A leaf's items stand for its original text. */
  lemma {:induction false} LeafPlain(c: Context, text: string, pos: int, regions: seq<Match>)
    requires Fits(text, pos, regions) && UndoableRegions(c.policy, regions)
    ensures Plain(LeafItems(c, text, pos, regions)) == text[pos..]
    decreases |regions|
  {
    if regions == [] {
      CharsText(text[pos..]);
    } else {
      var m, rest := regions[0], regions[1..];
      var region, tail := RegionItems(c, text, m), LeafItems(c, text, m.end, rest);
      LeafPlain(c, text, m.end, rest);
      RegionText(c, text, m);
      CharsText(text[pos..m.start]);
      PlainConcat(region, tail);
      PlainConcat(Chars(text[pos..m.start]), region + tail);
      Cut(text, pos, m.start, m.end);
    }
  }

  /** Each hole is a placeholder of the grammar that the reversal map turns back. */
  ghost predicate HolesKnown(reversal: map<string, string>, xs: seq<Item>) {
    forall i :: 0 <= i < |xs| && xs[i].Hole? ==>
      InGrammar(xs[i].placeholder) && xs[i].placeholder in reversal && reversal[xs[i].placeholder] == xs[i].original
  }

  lemma HolesConcat(reversal: map<string, string>, xs: seq<Item>, ys: seq<Item>)
    requires HolesKnown(reversal, xs) && HolesKnown(reversal, ys)
    ensures HolesKnown(reversal, xs + ys)
  {
  }

  /** Reversal entries of a leaf agree with a merged map. */
  ghost predicate Extends(all: map<string, string>, part: map<string, string>) {
    forall ph :: ph in part ==> ph in all && all[ph] == part[ph]
  }

  ghost predicate GoodKeys(c: Context) {
    Hex16(c.nonce) && forall n, e, x :: Hex16(c.ops.digest(n, e, x))
  }

  ghost predicate GoodNames(regions: seq<Match>) {
    forall k :: 0 <= k < |regions| ==> EntityName(regions[k].entity)
  }

  /** The entities whose regions were replaced by placeholders, left to right. */
  ghost function ReversedEntities(c: Context, text: string, regions: seq<Match>): seq<string>
    requires InText(text, regions)
  {
    if regions == [] then []
    else if EditAt(c, text, regions[0]).Reversible? then [regions[0].entity] + ReversedEntities(c, text, regions[1..])
    else ReversedEntities(c, text, regions[1..])
  }

  lemma EditEntity(c: Context, m: Match, original: string)
    requires GoodKeys(c) && EntityName(m.entity) && EditOf(c, m, original).Reversible?
    ensures InGrammar(EditOf(c, m, original).placeholder) && EntityGroup(EditOf(c, m, original).placeholder) == m.entity
  {
    PlaceholderInGrammar(REV, m.entity, c.nonce, c.ops.digest(c.nonce, m.entity, original));
    PlaceholderInGrammar(ENCRYPTED, m.entity, c.nonce,
      c.ops.digest(c.nonce, m.entity, c.ops.anonymize(c.leaf, Encrypt, m, original)));
  }

  lemma RegionHoles(c: Context, text: string, m: Match, reversal: map<string, string>)
    requires 0 <= m.start <= m.end <= |text| && GoodKeys(c) && EntityName(m.entity)
    requires EditAt(c, text, m).Reversible? ==>
               EditAt(c, text, m).placeholder in reversal
                 && reversal[EditAt(c, text, m).placeholder] == Original(text, m)
    ensures HolesKnown(reversal, RegionItems(c, text, m))
  {
    if EditAt(c, text, m).Reversible? {
      EditEntity(c, m, Original(text, m));
    }
  }

  lemma RegionEntity(c: Context, text: string, m: Match)
    requires 0 <= m.start <= m.end <= |text| && GoodKeys(c) && EntityName(m.entity)
    ensures HoleEntities(RegionItems(c, text, m)) == if EditAt(c, text, m).Reversible? then [m.entity] else []
  {
    CharsText(Original(text, m));
    if EditAt(c, text, m).Reversible? {
      EditEntity(c, m, Original(text, m));
      assert RegionItems(c, text, m)[1..] == [];
    }
  }

  lemma {:induction false} LeafHoles(
    c: Context, text: string, pos: int, regions: seq<Match>, reversal: map<string, string>)
    requires Fits(text, pos, regions) && GoodKeys(c) && GoodNames(regions)
    requires forall k :: 0 <= k < |regions| ==> EntryOf(c, text, regions[k], reversal)
    ensures HolesKnown(reversal, LeafItems(c, text, pos, regions))
    decreases |regions|
  {
    if regions != [] {
      var m, rest := regions[0], regions[1..];
      var gap, region, tail := Chars(text[pos..m.start]), RegionItems(c, text, m), LeafItems(c, text, m.end, rest);
      LeafHoles(c, text, m.end, rest, reversal);
      assert EntryOf(c, text, m, reversal);
      RegionHoles(c, text, m, reversal);
      HolesConcat(reversal, region, tail);
      HolesConcat(reversal, gap, region + tail);
    }
  }

  lemma GapEntities(gap: seq<Item>, region: seq<Item>, tail: seq<Item>)
    requires HoleEntities(gap) == []
    ensures HoleEntities(gap + (region + tail)) == HoleEntities(region) + HoleEntities(tail)
    ensures [] + HoleEntities(tail) == HoleEntities(tail)
  {
    HoleEntitiesConcat(region, tail);
    HoleEntitiesConcat(gap, region + tail);
  }

  lemma {:induction false} LeafEntities(c: Context, text: string, pos: int, regions: seq<Match>)
    requires Fits(text, pos, regions) && GoodKeys(c) && GoodNames(regions)
    ensures HoleEntities(LeafItems(c, text, pos, regions)) == ReversedEntities(c, text, regions)
    decreases |regions|
  {
    if regions == [] {
      CharsText(text[pos..]);
    } else {
      var m, rest := regions[0], regions[1..];
      var gap, region, tail := Chars(text[pos..m.start]), RegionItems(c, text, m), LeafItems(c, text, m.end, rest);
      LeafEntities(c, text, m.end, rest);
      RegionEntity(c, text, m);
      CharsText(text[pos..m.start]);
      GapEntities(gap, region, tail);
    }
  }

  ghost predicate EntryOf(c: Context, text: string, m: Match, reversal: map<string, string>) {
    && 0 <= m.start <= m.end <= |text|
    && (EditAt(c, text, m).Reversible? ==>
          EditAt(c, text, m).placeholder in reversal && reversal[EditAt(c, text, m).placeholder] == Original(text, m))
  }

  lemma LeafEntries(c: Context, base: set<Action>, text: string, regions: seq<Match>, all: map<string, string>, k: nat)
    requires InText(text, regions) && LedgerOf(c, base, text, regions).Some? && k < |regions|
    requires Extends(all, LedgerOf(c, base, text, regions).value.reversal)
    ensures EntryOf(c, text, regions[k], all)
  {
    if EditAt(c, text, regions[k]).Reversible? {
      LedgerHolds(c, base, text, regions, k);
    }
  }

  // ---- all leaves, joined by newlines ----

  ghost function ItemsOf(v: Service, nonce: string, i: nat, d: PlanData): seq<Item>
    requires PlanFits(d)
  {
    LeafItems(Context(v.policy, v.ops, nonce, i), d.text, 0, d.effectiveMatches)
  }

  /** Items of the leaves from some index on. */
  ghost function JoinItems(v: Service, nonce: string, ds: seq<PlanData>, i: nat): seq<Item>
    requires AllFit(ds) && i <= |ds|
    decreases |ds| - i
  {
    if i == |ds| then []
    else if i == |ds| - 1 then ItemsOf(v, nonce, i, ds[i])
    else ItemsOf(v, nonce, i, ds[i]) + ([Ch('\n')] + JoinItems(v, nonce, ds, i + 1))
  }

  ghost function AllReversed(v: Service, nonce: string, ds: seq<PlanData>, i: nat): seq<string>
    requires AllFit(ds) && i <= |ds|
    decreases |ds| - i
  {
    if i == |ds| then []
    else ReversedEntities(Context(v.policy, v.ops, nonce, i), ds[i].text, ds[i].effectiveMatches) +
         AllReversed(v, nonce, ds, i + 1)
  }

  lemma JoinedFrom(segments: seq<Segment>, i: nat)
    requires i < |segments|
    ensures Joined(segments[i..]) == if i == |segments| - 1 then segments[i].text
            else segments[i].text + "\n" + Joined(segments[i + 1..])
  {
    assert segments[i..][1..] == segments[i + 1..];
  }

  /** The joined items render to the transformed text and stand for the original text. */
  lemma {:induction false} JoinText(
    v: Service, nonce: string, ds: seq<PlanData>, olds: seq<Segment>, news: seq<Segment>, i: nat)
    requires AllFit(ds) && |olds| == |news| == |ds| && i <= |ds|
    requires forall k :: 0 <= k < |ds| ==>
               UndoableRegions(v.policy, ds[k].effectiveMatches) && olds[k].text == ds[k].text
    requires forall k :: 0 <= k < |ds| ==>
               news[k].text == Splice(Context(v.policy, v.ops, nonce, k), ds[k].text, 0, ds[k].effectiveMatches)
    ensures Render(JoinItems(v, nonce, ds, i)) == Joined(news[i..])
    ensures Plain(JoinItems(v, nonce, ds, i)) == Joined(olds[i..])
    decreases |ds| - i
  {
    if i < |ds| {
      var items := ItemsOf(v, nonce, i, ds[i]);
      LeafText(Context(v.policy, v.ops, nonce, i), ds[i].text, 0, ds[i].effectiveMatches);
      LeafPlain(Context(v.policy, v.ops, nonce, i), ds[i].text, 0, ds[i].effectiveMatches);
      assert ds[i].text[0..] == ds[i].text;
      JoinedFrom(olds, i);
      JoinedFrom(news, i);
      if i < |ds| - 1 {
        JoinText(v, nonce, ds, olds, news, i + 1);
        JoinRender(items, JoinItems(v, nonce, ds, i + 1));
        JoinPlain(items, JoinItems(v, nonce, ds, i + 1));
      }
    }
  }

  lemma JoinRender(items: seq<Item>, rest: seq<Item>)
    ensures Render(items + ([Ch('\n')] + rest)) == Render(items) + "\n" + Render(rest)
  {
    RenderConcat(items, [Ch('\n')] + rest);
    assert ([Ch('\n')] + rest)[1..] == rest;
    Associates(Render(items), "\n", Render(rest));
  }

  lemma JoinPlain(items: seq<Item>, rest: seq<Item>)
    ensures Plain(items + ([Ch('\n')] + rest)) == Plain(items) + "\n" + Plain(rest)
  {
    PlainConcat(items, [Ch('\n')] + rest);
    assert ([Ch('\n')] + rest)[1..] == rest;
    Associates(Plain(items), "\n", Plain(rest));
  }

  lemma JoinEntities(items: seq<Item>, rest: seq<Item>)
    ensures HoleEntities(items + ([Ch('\n')] + rest)) == HoleEntities(items) + HoleEntities(rest)
  {
    HoleEntitiesConcat(items, [Ch('\n')] + rest);
    assert ([Ch('\n')] + rest)[1..] == rest;
  }

  lemma {:induction false} JoinHoles(
    v: Service, nonce: string, ds: seq<PlanData>, reversal: map<string, string>, i: nat)
    requires AllFit(ds) && i <= |ds|
    requires forall k :: 0 <= k < |ds| ==>
               && HolesKnown(reversal, ItemsOf(v, nonce, k, ds[k]))
               && HoleEntities(ItemsOf(v, nonce, k, ds[k])) ==
                 ReversedEntities(Context(v.policy, v.ops, nonce, k), ds[k].text, ds[k].effectiveMatches)
    ensures HolesKnown(reversal, JoinItems(v, nonce, ds, i))
    ensures HoleEntities(JoinItems(v, nonce, ds, i)) == AllReversed(v, nonce, ds, i)
    decreases |ds| - i
  {
    if i < |ds| {
      var items, rest := ItemsOf(v, nonce, i, ds[i]), JoinItems(v, nonce, ds, i + 1);
      JoinHoles(v, nonce, ds, reversal, i + 1);
      if i < |ds| - 1 {
        JoinEntities(items, rest);
        HolesConcat(reversal, [Ch('\n')], rest);
        HolesConcat(reversal, items, [Ch('\n')] + rest);
      } else {
        assert HoleEntities(items) + [] == HoleEntities(items);
      }
    }
  }

  /** The merged reversal map extends every leaf's. */
  lemma {:induction false} MergedExtends(v: Service, nonce: string, ds: seq<PlanData>, i: nat)
    requires AllFit(ds) && TransformAll(v, nonce, ds).Some? && i < |ds|
    ensures |TransformAll(v, nonce, ds).value.0| == |ds|
    ensures Extends(TransformAll(v, nonce, ds).value.1, TransformAll(v, nonce, ds).value.0[i].reversal)
  {
    var n := |ds| - 1;
    TransformAllLength(v, nonce, ds);
    TransformAllLength(v, nonce, ds[..n]);
    if i < n {
      MergedExtends(v, nonce, ds[..n], i);
    }
  }

  lemma LeafRestores(v: Service, nonce: string, ds: seq<PlanData>, i: nat)
    requires AllFit(ds) && TransformAll(v, nonce, ds).Some? && i < |ds| && Hex16(nonce)
    requires (forall n, e, x :: Hex16(v.ops.digest(n, e, x))) && GoodNames(ds[i].effectiveMatches)
    ensures HolesKnown(TransformAll(v, nonce, ds).value.1, ItemsOf(v, nonce, i, ds[i]))
    ensures HoleEntities(ItemsOf(v, nonce, i, ds[i])) ==
              ReversedEntities(Context(v.policy, v.ops, nonce, i), ds[i].text, ds[i].effectiveMatches)
  {
    var c, d := Context(v.policy, v.ops, nonce, i), ds[i];
    var all := TransformAll(v, nonce, ds).value.1;
    TransformAllEach(v, nonce, ds, i);
    MergedExtends(v, nonce, ds, i);
    forall k | 0 <= k < |d.effectiveMatches| ensures EntryOf(c, d.text, d.effectiveMatches[k], all) {
      LeafEntries(c, d.appliedActions, d.text, d.effectiveMatches, all, k);
    }
    LeafHoles(c, d.text, 0, d.effectiveMatches, all);
    LeafEntities(c, d.text, 0, d.effectiveMatches);
  }

  lemma OccursIffContains(text: string, part: string)
    ensures OccursIn(text, part) <==> Contains(text, part)
  {
    if i :| 0 <= i <= |text| && part <= text[i..] {
      assert text[i..i + |part|] == part;
      assert OccursAt(text, part, i);
    }
    if i :| OccursAt(text, part, i) {
      assert part <= text[i..];
    }
  }

  // ---- the round trip ----

  /** The echo of transformed segments, as the simulation builds it. */
  function Echo(segments: seq<Segment>): string {
    SIMULATION_PREFIX + "\n" + Joined(segments)
  }

  lemma PrefixHasNoAngle()
    ensures forall i :: 0 <= i < |SIMULATION_PREFIX + "\n"| ==> (SIMULATION_PREFIX + "\n")[i] != '<'
  {
  }

  lemma RestoreEcho(reversal: map<string, string>, items: seq<Item>, olds: seq<Segment>, news: seq<Segment>)
    requires HolesKnown(reversal, items) && !Collides(olds, reversal)
    requires Render(items) == Joined(news) && Plain(items) == Joined(olds)
    ensures Substitute(reversal, Echo(news)) == Echo(olds)
    ensures RestoredEntities(reversal, Echo(news)) == HoleEntities(items)
  {
    forall key | key in reversal ensures !Contains(Plain(items), key) {
      OccursIffContains(Joined(olds), key);
    }
    RestoreItems(reversal, items);
    PrefixHasNoAngle();
    SubstitutePrefix(reversal, SIMULATION_PREFIX + "\n", Render(items));
  }

  /** Detectors name entities as the placeholder grammar allows. */
  ghost predicate Nameable(found: seq<seq<Match>>) {
    forall i, j :: 0 <= i < |found| && 0 <= j < |found[i]| ==> EntityName(found[i][j].entity)
  }

  lemma PlanNames(v: Service, rab: bool, segments: seq<Segment>, found: seq<seq<Match>>, i: nat)
    requires |segments| == |found| && AllValid(segments, found) && Nameable(found) && i < |segments|
    ensures GoodNames(Plans(v.policy, rab, segments, found)[i].effectiveMatches)
  {
    var rs := Plans(v.policy, rab, segments, found)[i].effectiveMatches;
    forall k | 0 <= k < |rs| ensures EntityName(rs[k].entity) {
      var j := Prepare.LevelDown(v.policy, rab, found[i], k, |segments[i].text|);
      assert EntityName(found[i][j].entity);
    }
  }

  ghost predicate AllUndoable(v: Service, r: SegmentRequest, found: seq<seq<Match>>)
    requires |found| == |r.segments|
  {
    forall i :: 0 <= i < |r.segments| ==> UndoableRegions(v.policy, EffectiveOf(v.policy, r.kind == Mcp, found[i]))
  }

  /** What restoring needs to know about one leaf and its new text. */
  ghost predicate LeafReady(
    v: Service, nonce: string, k: nat, d: PlanData, newText: string, reversal: map<string, string>)
    requires PlanFits(d)
  {
    && UndoableRegions(v.policy, d.effectiveMatches)
    && newText == Splice(Context(v.policy, v.ops, nonce, k), d.text, 0, d.effectiveMatches)
    && HolesKnown(reversal, ItemsOf(v, nonce, k, d))
    && HoleEntities(ItemsOf(v, nonce, k, d)) ==
      ReversedEntities(Context(v.policy, v.ops, nonce, k), d.text, d.effectiveMatches)
  }

  ghost predicate AllReady(
    v: Service, nonce: string, ds: seq<PlanData>, news: seq<Segment>, reversal: map<string, string>)
    requires AllFit(ds) && |news| == |ds|
  {
    forall k :: 0 <= k < |ds| ==> LeafReady(v, nonce, k, ds[k], news[k].text, reversal)
  }

  lemma LeafIsReady(v: Service, nonce: string, ds: seq<PlanData>, segments: seq<Segment>, k: nat)
    requires AllFit(ds) && |ds| == |segments| && TransformAll(v, nonce, ds).Some? && k < |ds| && Hex16(nonce)
    requires (forall n, e, x :: Hex16(v.ops.digest(n, e, x))) && GoodNames(ds[k].effectiveMatches)
    requires UndoableRegions(v.policy, ds[k].effectiveMatches)
    ensures |TransformAll(v, nonce, ds).value.0| == |ds|
    ensures LeafReady(v, nonce, k, ds[k], NewSegments(segments, TransformAll(v, nonce, ds).value.0)[k].text,
              TransformAll(v, nonce, ds).value.1)
  {
    TransformAllEach(v, nonce, ds, k);
    LeafRestores(v, nonce, ds, k);
  }

  lemma RestoreReady(
    v: Service, nonce: string, ds: seq<PlanData>, olds: seq<Segment>, news: seq<Segment>,
    reversal: map<string, string>)
    requires AllFit(ds) && |olds| == |news| == |ds| && AllReady(v, nonce, ds, news, reversal)
    requires !Collides(olds, reversal)
    requires forall k :: 0 <= k < |ds| ==> olds[k].text == ds[k].text
    ensures Substitute(reversal, Echo(news)) == Echo(olds)
    ensures RestoredEntities(reversal, Echo(news)) == AllReversed(v, nonce, ds, 0)
  {
    forall k | 0 <= k < |ds| ensures LeafReady(v, nonce, k, ds[k], news[k].text, reversal) {}
    JoinText(v, nonce, ds, olds, news, 0);
    JoinHoles(v, nonce, ds, reversal, 0);
    assert news[0..] == news && olds[0..] == olds;
    RestoreEcho(reversal, JoinItems(v, nonce, ds, 0), olds, news);
  }

  /** What one request's leaves are planned to be, transformed without a conflict. */
  ghost predicate Rewritten(v: Service, segments: seq<Segment>, rab: bool, found: seq<seq<Match>>, nonce: string) {
    && |segments| == |found|
    && var ds := Plans(v.policy, rab, segments, found);
       AllFit(ds) && TransformAll(v, nonce, ds).Some? && !Collides(segments, TransformAll(v, nonce, ds).value.1)
  }

  lemma PlansReady(v: Service, rab: bool, segments: seq<Segment>, found: seq<seq<Match>>, nonce: string)
    requires ValidService(v) && Rewritten(v, segments, rab, found, nonce) && AllValid(segments, found)
    requires Nameable(found) && Hex16(nonce)
    requires forall i :: 0 <= i < |segments| ==> UndoableRegions(v.policy, EffectiveOf(v.policy, rab, found[i]))
    ensures var ds := Plans(v.policy, rab, segments, found); var both := TransformAll(v, nonce, ds).value;
            |both.0| == |segments| && AllReady(v, nonce, ds, NewSegments(segments, both.0), both.1)
  {
    var ds := Plans(v.policy, rab, segments, found);
    var both := TransformAll(v, nonce, ds).value;
    TransformAllLength(v, nonce, ds);
    forall k | 0 <= k < |ds| ensures LeafReady(v, nonce, k, ds[k], NewSegments(segments, both.0)[k].text, both.1) {
      PlanNames(v, rab, segments, found, k);
      LeafIsReady(v, nonce, ds, segments, k);
    }
  }

  /** Planned and transformed leaves restore to the original text, and exactly the replaced regions are restored. */
  lemma RestoreLeaves(v: Service, rab: bool, segments: seq<Segment>, found: seq<seq<Match>>, nonce: string)
    requires ValidService(v) && Rewritten(v, segments, rab, found, nonce) && AllValid(segments, found)
    requires Nameable(found) && Hex16(nonce)
    requires forall i :: 0 <= i < |segments| ==> UndoableRegions(v.policy, EffectiveOf(v.policy, rab, found[i]))
    ensures var ds := Plans(v.policy, rab, segments, found); var both := TransformAll(v, nonce, ds).value;
            && |both.0| == |segments|
            && Substitute(both.1, Echo(NewSegments(segments, both.0))) == Echo(segments)
            && RestoredEntities(both.1, Echo(NewSegments(segments, both.0))) == AllReversed(v, nonce, ds, 0)
  {
    PlansReady(v, rab, segments, found, nonce);
    var ds := Plans(v.policy, rab, segments, found);
    var both := TransformAll(v, nonce, ds).value;
    RestoreReady(v, nonce, ds, segments, NewSegments(segments, both.0), both.1);
  }

  lemma CutFront(s: string, j: nat)
    requires j <= |s|
    ensures s == s[..j] + s[j..]
  {
  }

  lemma {:induction false} SubstituteNothing(s: string)
    ensures Substitute(map[], s) == s
    decreases |s|
  {
    if s != [] {
      var end := MatchAt(s);
      if end.Some? {
        SubstituteNothing(s[end.value..]);
        ScanMatch(map[], s, end.value);
        CutFront(s, end.value);
      } else {
        SubstituteNothing(s[1..]);
        ScanChar(map[], s);
        CutFront(s, 1);
      }
    }
  }

  ghost predicate Echoes(w: Result, segments: seq<Segment>) {
    w.segments.Some? && Substitute(w.reversal, Echo(w.segments.value)) == Echo(segments)
  }

  /** A decision that does not block forwards the rewritten segments with the merged reversal map. */
  lemma DecideForwards(v: Service, r: SegmentRequest, ds: seq<PlanData>, nonce: string, faceRoute: Option<string>)
    requires AllFit(ds) && |ds| == |r.segments|
    requires Decide(v, r, ds, nonce, faceRoute).Ok? && Decide(v, r, ds, nonce, faceRoute).value.decision != Blocked
    ensures TransformAll(v, nonce, ds).Some?
    ensures var w, both := Decide(v, r, ds, nonce, faceRoute).value, TransformAll(v, nonce, ds).value;
            && |both.0| == |r.segments| && !Collides(r.segments, both.1)
            && w.segments == Some(NewSegments(r.segments, both.0)) && w.reversal == both.1
  {
    TransformAllLength(v, nonce, ds);
    DecideCases(v, r, ds, nonce, faceRoute);
  }

  lemma AnalyzeTextEchoes(
    v: Service, r: SegmentRequest, found: seq<seq<Match>>, nonce: string, faceRoute: Option<string>)
    requires ValidService(v) && |found| == |r.segments| && Nameable(found) && Hex16(nonce) && AllUndoable(v, r, found)
    requires AnalyzeText(v, r, found, nonce, faceRoute).Ok?
    requires AnalyzeText(v, r, found, nonce, faceRoute).value.decision != Blocked
    ensures Echoes(AnalyzeText(v, r, found, nonce, faceRoute).value, r.segments)
  {
    PreparedFits(v.policy, r.kind == Mcp, r.segments, found);
    DecideForwards(v, r, Plans(v.policy, r.kind == Mcp, r.segments, found), nonce, faceRoute);
    RestoreLeaves(v, r.kind == Mcp, r.segments, found, nonce);
  }

  lemma UnchangedEchoes(w: Result, segments: seq<Segment>)
    requires w.segments == Some(segments) && w.reversal == map[]
    ensures Echoes(w, segments)
  {
    SubstituteNothing(Echo(segments));
  }

  lemma FacesKeepText(p: PolicySettings, w: Result, count: nat, faceRoute: Option<string>)
    ensures WithFaces(p, w, count, faceRoute).segments == w.segments
    ensures WithFaces(p, w, count, faceRoute).reversal == w.reversal
    ensures WithFaces(p, w, count, faceRoute).decision != Blocked ==> w.decision != Blocked
  {
    WithFacesFaced(p, w, count, faceRoute);
  }

  lemma VisualKeepsText(p: PolicySettings, w: Result, r: SegmentRequest, faceRoute: Option<string>)
    ensures WithVisual(p, w, r, faceRoute).segments == w.segments
    ensures WithVisual(p, w, r, faceRoute).reversal == w.reversal
    ensures WithVisual(p, w, r, faceRoute).decision != Blocked ==> w.decision != Blocked
  {
    if r.visual.Some? {
      FacesKeepText(p, w, FaceCount(r.visual.value), faceRoute);
    }
  }

  lemma EarlyForwards(v: Service, r: SegmentRequest, found: seq<seq<Match>>, nonce: string)
    requires |found| == |r.segments| && BeforeVisual(v, r, found, nonce).Ok?
    requires BeforeVisual(v, r, found, nonce).value.decision != Blocked
    requires Preflight(v, r).value.Some? || (r.visual.Some? && !r.textPiiEnabled)
    ensures BeforeVisual(v, r, found, nonce).value.segments == Some(r.segments)
    ensures BeforeVisual(v, r, found, nonce).value.reversal == map[]
  {
  }

  lemma BeforeVisualEchoes(v: Service, r: SegmentRequest, found: seq<seq<Match>>, nonce: string)
    requires ValidService(v) && ValidRequest(r) && |found| == |r.segments| && Nameable(found) && Hex16(nonce)
    requires AllUndoable(v, r, found)
    requires BeforeVisual(v, r, found, nonce).Ok? && BeforeVisual(v, r, found, nonce).value.decision != Blocked
    ensures Echoes(BeforeVisual(v, r, found, nonce).value, r.segments)
  {
    if Preflight(v, r).value.None? && !(r.visual.Some? && !r.textPiiEnabled) {
      AnalyzeTextEchoes(v, r, found, nonce, FaceRoute(v.policy, r));
    } else {
      EarlyForwards(v, r, found, nonce);
      UnchangedEchoes(BeforeVisual(v, r, found, nonce).value, r.segments);
    }
  }

  /**
   * The simulation of every request that is not blocked and whose effective regions are undoable
   * returns the original joined text exactly.
   */
  lemma RestoreUndoesTransform(v: Service, r: SegmentRequest, found: seq<seq<Match>>, nonce: string)
    requires ValidService(v) && ValidRequest(r) && |found| == |r.segments| && Nameable(found) && Hex16(nonce)
    requires AllUndoable(v, r, found)
    requires AnalyzeSegments(v, r, found, nonce).Ok? && AnalyzeSegments(v, r, found, nonce).value.decision != Blocked
    ensures Echoes(AnalyzeSegments(v, r, found, nonce).value, r.segments)
  {
    VisualKeepsText(v.policy, BeforeVisual(v, r, found, nonce).value, r, FaceRoute(v.policy, r));
    BeforeVisualEchoes(v, r, found, nonce);
  }

  /** What evaluating a candidate policy shows: nothing for a block, else the echo and what restoring made of it. */
  datatype Simulation =
    | Skipped
    | Completed(modelResponse: string, userResponse: string, restoredCounts: map<string, int>)

  method SimulateResult(w: Result) returns (s: Option<Simulation>)
    ensures s.None? <==> w.decision != Blocked && w.segments.None?
    ensures w.decision == Blocked ==> s == Some(Skipped)
    ensures w.decision != Blocked && w.segments.Some? ==>
              s == Some(Completed(Echo(w.segments.value), Substitute(w.reversal, Echo(w.segments.value)),
                                  Tally(RestoredEntities(w.reversal, Echo(w.segments.value)))))
  {
    if w.decision == Blocked {
      return Some(Skipped);
    }
    if w.segments.None? {
      return None;
    }
    var user, counts := Simulate(w.reversal, Echo(w.segments.value));
    s := Some(Completed(Echo(w.segments.value), user, counts));
  }
}
