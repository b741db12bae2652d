/** When a request that is not blocked is refused: exactly over ambiguous or foreign placeholders. */
module Refusal {
  import opened PolicyConfig
  import opened Matches
  import opened Rewrite
  import opened Planner
  import opened Contracts
  import opened Policy
  import opened Verdict
  import opened RoundTrip

  function LeafContext(v: Service, nonce: string, i: nat): Context { Context(v.policy, v.ops, nonce, i) }

  /** Region k of leaf i is replaced by this placeholder, which stands for this text. */
  ghost predicate StandsAt(v: Service, nonce: string, ds: seq<PlanData>, i: int, k: int, ph: string, x: string)
    requires AllFit(ds)
  {
    && 0 <= i < |ds| && 0 <= k < |ds[i].effectiveMatches|
    && PlanFits(ds[i])
    && EditAt(LeafContext(v, nonce, i), ds[i].text, ds[i].effectiveMatches[k]) == Reversible(ph)
    && Original(ds[i].text, ds[i].effectiveMatches[k]) == x
  }

  /** Somewhere in the request this placeholder stands for this text. */
  ghost predicate StandsFor(v: Service, nonce: string, ds: seq<PlanData>, ph: string, x: string)
    requires AllFit(ds)
  {
    exists i, k :: StandsAt(v, nonce, ds, i, k, ph, x)
  }

  /** Some placeholder would stand for two texts. */
  ghost predicate Ambiguous(v: Service, nonce: string, ds: seq<PlanData>)
    requires AllFit(ds)
  {
    exists ph, x, y :: x != y && StandsFor(v, nonce, ds, ph, x) && StandsFor(v, nonce, ds, ph, y)
  }

  /** Some placeholder already occurs in the request. */
  ghost predicate Foreign(v: Service, nonce: string, ds: seq<PlanData>, segments: seq<Segment>)
    requires AllFit(ds)
  {
    exists ph, x :: StandsFor(v, nonce, ds, ph, x) && OccursIn(Joined(segments), ph)
  }

  // ---- one leaf ----

  /** A leaf whose ledger fails has two regions with one placeholder and different texts. */
  lemma {:induction false} LedgerConflict(c: Context, base: set<Action>, text: string, regions: seq<Match>)
    returns (j: nat, k: nat)
    requires InText(text, regions) && LedgerOf(c, base, text, regions).None?
    ensures j < |regions| && k < |regions| && EditAt(c, text, regions[j]).Reversible?
    ensures EditAt(c, text, regions[j]) == EditAt(c, text, regions[k])
    ensures Original(text, regions[j]) != Original(text, regions[k])
    decreases |regions|
  {
    var rest := regions[1..];
    if LedgerOf(c, base, text, rest).None? {
      j, k := LedgerConflict(c, base, text, rest);
      j, k := j + 1, k + 1;
    } else {
      var ph := EditAt(c, text, regions[0]).placeholder;
      j := 0;
      k := LedgerSource(c, base, text, rest, ph);
      LedgerHolds(c, base, text, rest, k);
      k := k + 1;
    }
  }

  // ---- all leaves ----

  lemma StandsInFront(v: Service, nonce: string, ds: seq<PlanData>, n: nat, ph: string, x: string)
    requires AllFit(ds) && n <= |ds| && StandsFor(v, nonce, ds[..n], ph, x)
    ensures StandsFor(v, nonce, ds, ph, x)
  {
    var i: int, k: int :| StandsAt(v, nonce, ds[..n], i, k, ph, x);
    assert StandsAt(v, nonce, ds, i, k, ph, x);
  }

  /** What stands for a text is in the merged map with that text. */
  lemma MapHolds(v: Service, nonce: string, ds: seq<PlanData>, ph: string, x: string)
    requires AllFit(ds) && TransformAll(v, nonce, ds).Some? && StandsFor(v, nonce, ds, ph, x)
    ensures ph in TransformAll(v, nonce, ds).value.1 && TransformAll(v, nonce, ds).value.1[ph] == x
  {
    var i: int, k: int :| StandsAt(v, nonce, ds, i, k, ph, x);
    TransformAllEach(v, nonce, ds, i);
    MergedExtends(v, nonce, ds, i);
    LedgerHolds(LeafContext(v, nonce, i), ds[i].appliedActions, ds[i].text, ds[i].effectiveMatches, k);
  }

  lemma LeafStands(v: Service, nonce: string, ds: seq<PlanData>, i: nat, ph: string)
    requires AllFit(ds) && i < |ds| && TransformOne(LeafContext(v, nonce, i), ds[i]).Some?
    requires ph in TransformOne(LeafContext(v, nonce, i), ds[i]).value.reversal
    ensures StandsFor(v, nonce, ds, ph, TransformOne(LeafContext(v, nonce, i), ds[i]).value.reversal[ph])
  {
    var c, d := LeafContext(v, nonce, i), ds[i];
    var k := LedgerSource(c, d.appliedActions, d.text, d.effectiveMatches, ph);
    LedgerHolds(c, d.appliedActions, d.text, d.effectiveMatches, k);
    assert StandsAt(v, nonce, ds, i, k, ph, Original(d.text, d.effectiveMatches[k]));
  }

  /** Every entry of the merged map stands for its text somewhere. */
  lemma {:induction false} MapSource(v: Service, nonce: string, ds: seq<PlanData>, ph: string)
    requires AllFit(ds) && TransformAll(v, nonce, ds).Some? && ph in TransformAll(v, nonce, ds).value.1
    ensures StandsFor(v, nonce, ds, ph, TransformAll(v, nonce, ds).value.1[ph])
    decreases |ds|
  {
    var n := |ds| - 1;
    var front, last := TransformAll(v, nonce, ds[..n]).value, TransformOne(LeafContext(v, nonce, n), ds[n]).value;
    if ph in last.reversal {
      LeafStands(v, nonce, ds, n, ph);
    } else {
      MapSource(v, nonce, ds[..n], ph);
      StandsInFront(v, nonce, ds, n, ph, front.1[ph]);
    }
  }

  lemma FrontAmbiguous(v: Service, nonce: string, ds: seq<PlanData>, n: nat)
    requires AllFit(ds) && n <= |ds| && Ambiguous(v, nonce, ds[..n])
    ensures Ambiguous(v, nonce, ds)
  {
    var ph, x, y :| x != y && StandsFor(v, nonce, ds[..n], ph, x) && StandsFor(v, nonce, ds[..n], ph, y);
    StandsInFront(v, nonce, ds, n, ph, x);
    StandsInFront(v, nonce, ds, n, ph, y);
  }

  lemma LeafAmbiguous(v: Service, nonce: string, ds: seq<PlanData>, i: nat)
    requires AllFit(ds) && i < |ds| && TransformOne(LeafContext(v, nonce, i), ds[i]).None?
    ensures Ambiguous(v, nonce, ds)
  {
    var c, d := LeafContext(v, nonce, i), ds[i];
    var j, k := LedgerConflict(c, d.appliedActions, d.text, d.effectiveMatches);
    var ph := EditAt(c, d.text, d.effectiveMatches[j]).placeholder;
    var x, y := Original(d.text, d.effectiveMatches[j]), Original(d.text, d.effectiveMatches[k]);
    assert StandsAt(v, nonce, ds, i, j, ph, x) && StandsAt(v, nonce, ds, i, k, ph, y);
    assert StandsFor(v, nonce, ds, ph, x) && StandsFor(v, nonce, ds, ph, y);
  }

  /** The one placeholder that keeps a transformed leaf from joining the earlier ones. */
  lemma MergeFails(v: Service, nonce: string, ds: seq<PlanData>) returns (ph: string)
    requires AllFit(ds) && ds != [] && TransformAll(v, nonce, ds[..|ds| - 1]).Some?
    requires TransformOne(LeafContext(v, nonce, |ds| - 1), ds[|ds| - 1]).Some? && TransformAll(v, nonce, ds).None?
    ensures var front := TransformAll(v, nonce, ds[..|ds| - 1]).value.1;
            var last := TransformOne(LeafContext(v, nonce, |ds| - 1), ds[|ds| - 1]).value.reversal;
            ph in front && ph in last && front[ph] != last[ph]
  {
    var front := TransformAll(v, nonce, ds[..|ds| - 1]).value.1;
    var last := TransformOne(LeafContext(v, nonce, |ds| - 1), ds[|ds| - 1]).value.reversal;
    ph :| ph in last && ph in front && front[ph] != last[ph];
  }

  lemma MergeAmbiguous(v: Service, nonce: string, ds: seq<PlanData>)
    requires AllFit(ds) && ds != [] && TransformAll(v, nonce, ds[..|ds| - 1]).Some?
    requires TransformOne(LeafContext(v, nonce, |ds| - 1), ds[|ds| - 1]).Some? && TransformAll(v, nonce, ds).None?
    ensures Ambiguous(v, nonce, ds)
  {
    var n := |ds| - 1;
    var ph := MergeFails(v, nonce, ds);
    MapSource(v, nonce, ds[..n], ph);
    StandsInFront(v, nonce, ds, n, ph, TransformAll(v, nonce, ds[..n]).value.1[ph]);
    LeafStands(v, nonce, ds, n, ph);
  }

  lemma {:induction false} FailureIsAmbiguous(v: Service, nonce: string, ds: seq<PlanData>)
    requires AllFit(ds) && TransformAll(v, nonce, ds).None?
    ensures Ambiguous(v, nonce, ds)
    decreases |ds|
  {
    var n := |ds| - 1;
    if TransformAll(v, nonce, ds[..n]).None? {
      FailureIsAmbiguous(v, nonce, ds[..n]);
      FrontAmbiguous(v, nonce, ds, n);
    } else if TransformOne(LeafContext(v, nonce, n), ds[n]).None? {
      LeafAmbiguous(v, nonce, ds, n);
    } else {
      MergeAmbiguous(v, nonce, ds);
    }
  }

  /** The leaves transform exactly when no placeholder is ambiguous; the map then says what each stands for. */
  lemma TransformsUnlessAmbiguous(v: Service, nonce: string, ds: seq<PlanData>)
    requires AllFit(ds)
    ensures TransformAll(v, nonce, ds).Some? <==> !Ambiguous(v, nonce, ds)
    ensures TransformAll(v, nonce, ds).Some? ==>
              var reversal := TransformAll(v, nonce, ds).value.1;
              forall ph, x :: StandsFor(v, nonce, ds, ph, x) <==> ph in reversal && reversal[ph] == x
  {
    if TransformAll(v, nonce, ds).None? {
      FailureIsAmbiguous(v, nonce, ds);
    } else {
      var reversal := TransformAll(v, nonce, ds).value.1;
      forall ph, x ensures StandsFor(v, nonce, ds, ph, x) <==> ph in reversal && reversal[ph] == x {
        if StandsFor(v, nonce, ds, ph, x) {
          MapHolds(v, nonce, ds, ph, x);
        }
        if ph in reversal && reversal[ph] == x {
          MapSource(v, nonce, ds, ph);
        }
      }
    }
  }

  lemma CollidesIffForeign(v: Service, nonce: string, ds: seq<PlanData>, segments: seq<Segment>)
    requires AllFit(ds) && TransformAll(v, nonce, ds).Some?
    ensures Collides(segments, TransformAll(v, nonce, ds).value.1) <==> Foreign(v, nonce, ds, segments)
  {
    var reversal := TransformAll(v, nonce, ds).value.1;
    TransformsUnlessAmbiguous(v, nonce, ds);
    if Collides(segments, reversal) {
      var ph :| ph in reversal && OccursIn(Joined(segments), ph);
      assert StandsFor(v, nonce, ds, ph, reversal[ph]);
    }
  }

  /**
   * A request that is not blocked is refused exactly when one of its placeholders would stand for two
   * texts or already occurs in the request, the first being reported before the second.
   */
  lemma RefusedExactly(v: Service, r: SegmentRequest, ds: seq<PlanData>, nonce: string, faceRoute: Option<string>)
    requires AllFit(ds) && |ds| == |r.segments| && !Blocks(v.policy, ds, faceRoute)
    ensures Decide(v, r, ds, nonce, faceRoute) == Raised(ReversalConflict) <==> Ambiguous(v, nonce, ds)
    ensures Decide(v, r, ds, nonce, faceRoute) == Raised(PlaceholderCollision) <==>
              !Ambiguous(v, nonce, ds) && Foreign(v, nonce, ds, r.segments)
    ensures Decide(v, r, ds, nonce, faceRoute).Ok? <==> !Ambiguous(v, nonce, ds) && !Foreign(v, nonce, ds, r.segments)
  {
    TransformsUnlessAmbiguous(v, nonce, ds);
    TransformAllLength(v, nonce, ds);
    if TransformAll(v, nonce, ds).Some? {
      CollidesIffForeign(v, nonce, ds, r.segments);
    }
  }
}
