/** One edit per effective region, and the left-to-right text the edits describe. */
module Rewrite {
  import opened PolicyConfig
  import opened Matches
  import opened Regions
  import opened Prepare

  /**
   * Keyed and cryptographic operations, as functions of what they are given. The leaf index and the
   * match let a randomised cipher or a moving hash window differ from region to region.
   */
  datatype Operators = Operators(
    anonymize: (nat, Action, Match, string) -> string,
    hash: (nat, Match, string) -> string,
    digest: (string, string, string) -> string)

  /** What one leaf is transformed under. */
  datatype Context = Context(policy: PolicySettings, ops: Operators, nonce: string, leaf: nat)

  datatype Edit = Keep | Irreversible(text: string) | Reversible(placeholder: string)

  function Placeholder(prefix: string, entity: string, nonce: string, digest: string): string {
    "<" + prefix + "_" + entity + "_" + nonce + "_" + digest + ">"
  }

  /** The anonymizer's contract: the complete text with only the span replaced. */
  function ApplyOperator(ops: Operators, leaf: nat, text: string, m: Match, action: Action): string
    requires 0 <= m.start <= m.end <= |text|
  {
    text[..m.start] + ops.anonymize(leaf, action, m, text[m.start..m.end]) + text[m.end..]
  }

  function EditOf(c: Context, m: Match, original: string): Edit {
    var action := Configured(c.policy, m.entity);
    if action in {Pass, Block} || (action == Reroute && !c.policy.maskOnReroute) then Keep
    else if action == ReversibleReplace then
      Reversible(Placeholder("REV", m.entity, c.nonce, c.ops.digest(c.nonce, m.entity, original)))
    else if action == Hash then Irreversible(c.ops.hash(c.leaf, m, original))
    else if action == Encrypt then
      var cipher := c.ops.anonymize(c.leaf, Encrypt, m, original);
      Reversible(Placeholder("ENCRYPTED", m.entity, c.nonce, c.ops.digest(c.nonce, m.entity, cipher)))
    else Irreversible(c.ops.anonymize(c.leaf, if action == Reroute then Mask else action, m, original))
  }

  function Output(edit: Edit, original: string): string {
    match edit
    case Keep => original
    case Irreversible(t) => t
    case Reversible(ph) => ph
  }

  /** Regions in order, disjoint and inside the text after position pos. */
  ghost predicate Fits(text: string, pos: int, regions: seq<Match>) {
    && 0 <= pos <= |text|
    && (forall k :: 0 <= k < |regions| ==> pos <= regions[k].start < regions[k].end <= |text|)
    && (forall j, k :: 0 <= j < k < |regions| ==> regions[j].end <= regions[k].start)
  }

  ghost function Original(text: string, m: Match): string
    requires 0 <= m.start <= m.end <= |text|
  {
    text[m.start..m.end]
  }

  ghost function EditAt(c: Context, text: string, m: Match): Edit
    requires 0 <= m.start <= m.end <= |text|
  {
    EditOf(c, m, Original(text, m))
  }

  /** The left-to-right splice: untouched gaps of the original text, and one output per region. */
  ghost function Splice(c: Context, text: string, pos: int, regions: seq<Match>): string
    requires Fits(text, pos, regions)
    decreases |regions|
  {
    if regions == [] then text[pos..]
    else
      var m := regions[0];
      text[pos..m.start] + (Output(EditAt(c, text, m), Original(text, m)) + Splice(c, text, m.end, regions[1..]))
  }

  lemma Associates(a: string, b: string, c: string)
    ensures (a + b) + c == a + (b + c)
  {
  }

  /** The gap in front of the first region can be taken off in pieces. */
  lemma SpliceShift(c: Context, text: string, pos: int, pos': int, regions: seq<Match>)
    requires 0 <= pos <= pos' && Fits(text, pos', regions) && Fits(text, pos, regions)
    ensures Splice(c, text, pos, regions) == text[pos..pos'] + Splice(c, text, pos', regions)
  {
    if regions == [] {
      assert text[pos..] == text[pos..pos'] + text[pos'..];
    } else {
      var m := regions[0];
      var tail := Output(EditAt(c, text, m), Original(text, m)) + Splice(c, text, m.end, regions[1..]);
      assert text[pos..m.start] == text[pos..pos'] + text[pos'..m.start];
      Associates(text[pos..pos'], text[pos'..m.start], tail);
    }
  }

  // ---- what stands in place of each region ----

  /** The text that a region with this configured action comes to. */
  ghost predicate Becomes(c: Context, action: Action, m: Match, original: string, x: string) {
    match action
    case Pass => x == original
    case Block => x == original
    case Reroute => x == if c.policy.maskOnReroute then c.ops.anonymize(c.leaf, Mask, m, original) else original
    case Hash => x == c.ops.hash(c.leaf, m, original)
    case ReversibleReplace =>
      x == "<REV_" + m.entity + "_" + c.nonce + "_" + c.ops.digest(c.nonce, m.entity, original) + ">"
    case Encrypt =>
      var cipher := c.ops.anonymize(c.leaf, Encrypt, m, original);
      x == "<ENCRYPTED_" + m.entity + "_" + c.nonce + "_" + c.ops.digest(c.nonce, m.entity, cipher) + ">"
    case _ => x == c.ops.anonymize(c.leaf, action, m, original)
  }

  /** Gaps and pieces in turn, a gap first and last. */
  function Interleave(gaps: seq<string>, pieces: seq<string>): string
    requires |gaps| == |pieces| + 1
    decreases |pieces|
  {
    if pieces == [] then gaps[0] else gaps[0] + (pieces[0] + Interleave(gaps[1..], pieces[1..]))
  }

  /** Where the gap in front of region k starts; the last gap ends the text. */
  function GapStart(pos: int, regions: seq<Match>, k: nat): int
    requires k <= |regions|
  {
    if k == 0 then pos else regions[k - 1].end
  }

  function GapEnd(text: string, regions: seq<Match>, k: nat): int
    requires k <= |regions|
  {
    if k == |regions| then |text| else regions[k].start
  }

  /** The gaps are what the text has between its regions, unchanged; each piece is what its region comes to. */
  ghost predicate Decomposes(
    c: Context, text: string, pos: int, regions: seq<Match>, gaps: seq<string>, pieces: seq<string>)
    requires Fits(text, pos, regions)
  {
    && |gaps| == |regions| + 1 && |pieces| == |regions|
    && (forall k :: 0 <= k < |gaps| ==> gaps[k] == text[GapStart(pos, regions, k)..GapEnd(text, regions, k)])
    && forall k :: 0 <= k < |pieces| ==>
         Becomes(c, Configured(c.policy, regions[k].entity), regions[k], Original(text, regions[k]), pieces[k])
  }

  /** The new text is the gaps of the old one with one piece in place of each region. */
  ghost predicate Rewritten(c: Context, text: string, pos: int, regions: seq<Match>, next: string)
    requires Fits(text, pos, regions)
  {
    exists gaps, pieces :: Decomposes(c, text, pos, regions, gaps, pieces) && next == Interleave(gaps, pieces)
  }

  lemma RevText(entity: string, nonce: string, digest: string)
    ensures Placeholder("REV", entity, nonce, digest) == "<REV_" + entity + "_" + nonce + "_" + digest + ">"
  {
    assert "<" + "REV" + "_" == "<REV_";
  }

  lemma EncryptedText(entity: string, nonce: string, digest: string)
    ensures Placeholder("ENCRYPTED", entity, nonce, digest) == "<ENCRYPTED_" + entity + "_" + nonce + "_" + digest + ">"
  {
    assert "<" + "ENCRYPTED" + "_" == "<ENCRYPTED_";
  }

  lemma OutputBecomes(c: Context, m: Match, original: string)
    ensures Becomes(c, Configured(c.policy, m.entity), m, original, Output(EditOf(c, m, original), original))
  {
    match Configured(c.policy, m.entity)
    case ReversibleReplace => RevText(m.entity, c.nonce, c.ops.digest(c.nonce, m.entity, original));
    case Encrypt =>
      var cipher := c.ops.anonymize(c.leaf, Encrypt, m, original);
      EncryptedText(m.entity, c.nonce, c.ops.digest(c.nonce, m.entity, cipher));
    case _ =>
  }

  lemma DecomposeNext(
    c: Context, text: string, pos: int, regions: seq<Match>, gaps: seq<string>, pieces: seq<string>, piece: string)
    requires Fits(text, pos, regions) && regions != [] && Fits(text, regions[0].end, regions[1..])
    requires Decomposes(c, text, regions[0].end, regions[1..], gaps, pieces)
    requires Becomes(c, Configured(c.policy, regions[0].entity), regions[0], Original(text, regions[0]), piece)
    ensures Decomposes(c, text, pos, regions, [text[pos..regions[0].start]] + gaps, [piece] + pieces)
  {
    var more, all := [text[pos..regions[0].start]] + gaps, [piece] + pieces;
    forall k | 0 <= k < |more| ensures more[k] == text[GapStart(pos, regions, k)..GapEnd(text, regions, k)] {
      if k > 0 {
        assert GapStart(regions[0].end, regions[1..], k - 1) == GapStart(pos, regions, k);
      }
    }
    forall k | 0 <= k < |all|
      ensures Becomes(c, Configured(c.policy, regions[k].entity), regions[k], Original(text, regions[k]), all[k])
    {
      if k > 0 {
        assert regions[1..][k - 1] == regions[k];
      }
    }
  }

  lemma RewrittenNext(c: Context, text: string, pos: int, regions: seq<Match>, piece: string, tail: string)
    requires Fits(text, pos, regions) && regions != [] && Fits(text, regions[0].end, regions[1..])
    requires Rewritten(c, text, regions[0].end, regions[1..], tail)
    requires Becomes(c, Configured(c.policy, regions[0].entity), regions[0], Original(text, regions[0]), piece)
    ensures Rewritten(c, text, pos, regions, text[pos..regions[0].start] + (piece + tail))
  {
    var m := regions[0];
    var gaps, pieces :|
      Decomposes(c, text, m.end, regions[1..], gaps, pieces) && tail == Interleave(gaps, pieces);
    DecomposeNext(c, text, pos, regions, gaps, pieces, piece);
    assert ([text[pos..m.start]] + gaps)[1..] == gaps && ([piece] + pieces)[1..] == pieces;
  }

  lemma NothingRewritten(c: Context, text: string, pos: int)
    requires 0 <= pos <= |text|
    ensures Rewritten(c, text, pos, [], text[pos..])
  {
    assert text[pos..] == text[pos..|text|];
    assert Decomposes(c, text, pos, [], [text[pos..]], []) && Interleave([text[pos..]], []) == text[pos..];
  }

  /** The splice is the text's own gaps with, in place of each region, what its configured action makes of it. */
  lemma {:induction false} SpliceRewrites(c: Context, text: string, pos: int, regions: seq<Match>)
    requires Fits(text, pos, regions)
    ensures Rewritten(c, text, pos, regions, Splice(c, text, pos, regions))
    decreases |regions|
  {
    if regions == [] {
      NothingRewritten(c, text, pos);
    } else {
      var m := regions[0];
      SpliceRewrites(c, text, m.end, regions[1..]);
      OutputBecomes(c, m, Original(text, m));
      RewrittenNext(
        c, text, pos, regions, Output(EditAt(c, text, m), Original(text, m)), Splice(c, text, m.end, regions[1..]));
    }
  }

  // ---- what one leaf records about its regions, folded from the last region to the first ----

  predicate Edited(p: PolicySettings, m: Match) {
    var a := Configured(p, m.entity);
    !(a in {Pass, Block}) && !(a == Reroute && !p.maskOnReroute)
  }

  lemma EditedIffNotKept(c: Context, m: Match, original: string)
    ensures Edited(c.policy, m) <==> EditOf(c, m, original) != Keep
  {
  }

  function AddOne(counts: map<string, int>, e: string): map<string, int> {
    counts[e := (if e in counts then counts[e] else 0) + 1]
  }

  function AddValue(values: map<string, set<string>>, e: string, value: string): map<string, set<string>> {
    values[e := (if e in values then values[e] else {}) + {value}]
  }

  function AddReversal(reversal: map<string, string>, placeholder: string, value: string): Option<map<string, string>> {
    if placeholder in reversal && reversal[placeholder] != value then None
    else Some(reversal[placeholder := value])
  }

  /** What rewriting records about a leaf. */
  datatype Ledger = Ledger(
    reversal: map<string, string>, applied: set<Action>, counts: map<string, int>, values: map<string, set<string>>)

  /** The ledger after one executed edit, or None when its placeholder already stands for another text. */
  function Entered(book: Ledger, action: Action, e: string, edit: Edit, original: string): Option<Ledger> {
    if edit == Keep then Some(book)
    else
      var reversal := if edit.Reversible? then AddReversal(book.reversal, edit.placeholder, original)
      else Some(book.reversal);
      if reversal.None? then None
      else Some(Ledger(
        reversal.value,
        if action == Reroute then book.applied else book.applied + {action},
        AddOne(book.counts, e),
        AddValue(book.values, e, original)))
  }

  /** The ledger of a list of regions, the last one entered first. */
  ghost function LedgerOf(c: Context, base: set<Action>, text: string, regions: seq<Match>): Option<Ledger>
    requires InText(text, regions)
  {
    if regions == [] then Some(Ledger(map[], base, map[], map[]))
    else
      var rest, m := LedgerOf(c, base, text, regions[1..]), regions[0];
      if rest.None? then None
      else Entered(rest.value, Configured(c.policy, m.entity), m.entity, EditAt(c, text, m), Original(text, m))
  }

  ghost predicate InText(text: string, regions: seq<Match>) {
    forall k :: 0 <= k < |regions| ==> 0 <= regions[k].start <= regions[k].end <= |text|
  }

  // ---- what the ledger means ----

  function EditedRegions(p: PolicySettings, regions: seq<Match>): (r: seq<Match>)
    ensures forall m :: m in r <==> m in regions && Edited(p, m)
  {
    if regions == [] then []
    else if Edited(p, regions[0]) then [regions[0]] + EditedRegions(p, regions[1..])
    else EditedRegions(p, regions[1..])
  }

  /** Each reversible edit is in the reversal map with the text it replaced. */
  lemma {:induction false} LedgerHolds(c: Context, base: set<Action>, text: string, regions: seq<Match>, k: nat)
    requires InText(text, regions) && LedgerOf(c, base, text, regions).Some?
    requires k < |regions| && EditAt(c, text, regions[k]).Reversible?
    ensures var rev, ph := LedgerOf(c, base, text, regions).value.reversal, EditAt(c, text, regions[k]).placeholder;
            ph in rev && rev[ph] == Original(text, regions[k])
    decreases k
  {
    if k > 0 {
      LedgerHolds(c, base, text, regions[1..], k - 1);
    }
  }

  /** The reversal map has no other entries. */
  lemma {:induction false} LedgerSource(c: Context, base: set<Action>, text: string, regions: seq<Match>, ph: string)
    returns (k: nat)
    requires InText(text, regions) && LedgerOf(c, base, text, regions).Some?
    requires ph in LedgerOf(c, base, text, regions).value.reversal
    ensures k < |regions| && EditAt(c, text, regions[k]) == Reversible(ph)
    decreases |regions|
  {
    if EditAt(c, text, regions[0]) == Reversible(ph) {
      k := 0;
    } else {
      k := LedgerSource(c, base, text, regions[1..], ph);
      k := k + 1;
    }
  }

  /** The distinct values recorded for an entity are exactly the texts its edited regions covered. */
  lemma {:induction false} LedgerValues(
    c: Context, base: set<Action>, text: string, regions: seq<Match>, e: string, x: string)
    requires InText(text, regions) && LedgerOf(c, base, text, regions).Some?
    ensures var values := LedgerOf(c, base, text, regions).value.values;
            (e in values && x in values[e]) <==>
              exists k :: 0 <= k < |regions| && CoversText(c.policy, text, regions, k, e, x)
  {
    if regions != [] {
      LedgerValues(c, base, text, regions[1..], e, x);
      EditedIffNotKept(c, regions[0], Original(text, regions[0]));
      CoveredNext(c.policy, text, regions, e, x);
    }
  }

  /** Region k belongs to this entity, is edited, and covers this text. */
  ghost predicate CoversText(p: PolicySettings, text: string, regions: seq<Match>, k: nat, e: string, x: string)
    requires InText(text, regions)
  {
    k < |regions| && regions[k].entity == e && Edited(p, regions[k]) && Original(text, regions[k]) == x
  }

  lemma CoveredNext(p: PolicySettings, text: string, regions: seq<Match>, e: string, x: string)
    requires InText(text, regions) && regions != []
    ensures InText(text, regions[1..])
    ensures (exists k :: 0 <= k < |regions| && CoversText(p, text, regions, k, e, x)) <==>
              CoversText(p, text, regions, 0, e, x)
              || exists k :: 0 <= k < |regions[1..]| && CoversText(p, text, regions[1..], k, e, x)
  {
    if k :| 0 <= k < |regions| && CoversText(p, text, regions, k, e, x) {
      assert k > 0 ==> CoversText(p, text, regions[1..], k - 1, e, x);
    }
    if k :| 0 <= k < |regions[1..]| && CoversText(p, text, regions[1..], k, e, x) {
      assert CoversText(p, text, regions, k + 1, e, x);
    }
  }

  /** Transformed counts are regions per entity; distinct values are originals and never outnumber them. */
  lemma {:induction false} LedgerCounts(c: Context, base: set<Action>, text: string, regions: seq<Match>, e: string)
    requires InText(text, regions) && LedgerOf(c, base, text, regions).Some?
    ensures var book, n :=
              LedgerOf(c, base, text, regions).value, CountOf(EditedRegions(c.policy, regions), MEntity, e);
            && (e in book.counts <==> n > 0) && (e in book.values <==> n > 0)
            && (n > 0 ==> book.counts[e] == n && |book.values[e]| <= n)
  {
    if regions != [] {
      var m, rest := regions[0], regions[1..];
      LedgerCounts(c, base, text, rest, e);
      EditedIffNotKept(c, m, Original(text, m));
      CountSplit([m], EditedRegions(c.policy, rest), MEntity, e);
      CountSnoc([], m, MEntity, e);
      assert [] + [m] == [m];
    }
  }

  /** Rewriting applies the configured action of each edited region, reroutes excepted. */
  lemma {:induction false} LedgerActions(c: Context, base: set<Action>, text: string, regions: seq<Match>, a: Action)
    requires InText(text, regions) && LedgerOf(c, base, text, regions).Some?
    ensures a in LedgerOf(c, base, text, regions).value.applied <==>
            || a in base
            || (a != Reroute && exists m :: m in regions && Edited(c.policy, m) && Configured(c.policy, m.entity) == a)
  {
    if regions != [] {
      LedgerActions(c, base, text, regions[1..], a);
      EditedIffNotKept(c, regions[0], Original(text, regions[0]));
      assert regions == [regions[0]] + regions[1..];
    }
  }

  /** A conflict met on the way left is never undone. */
  lemma {:induction false} LedgerNone(c: Context, base: set<Action>, text: string, regions: seq<Match>, k: nat)
    requires InText(text, regions) && k < |regions| && LedgerOf(c, base, text, regions[k..]).None?
    ensures LedgerOf(c, base, text, regions).None?
    decreases k
  {
    if k == 0 {
      assert regions[0..] == regions;
    } else {
      assert regions[1..][k - 1..] == regions[k..];
      LedgerNone(c, base, text, regions[1..], k - 1);
    }
  }

  /** Effective regions are disjoint, in order and inside their text. */
  lemma EffectiveFits(p: PolicySettings, rab: bool, text: string, ms: seq<Match>)
    requires ValidSpans(ms, |text|)
    ensures Fits(text, 0, EffectiveOf(p, rab, ms))
  {
    var rs := EffectiveOf(p, rab, ms);
    RegionsAreComponents(ms, |text|);
    forall k | 0 <= k < |rs| ensures MIv(rs[k]) == RegionsOf(ms)[k] && 0 <= rs[k].start < rs[k].end <= |text| {
      RegionInText(ms, k, |text|);
    }
  }
}
