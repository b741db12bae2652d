/** Reversal placeholders, the regex substitution that restores them, and the round trip. */
module Restore {
  import opened PolicyConfig
  import opened Rewrite

  // ---- the placeholder grammar ----

  predicate IsHex(c: char) { '0' <= c <= '9' || 'a' <= c <= 'f' }

  predicate Hex16(s: string) { |s| == 16 && forall i :: 0 <= i < |s| ==> IsHex(s[i]) }

  predicate IsEntityChar(c: char) { 'A' <= c <= 'Z' || '0' <= c <= '9' || c == '_' }

  predicate EntityName(s: string) {
    |s| > 0 && 'A' <= s[0] <= 'Z' && forall i :: 0 <= i < |s| ==> IsEntityChar(s[i])
  }

  const REV := "REV"
  const ENCRYPTED := "ENCRYPTED"

  /** The fixed-length tail `_<16 hex>_<16 hex>>` pins down where the entity name ends. */
  const TAIL: nat := 35

  function EntityPart(s: string, prefix: string): string
    requires |s| >= |prefix| + 2 + TAIL
  {
    s[|prefix| + 2..|s| - TAIL]
  }

  predicate HasForm(s: string, prefix: string) {
    && |s| > |prefix| + 2 + TAIL
    && EntityName(EntityPart(s, prefix))
    && Hex16(s[|s| - 34..|s| - 18])
    && Hex16(s[|s| - 17..|s| - 1])
    && s == Placeholder(prefix, EntityPart(s, prefix), s[|s| - 34..|s| - 18], s[|s| - 17..|s| - 1])
  }

  predicate InGrammar(s: string) {
    HasForm(s, REV) || HasForm(s, ENCRYPTED)
  }

  function EntityGroup(s: string): string
    requires InGrammar(s)
  {
    if HasForm(s, REV) then EntityPart(s, REV) else EntityPart(s, ENCRYPTED)
  }

  /** Every placeholder the planner builds from a well-formed name, nonce and digest is in the grammar. */
  lemma PlaceholderInGrammar(prefix: string, entity: string, nonce: string, digest: string)
    requires prefix in {REV, ENCRYPTED} && EntityName(entity) && Hex16(nonce) && Hex16(digest)
    ensures InGrammar(Placeholder(prefix, entity, nonce, digest))
    ensures EntityGroup(Placeholder(prefix, entity, nonce, digest)) == entity
  {
    var s := Placeholder(prefix, entity, nonce, digest);
    assert s[1] == prefix[0];
    assert |s| == |prefix| + 2 + |entity| + TAIL;
    assert EntityPart(s, prefix) == entity;
    assert s[|s| - 34..|s| - 18] == nonce;
    assert s[|s| - 17..|s| - 1] == digest;
    assert HasForm(s, prefix);
    RevShows(s);
  }

  lemma RevShows(s: string)
    ensures HasForm(s, REV) ==> s[1] == 'R'
  {
    if HasForm(s, REV) {
      assert s == Placeholder(REV, EntityPart(s, REV), s[|s| - 34..|s| - 18], s[|s| - 17..|s| - 1]);
    }
  }

  /** A placeholder starts with its only `<` and ends with its only `>`. */
  lemma GrammarShape(s: string)
    requires InGrammar(s)
    ensures |s| > 2 && s[0] == '<' && s[|s| - 1] == '>'
    ensures forall i :: 0 < i < |s| ==> s[i] != '<'
    ensures forall i :: 0 <= i < |s| - 1 ==> s[i] != '>'
  {
    if HasForm(s, REV) {
      FormShape(s, REV);
    } else {
      FormShape(s, ENCRYPTED);
    }
  }

  lemma FormShape(s: string, prefix: string)
    requires HasForm(s, prefix) && prefix in {REV, ENCRYPTED}
    ensures |s| > 2 && s[0] == '<' && s[|s| - 1] == '>'
    ensures forall i :: 0 < i < |s| - 1 ==> s[i] != '<' && s[i] != '>'
  {
    var p, e, nonce, digest := |prefix|, EntityPart(s, prefix), s[|s| - 34..|s| - 18], s[|s| - 17..|s| - 1];
    forall i | 0 < i < |s| - 1 ensures s[i] != '<' && s[i] != '>' {
      if i <= p {
        assert s[i] == prefix[i - 1];
      } else if i == p + 1 {
        assert s[i] == '_';
      } else if i < |s| - 35 {
        assert s[i] == e[i - p - 2];
      } else if i == |s| - 35 || i == |s| - 18 {
        assert s[i] == '_';
      } else if i < |s| - 18 {
        assert s[i] == nonce[i - (|s| - 34)];
      } else {
        assert s[i] == digest[i - (|s| - 17)];
      }
    }
  }

  // ---- leftmost, non-overlapping substitution ----

  function FirstClose(s: string): (k: nat)
    ensures k <= |s| && (k < |s| ==> s[k] == '>') && forall i :: 0 <= i < k ==> s[i] != '>'
  {
    if s == [] || s[0] == '>' then 0 else 1 + FirstClose(s[1..])
  }

  /** Where the pattern's match at the start of s ends, if it matches there. */
  function MatchAt(s: string): (r: Option<nat>)
    ensures r.Some? ==> 0 < r.value <= |s| && InGrammar(s[..r.value])
  {
    var k := FirstClose(s);
    if k < |s| && InGrammar(s[..k + 1]) then Some(k + 1) else None
  }

  /** No other end is possible: the regular expression has one match at a position, or none. */
  lemma MatchUnique(s: string, j: nat)
    requires j <= |s| && InGrammar(s[..j])
    ensures MatchAt(s) == Some(j)
  {
    GrammarShape(s[..j]);
    assert s[..j][j - 1] == '>';
    forall i | 0 <= i < j - 1 ensures s[i] != '>' {
      assert s[i] == s[..j][i];
    }
    assert FirstClose(s) == j - 1;
  }

  function Restored(reversal: map<string, string>, placeholder: string): string {
    if placeholder in reversal then reversal[placeholder] else placeholder
  }

  function Substitute(reversal: map<string, string>, s: string): string
    decreases |s|
  {
    if s == [] then []
    else
      var end := MatchAt(s);
      if end.Some? then Restored(reversal, s[..end.value]) + Substitute(reversal, s[end.value..])
      else [s[0]] + Substitute(reversal, s[1..])
  }

  /** The entity of each placeholder that is restored, left to right. */
  function RestoredEntities(reversal: map<string, string>, s: string): seq<string>
    decreases |s|
  {
    if s == [] then []
    else
      var end := MatchAt(s);
      if end.None? then RestoredEntities(reversal, s[1..])
      else
        var rest := RestoredEntities(reversal, s[end.value..]);
        if s[..end.value] in reversal then [EntityGroup(s[..end.value])] + rest else rest
  }

  function Tally(es: seq<string>): map<string, int> {
    if es == [] then map[] else AddOne(Tally(es[..|es| - 1]), es[|es| - 1])
  }

  /** Each restored entity is counted as often as it was restored. */
  lemma {:induction false} TallyCounts(es: seq<string>, e: string)
    ensures e in Tally(es) <==> e in es
    ensures e in es ==> Tally(es)[e] == multiset(es)[e]
  {
    if es != [] {
      var n := |es| - 1;
      TallyCounts(es[..n], e);
      assert es == es[..n] + [es[n]];
      assert e in es <==> e in multiset(es);
    }
  }

  lemma ScanChar(reversal: map<string, string>, s: string)
    requires s != [] && MatchAt(s).None?
    ensures Substitute(reversal, s) == [s[0]] + Substitute(reversal, s[1..])
    ensures RestoredEntities(reversal, s) == RestoredEntities(reversal, s[1..])
  {
  }

  lemma ScanMatch(reversal: map<string, string>, s: string, j: nat)
    requires MatchAt(s) == Some(j)
    ensures Substitute(reversal, s) == Restored(reversal, s[..j]) + Substitute(reversal, s[j..])
    ensures RestoredEntities(reversal, s) ==
            (if s[..j] in reversal then [EntityGroup(s[..j])] else []) + RestoredEntities(reversal, s[j..])
  {
    assert [] + RestoredEntities(reversal, s[j..]) == RestoredEntities(reversal, s[j..]);
  }

  lemma TallyNext(es: seq<string>, e: string)
    ensures Tally(es + [e]) == AddOne(Tally(es), e)
  {
    assert (es + [e])[..|es|] == es;
  }

  /** Some of the response is scanned, into this output and these restored entities. */
  ghost predicate Scanned(
    reversal: map<string, string>, response: string, rest: string, user: string, seen: seq<string>) {
    && user + Substitute(reversal, rest) == Substitute(reversal, response)
    && seen + RestoredEntities(reversal, rest) == RestoredEntities(reversal, response)
  }

  lemma ScanStep(
    reversal: map<string, string>, response: string, rest: string, user: string, seen: seq<string>, j: nat,
    out: string, add: seq<string>)
    requires Scanned(reversal, response, rest, user, seen) && j <= |rest|
    requires Substitute(reversal, rest) == out + Substitute(reversal, rest[j..])
    requires RestoredEntities(reversal, rest) == add + RestoredEntities(reversal, rest[j..])
    ensures Scanned(reversal, response, rest[j..], user + out, seen + add)
  {
    var tail, names := Substitute(reversal, rest[j..]), RestoredEntities(reversal, rest[j..]);
    assert user + (out + tail) == (user + out) + tail;
    assert seen + (add + names) == (seen + add) + names;
  }

  /** The loop copies the text and replaces exactly the placeholders the reversal map knows. */
  method Simulate(reversal: map<string, string>, response: string) returns (user: string, counts: map<string, int>)
    ensures user == Substitute(reversal, response)
    ensures counts == Tally(RestoredEntities(reversal, response))
  {
    user, counts := [], map[];
    var rest := response;
    ghost var seen: seq<string> := [];
    while rest != []
      invariant Scanned(reversal, response, rest, user, seen)
      invariant counts == Tally(seen)
      decreases |rest|
    {
      var j := 1;
      var out: string := [rest[0]];
      ghost var add: seq<string> := [];
      var end := MatchAt(rest);
      if end.Some? {
        ScanMatch(reversal, rest, end.value);
        j := end.value;
        out := Restored(reversal, rest[..j]);
        if rest[..j] in reversal {
          TallyNext(seen, EntityGroup(rest[..j]));
          add := [EntityGroup(rest[..j])];
          counts := AddOne(counts, EntityGroup(rest[..j]));
        }
      } else {
        ScanChar(reversal, rest);
        assert [] + RestoredEntities(reversal, rest[1..]) == RestoredEntities(reversal, rest[1..]);
      }
      assert add == [] ==> seen + add == seen;
      ScanStep(reversal, response, rest, user, seen, j, out, add);
      user, seen, rest := user + out, seen + add, rest[j..];
    }
    assert seen + [] == seen;
  }

  // ---- text as characters and holes ----

  /** A transformed text: original characters, and placeholders standing for original text. */
  datatype Item = Ch(c: char) | Hole(placeholder: string, original: string)

  ghost function Rendered(x: Item): string { if x.Ch? then [x.c] else x.placeholder }

  ghost function Underlying(x: Item): string { if x.Ch? then [x.c] else x.original }

  ghost function Render(xs: seq<Item>): string {
    if xs == [] then [] else Rendered(xs[0]) + Render(xs[1..])
  }

  ghost function Plain(xs: seq<Item>): string {
    if xs == [] then [] else Underlying(xs[0]) + Plain(xs[1..])
  }

  ghost function HoleEntities(xs: seq<Item>): seq<string> {
    if xs == [] then []
    else if xs[0].Hole? && InGrammar(xs[0].placeholder) then [EntityGroup(xs[0].placeholder)] + HoleEntities(xs[1..])
    else HoleEntities(xs[1..])
  }

  predicate OccursAt(text: string, part: string, i: int) {
    0 <= i <= |text| - |part| && text[i..i + |part|] == part
  }

  ghost predicate Contains(text: string, part: string) {
    exists i :: OccursAt(text, part, i)
  }

  /** Holes are in the grammar and reverse to what they stand for; no reversal key is in the original. */
  ghost predicate Restorable(reversal: map<string, string>, xs: seq<Item>) {
    && (forall i :: 0 <= i < |xs| && xs[i].Hole? ==>
      InGrammar(xs[i].placeholder) && xs[i].placeholder in reversal && reversal[xs[i].placeholder] == xs[i].original)
    && (forall key :: key in reversal ==> !Contains(Plain(xs), key))
  }

  predicate CharsUpTo(xs: seq<Item>, j: nat) { j <= |xs| && forall i :: 0 <= i < j ==> xs[i].Ch? }

  function Letters(xs: seq<Item>, j: nat): (s: string)
    requires CharsUpTo(xs, j)
    ensures |s| == j
  {
    if j == 0 then [] else [xs[0].c] + Letters(xs[1..], j - 1)
  }

  lemma {:induction false} RenderChars(xs: seq<Item>, j: nat)
    requires CharsUpTo(xs, j)
    ensures Render(xs) == Letters(xs, j) + Render(xs[j..])
  {
    if j == 0 {
      assert xs[0..] == xs;
    } else {
      RenderChars(xs[1..], j - 1);
      TailOfTail(xs, j);
      Associates([xs[0].c], Letters(xs[1..], j - 1), Render(xs[j..]));
    }
  }

  lemma {:induction false} PlainChars(xs: seq<Item>, j: nat)
    requires CharsUpTo(xs, j)
    ensures Plain(xs) == Letters(xs, j) + Plain(xs[j..])
  {
    if j == 0 {
      assert xs[0..] == xs;
    } else {
      PlainChars(xs[1..], j - 1);
      TailOfTail(xs, j);
      Associates([xs[0].c], Letters(xs[1..], j - 1), Plain(xs[j..]));
    }
  }

  lemma {:induction false} HoleEntitiesChars(xs: seq<Item>, j: nat)
    requires CharsUpTo(xs, j)
    ensures HoleEntities(xs) == HoleEntities(xs[j..])
  {
    if j == 0 {
      assert xs[0..] == xs;
    } else {
      HoleEntitiesChars(xs[1..], j - 1);
      TailOfTail(xs, j);
    }
  }

  lemma FrontAndBack(s: string, a: string, b: string)
    requires s == a + b
    ensures s[..|a|] == a && s[|a|..] == b
  {
  }

  /** As long as the items are characters, rendering and original agree. */
  lemma CharsAgree(xs: seq<Item>, j: nat)
    requires CharsUpTo(xs, j)
    ensures j <= |Render(xs)| && j <= |Plain(xs)|
    ensures Render(xs)[..j] == Plain(xs)[..j]
    ensures Render(xs)[j..] == Render(xs[j..]) && Plain(xs)[j..] == Plain(xs[j..])
    ensures HoleEntities(xs) == HoleEntities(xs[j..])
  {
    RenderChars(xs, j);
    PlainChars(xs, j);
    HoleEntitiesChars(xs, j);
    FrontAndBack(Render(xs), Letters(xs, j), Render(xs[j..]));
    FrontAndBack(Plain(xs), Letters(xs, j), Plain(xs[j..]));
  }

  lemma TailOfTail<T>(xs: seq<T>, j: nat)
    requires 0 < j <= |xs|
    ensures xs[1..][j - 1..] == xs[j..]
  {
  }

  lemma HoleShows(xs: seq<Item>)
    requires xs != [] && (xs[0].Hole? ==> InGrammar(xs[0].placeholder))
    ensures |Render(xs)| > 0 && (xs[0].Hole? ==> Render(xs)[0] == '<')
  {
    if xs[0].Hole? {
      GrammarShape(xs[0].placeholder);
    }
  }

  /** Characters so far and a rendering that does not go on with `<`: the next item is a character too. */
  lemma NextIsChar(xs: seq<Item>, h: nat)
    requires forall i :: 0 <= i < |xs| && xs[i].Hole? ==> InGrammar(xs[i].placeholder)
    requires h < |Render(xs)| && Render(xs)[h] != '<' && h <= |xs| && forall i :: 0 <= i < h ==> xs[i].Ch?
    ensures h < |xs| && xs[h].Ch?
  {
    var rest := xs[h..];
    CharsAgree(xs, h);
    assert Render(rest) == Render(xs)[h..] && Render(rest)[0] == Render(xs)[h];
    assert rest != [] && rest[0] == xs[h];
    HoleShows(rest);
  }

  /** A match that starts on a character never reaches a hole: it would contain that hole's `<`. */
  lemma {:induction false} MatchMissesHoles(reversal: map<string, string>, xs: seq<Item>, j: nat, h: nat)
    requires Restorable(reversal, xs) && xs != [] && xs[0].Ch?
    requires j <= |Render(xs)| && InGrammar(Render(xs)[..j]) && h <= j
    ensures h <= |xs| && forall i :: 0 <= i < h ==> xs[i].Ch?
  {
    if h > 1 {
      MatchMissesHoles(reversal, xs, j, h - 1);
      InnerNotAngle(Render(xs), j, h - 1);
      NextIsChar(xs, h - 1);
    }
  }

  lemma InnerNotAngle(s: string, j: nat, i: nat)
    requires j <= |s| && InGrammar(s[..j]) && 0 < i < j
    ensures s[i] != '<'
  {
    GrammarShape(s[..j]);
    assert s[..j][i] == s[i];
  }

  lemma SliceOfTail(s: string, k: nat, i: nat, n: nat)
    requires k + i + n <= |s|
    ensures s[k..][i..i + n] == s[k + i..k + i + n]
  {
  }

  lemma RestorableTail(reversal: map<string, string>, xs: seq<Item>, j: nat, k: nat)
    requires Restorable(reversal, xs) && j <= |xs|
    requires k <= |Plain(xs)| && Plain(xs)[k..] == Plain(xs[j..])
    ensures Restorable(reversal, xs[j..])
  {
    forall key | key in reversal ensures !Contains(Plain(xs[j..]), key) {
      forall i | OccursAt(Plain(xs[j..]), key, i) ensures OccursAt(Plain(xs), key, k + i) {
        SliceOfTail(Plain(xs), k, i, |key|);
      }
    }
  }

  /** Restoring a rendering gives back the original, and restores exactly its holes. */
  lemma {:induction false} RestoreItems(reversal: map<string, string>, xs: seq<Item>)
    requires Restorable(reversal, xs)
    ensures Substitute(reversal, Render(xs)) == Plain(xs)
    ensures RestoredEntities(reversal, Render(xs)) == HoleEntities(xs)
    decreases |xs|
  {
    if xs != [] {
      if xs[0].Hole? {
        RestoreHole(reversal, xs);
        RestoreItems(reversal, xs[1..]);
      } else if MatchAt(Render(xs)).Some? {
        var j := RestoreForeign(reversal, xs);
        RestoreItems(reversal, xs[j..]);
        Rejoined(Plain(xs), j);
      } else {
        RestoreChar(reversal, xs);
        RestoreItems(reversal, xs[1..]);
      }
    }
  }

  lemma Rejoined(s: string, j: nat)
    requires j <= |s|
    ensures s[..j] + s[j..] == s
  {
  }

  lemma RestoreChar(reversal: map<string, string>, xs: seq<Item>)
    requires Restorable(reversal, xs) && xs != [] && xs[0].Ch? && MatchAt(Render(xs)).None?
    ensures Restorable(reversal, xs[1..])
    ensures Substitute(reversal, Render(xs)) == [xs[0].c] + Substitute(reversal, Render(xs[1..]))
    ensures RestoredEntities(reversal, Render(xs)) == RestoredEntities(reversal, Render(xs[1..]))
  {
    assert Plain(xs)[1..] == Plain(xs[1..]);
    assert Render(xs)[1..] == Render(xs[1..]);
    RestorableTail(reversal, xs, 1, 1);
  }

  /** A placeholder-shaped piece of the original text is no key of the map, so it stays. */
  lemma RestoreForeign(reversal: map<string, string>, xs: seq<Item>) returns (j: nat)
    requires Restorable(reversal, xs) && xs != [] && xs[0].Ch? && MatchAt(Render(xs)).Some?
    ensures 0 < j <= |xs| && j <= |Plain(xs)| && Restorable(reversal, xs[j..]) && Plain(xs)[j..] == Plain(xs[j..])
    ensures Substitute(reversal, Render(xs)) == Plain(xs)[..j] + Substitute(reversal, Render(xs[j..]))
    ensures RestoredEntities(reversal, Render(xs)) == RestoredEntities(reversal, Render(xs[j..]))
    ensures HoleEntities(xs) == HoleEntities(xs[j..])
  {
    j := MatchAt(Render(xs)).value;
    MatchMissesHoles(reversal, xs, j, j);
    CharsAgree(xs, j);
    RestorableTail(reversal, xs, j, j);
    assert OccursAt(Plain(xs), Render(xs)[..j], 0);
    assert Render(xs)[..j] !in reversal;
  }

  lemma RestoreHole(reversal: map<string, string>, xs: seq<Item>)
    requires Restorable(reversal, xs) && xs != [] && xs[0].Hole?
    ensures Restorable(reversal, xs[1..])
    ensures Substitute(reversal, Render(xs)) == xs[0].original + Substitute(reversal, Render(xs[1..]))
    ensures RestoredEntities(reversal, Render(xs)) == [EntityGroup(xs[0].placeholder)] +
              RestoredEntities(reversal, Render(xs[1..]))
    ensures InGrammar(xs[0].placeholder)
  {
    var ph := xs[0].placeholder;
    var s := Render(xs);
    assert s == ph + Render(xs[1..]);
    assert s[..|ph|] == ph && s[|ph|..] == Render(xs[1..]);
    MatchUnique(s, |ph|);
    GrammarShape(ph);
    assert Plain(xs)[|xs[0].original|..] == Plain(xs[1..]);
    RestorableTail(reversal, xs, 1, |xs[0].original|);
  }

  lemma NoMatchWithoutAngle(s: string)
    requires s == [] || s[0] != '<'
    ensures MatchAt(s).None?
  {
    var end := MatchAt(s);
    if end.Some? {
      GrammarShape(s[..end.value]);
    }
  }

  lemma PrefixStep(reversal: map<string, string>, c: char, rest: string)
    requires c != '<'
    ensures Substitute(reversal, [c] + rest) == [c] + Substitute(reversal, rest)
    ensures RestoredEntities(reversal, [c] + rest) == RestoredEntities(reversal, rest)
  {
    var s := [c] + rest;
    assert s[0] == c && s[1..] == rest;
    NoMatchWithoutAngle(s);
    ScanChar(reversal, s);
  }

  /** Text without `<` in front passes through unchanged. */
  lemma {:induction false} SubstitutePrefix(reversal: map<string, string>, front: string, s: string)
    requires forall i :: 0 <= i < |front| ==> front[i] != '<'
    ensures Substitute(reversal, front + s) == front + Substitute(reversal, s)
    ensures RestoredEntities(reversal, front + s) == RestoredEntities(reversal, s)
  {
    if front == [] {
      assert front + s == s;
    } else {
      var c, rest := front[0], front[1..];
      assert front == [c] + rest;
      Associates([c], rest, s);
      PrefixStep(reversal, c, rest + s);
      SubstitutePrefix(reversal, rest, s);
      Associates([c], rest, Substitute(reversal, s));
    }
  }
}
