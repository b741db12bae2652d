/** The exact-window findings cache: framed keys, one byte budget, and calls interleaved in any order. */
module NerCache {
  import opened PolicyConfig

  type Byte = n: nat | n < 256

  type Findings = seq<(string, int, int, real)>

  /** What the cache is built over: a keyed hash, text encoding, the detector, and accounted sizes. */
  datatype Environment = Environment(
    hash: seq<Byte> -> nat, encode: string -> Option<seq<Byte>>,
    detect: (seq<Byte>, string) -> Findings, sizeOf: Findings -> nat, maxBytes: nat, ttl: real)

  /** The keyed hash and the text encoding confuse no two inputs. */
  ghost predicate Injective(env: Environment) {
    && (forall x, y :: env.hash(x) == env.hash(y) ==> x == y)
    && (forall s, t :: env.encode(s).Some? && env.encode(s) == env.encode(t) ==> s == t)
  }

  // ---- key framing ----

  function BigEndian(n: nat, k: nat): (r: seq<Byte>)
    ensures |r| == k
  {
    if k == 0 then [] else BigEndian(n / 256, k - 1) + [n % 256]
  }

  function Capacity(k: nat): nat { if k == 0 then 1 else 256 * Capacity(k - 1) }

  /** The message that is hashed: eight length bytes, the context, the text. */
  function Frame(context: seq<Byte>, text: seq<Byte>): seq<Byte> {
    BigEndian(|context|, 8) + context + text
  }

  lemma {:induction false} LengthInjective(m: nat, n: nat, k: nat)
    requires m < Capacity(k) && n < Capacity(k) && BigEndian(m, k) == BigEndian(n, k)
    ensures m == n
  {
    if k > 0 {
      var a, b := BigEndian(m / 256, k - 1), BigEndian(n / 256, k - 1);
      assert (a + [m % 256])[k - 1] == (b + [n % 256])[k - 1];
      assert (a + [m % 256])[..k - 1] == a && (b + [n % 256])[..k - 1] == b;
      LengthInjective(m / 256, n / 256, k - 1);
    }
  }

  /** Two framed messages are equal only when both context and text are. */
  lemma FrameInjective(c: seq<Byte>, t: seq<Byte>, c': seq<Byte>, t': seq<Byte>)
    requires |c| < Capacity(8) && |c'| < Capacity(8) && Frame(c, t) == Frame(c', t')
    ensures c == c' && t == t'
  {
    var x, y := Frame(c, t), Frame(c', t');
    assert x[..8] == BigEndian(|c|, 8) && y[..8] == BigEndian(|c'|, 8);
    LengthInjective(|c|, |c'|, 8);
    assert c == x[8..8 + |c|] && c' == y[8..8 + |c|];
    assert t == x[8 + |c|..] && t' == y[8 + |c|..];
  }

  /** The digest of a context and a text; None when either cannot be framed. */
  function KeyOf(env: Environment, context: seq<Byte>, text: string): Option<nat> {
    var encoded := env.encode(text);
    if encoded.None? || |context| >= Capacity(8) then None else Some(env.hash(Frame(context, encoded.value)))
  }

  lemma KeyInjective(env: Environment, c: seq<Byte>, t: string, c': seq<Byte>, t': string)
    requires Injective(env) && KeyOf(env, c, t).Some? && KeyOf(env, c, t) == KeyOf(env, c', t')
    ensures c == c' && t == t'
  {
    FrameInjective(c, env.encode(t).value, c', env.encode(t').value);
  }

  // ---- the TTL and LRU cache ----

  /** One retained result; slots are kept from least to most recently used. */
  datatype Slot = Slot(key: nat, findings: Findings, expires: real, size: nat)

  function Total(slots: seq<Slot>): nat { if slots == [] then 0 else slots[0].size + Total(slots[1..]) }

  function Live(slots: seq<Slot>, now: real): seq<Slot> {
    if slots == [] then []
    else if now < slots[0].expires then [slots[0]] + Live(slots[1..], now)
    else Live(slots[1..], now)
  }

  function Position(slots: seq<Slot>, key: nat): (r: Option<nat>)
    ensures r.Some? ==> r.value < |slots| && slots[r.value].key == key
    ensures r.None? ==> forall i :: 0 <= i < |slots| ==> slots[i].key != key
  {
    if slots == [] then None
    else if slots[0].key == key then Some(0)
    else
      var later := Position(slots[1..], key);
      if later.Some? then Some(later.value + 1) else None
  }

  /** A slot that is read becomes the most recently used. */
  function Touched(slots: seq<Slot>, i: nat): seq<Slot>
    requires i < |slots|
  {
    slots[..i] + slots[i + 1..] + [slots[i]]
  }

  /** Drop least recently used slots until the rest leaves room. */
  function Evict(slots: seq<Slot>, size: nat, maxBytes: nat): seq<Slot> {
    if slots == [] || Total(slots) + size <= maxBytes then slots else Evict(slots[1..], size, maxBytes)
  }

  function Inserted(env: Environment, slots: seq<Slot>, key: nat, findings: Findings, now: real): seq<Slot> {
    var live := Live(slots, now);
    if Position(live, key).None? && env.sizeOf(findings) <= env.maxBytes then
      Evict(live, env.sizeOf(findings), env.maxBytes) + [Slot(key, findings, now + env.ttl, env.sizeOf(findings))]
    else live
  }

  /** Every slot holds what the detector gives for whatever its key stands for. */
  ghost predicate Truthful(env: Environment, slot: Slot) {
    forall c, t :: KeyOf(env, c, t) == Some(slot.key) ==> slot.findings == env.detect(c, t)
  }

  ghost predicate CacheOk(env: Environment, slots: seq<Slot>) {
    Total(slots) <= env.maxBytes && forall i :: 0 <= i < |slots| ==> Truthful(env, slots[i])
  }

  lemma {:induction false} TotalConcat(a: seq<Slot>, b: seq<Slot>)
    ensures Total(a + b) == Total(a) + Total(b)
  {
    if a == [] {
      assert a + b == b;
    } else {
      assert (a + b)[1..] == a[1..] + b;
      TotalConcat(a[1..], b);
    }
  }

  lemma {:induction false} LiveOk(env: Environment, slots: seq<Slot>, now: real)
    requires forall i :: 0 <= i < |slots| ==> Truthful(env, slots[i])
    ensures Total(Live(slots, now)) <= Total(slots)
    ensures forall i :: 0 <= i < |Live(slots, now)| ==>
              Truthful(env, Live(slots, now)[i]) && now < Live(slots, now)[i].expires
  {
    if slots != [] {
      LiveOk(env, slots[1..], now);
    }
  }

  lemma TouchedOk(env: Environment, slots: seq<Slot>, i: nat)
    requires CacheOk(env, slots) && i < |slots|
    ensures CacheOk(env, Touched(slots, i))
  {
    TotalConcat(slots[..i], slots[i..]);
    assert slots == slots[..i] + slots[i..];
    assert slots[i..][1..] == slots[i + 1..];
    TotalConcat(slots[..i] + slots[i + 1..], [slots[i]]);
    TotalConcat(slots[..i], slots[i + 1..]);
    assert [slots[i]][1..] == [];
  }

  lemma {:induction false} EvictOk(env: Environment, slots: seq<Slot>, size: nat)
    requires size <= env.maxBytes && forall i :: 0 <= i < |slots| ==> Truthful(env, slots[i])
    ensures Total(Evict(slots, size, env.maxBytes)) + size <= env.maxBytes
    ensures forall i :: 0 <= i < |Evict(slots, size, env.maxBytes)| ==>
              Truthful(env, Evict(slots, size, env.maxBytes)[i])
  {
    if !(slots == [] || Total(slots) + size <= env.maxBytes) {
      EvictOk(env, slots[1..], size);
    }
  }

  lemma InsertedOk(env: Environment, slots: seq<Slot>, c: seq<Byte>, t: string, now: real)
    requires Injective(env) && CacheOk(env, slots) && KeyOf(env, c, t).Some?
    ensures CacheOk(env, Inserted(env, slots, KeyOf(env, c, t).value, env.detect(c, t), now))
  {
    var key, findings, live := KeyOf(env, c, t).value, env.detect(c, t), Live(slots, now);
    LiveOk(env, slots, now);
    if Position(live, key).None? && env.sizeOf(findings) <= env.maxBytes {
      var slot := Slot(key, findings, now + env.ttl, env.sizeOf(findings));
      EvictOk(env, live, slot.size);
      forall c', t' | KeyOf(env, c', t') == Some(slot.key) ensures slot.findings == env.detect(c', t') {
        KeyInjective(env, c, t, c', t');
      }
      TotalConcat(Evict(live, slot.size, env.maxBytes), [slot]);
      assert [slot][1..] == [];
    }
  }

  // ---- which entries go, and in what order ----

  /** Expiry drops exactly the entries whose time has come and keeps the others in their order. */
  lemma {:induction false} ExpiryExact(slots: seq<Slot>, now: real, x: Slot)
    ensures x in Live(slots, now) <==> x in slots && now < x.expires
    ensures (forall i :: 0 <= i < |slots| ==> now < slots[i].expires) ==> Live(slots, now) == slots
  {
    if slots != [] {
      ExpiryExact(slots[1..], now, x);
    }
  }

  /**
   * Room is made from the least recently used end, one entry at a time: what stays is the rest of the
   * list, and no longer rest would have left the room.
   */
  lemma {:induction false} EvictsOldest(slots: seq<Slot>, size: nat, maxBytes: nat) returns (k: nat)
    ensures k <= |slots| && Evict(slots, size, maxBytes) == slots[k..]
    ensures forall j :: 0 <= j < k ==> Total(slots[j..]) + size > maxBytes
    ensures k < |slots| ==> Total(slots[k..]) + size <= maxBytes
  {
    if slots == [] || Total(slots) + size <= maxBytes {
      k := 0;
      assert slots[0..] == slots;
    } else {
      k := EvictsOldest(slots[1..], size, maxBytes);
      assert slots[1..][k..] == slots[k + 1..];
      forall j | 0 <= j < k + 1 ensures Total(slots[j..]) + size > maxBytes {
        if j == 0 {
          assert slots[0..] == slots;
        } else {
          assert slots[1..][j - 1..] == slots[j..];
        }
      }
      k := k + 1;
    }
  }

  /** An entry that is read moves to the most recently used end; the others keep their order. */
  lemma TouchedIsLast(slots: seq<Slot>, i: nat)
    requires i < |slots|
    ensures |Touched(slots, i)| == |slots| && Touched(slots, i)[|slots| - 1] == slots[i]
    ensures forall j :: 0 <= j < i ==> Touched(slots, i)[j] == slots[j]
    ensures forall j :: i < j < |slots| ==> Touched(slots, i)[j - 1] == slots[j]
  {
  }

  /**
   * Storing an absent result that fits puts it at the most recently used end for one lifetime, after the
   * least recently used entries made room; a present or oversized result changes nothing but expiry.
   */
  lemma StoredIsLast(env: Environment, slots: seq<Slot>, key: nat, findings: Findings, now: real)
    ensures var live, after := Live(slots, now), Inserted(env, slots, key, findings, now);
            if (exists i :: 0 <= i < |live| && live[i].key == key) || env.sizeOf(findings) > env.maxBytes then
              after == live
            else
              && after != [] && after[|after| - 1] == Slot(key, findings, now + env.ttl, env.sizeOf(findings))
              && exists k :: 0 <= k <= |live| && after[..|after| - 1] == live[k..]
  {
    var live := Live(slots, now);
    var k := EvictsOldest(live, env.sizeOf(findings), env.maxBytes);
    var after := Inserted(env, slots, key, findings, now);
    if Position(live, key).None? && env.sizeOf(findings) <= env.maxBytes {
      assert after[..|after| - 1] == live[k..];
    }
  }

  /** A call that arrives while the cache is stopped never looks into it and leaves it alone. */
  lemma StoppedBypasses(env: Environment, w: World, id: nat, context: seq<Byte>, text: string, now: real)
    requires Enabled(env, w, Arrive(id, context, text)) && w.stop
    ensures var next := Next(env, w, Arrive(id, context, text));
            && next.slots == w.slots && !Enabled(env, next, Look(id, now)) && Enabled(env, next, Detect(id))
            && var done := Next(env, next, Detect(id));
               done.slots == w.slots && done.calls[id].phase == Returned(env.detect(context, text))
  {
  }

  /** A call whose key is cached is answered from the cache, without detection. */
  lemma HitIsServed(env: Environment, w: World, id: nat, now: real, i: nat)
    requires Enabled(env, w, Look(id, now)) && i < |Live(w.slots, now)|
    requires Some(Live(w.slots, now)[i].key) == KeyOf(env, w.calls[id].context, w.calls[id].text)
    ensures Next(env, w, Look(id, now)).calls[id].phase.Returned?
  {
  }

  // ---- the cache object: what each locked section does ----

  class NerWindowCache {
    const env: Environment
    var slots: seq<Slot>
    var stop: bool
    var cleaning: bool

    constructor (env: Environment)
      ensures this.env == env && slots == [] && !stop && !cleaning
    {
      this.env, slots, stop, cleaning := env, [], false, false;
    }

    method Expire(now: real)
      modifies this`slots
      ensures slots == Live(old(slots), now)
    {
      var kept: seq<Slot> := [];
      for i := 0 to |slots|
        invariant kept + Live(slots[i..], now) == Live(slots, now)
      {
        assert slots[i..][1..] == slots[i + 1..];
        if now < slots[i].expires {
          assert kept + ([slots[i]] + Live(slots[i + 1..], now)) == kept + [slots[i]] + Live(slots[i + 1..], now);
          kept := kept + [slots[i]];
        }
      }
      assert kept + [] == kept;
      slots := kept;
    }

    /** The first locked section: drop expired slots, then read. */
    method Lookup(key: nat, now: real) returns (cached: Option<Findings>)
      modifies this`slots
      ensures var live := Live(old(slots), now); var at := Position(live, key);
              && cached == (if at.Some? then Some(live[at.value].findings) else None)
              && slots == if at.Some? then Touched(live, at.value) else live
    {
      Expire(now);
      var at := Position(slots, key);
      if at.None? {
        return None;
      }
      cached := Some(slots[at.value].findings);
      slots := Touched(slots, at.value);
    }

    /** The second locked section: nothing is stored once the cache is stopped. */
    method Store(key: nat, findings: Findings, now: real)
      modifies this`slots
      ensures slots == if stop then old(slots) else Inserted(env, old(slots), key, findings, now)
    {
      if stop {
        return;
      }
      Expire(now);
      if Position(slots, key).None? && env.sizeOf(findings) <= env.maxBytes {
        MakeRoom(env.sizeOf(findings));
        slots := slots + [Slot(key, findings, now + env.ttl, env.sizeOf(findings))];
      }
    }

    method MakeRoom(size: nat)
      modifies this`slots
      ensures slots == Evict(old(slots), size, env.maxBytes)
    {
      while slots != [] && Total(slots) + size > env.maxBytes
        invariant Evict(slots, size, env.maxBytes) == Evict(old(slots), size, env.maxBytes)
        decreases |slots|
      {
        slots := slots[1..];
      }
    }

    /** One call with nothing in between: whatever is cached, it returns what detection gives. */
    method Run(text: string, context: seq<Byte>, now: real, later: real) returns (findings: Findings)
      requires Injective(env) && CacheOk(env, slots)
      modifies this`slots
      ensures findings == env.detect(context, text) && CacheOk(env, slots)
      ensures stop ==> slots == old(slots)
    {
      var key := KeyOf(env, context, text);
      if stop || key.None? {
        return env.detect(context, text);
      }
      LookupOk(env, slots, key.value, now);
      var cached := Lookup(key.value, now);
      if cached.Some? {
        return cached.value;
      }
      findings := env.detect(context, text);
      InsertedOk(env, slots, context, text, later);
      Store(key.value, findings, later);
    }

    method Start()
      modifies this`stop, this`cleaning
      ensures cleaning && stop == (if old(cleaning) then old(stop) else false)
    {
      if !cleaning {
        stop, cleaning := false, true;
      }
    }

    method Close()
      modifies this
      ensures stop && !cleaning && slots == []
    {
      stop := true;
      cleaning := false;
      slots := [];
    }
  }

  lemma LookupOk(env: Environment, slots: seq<Slot>, key: nat, now: real)
    requires CacheOk(env, slots)
    ensures var live := Live(slots, now); var at := Position(live, key);
            && CacheOk(env, live)
            && (at.Some? ==> CacheOk(env, Touched(live, at.value)) && Truthful(env, live[at.value]))
  {
    LiveOk(env, slots, now);
    var at := Position(Live(slots, now), key);
    if at.Some? {
      TouchedOk(env, Live(slots, now), at.value);
    }
  }

  // ---- threads in any order ----

  datatype Phase = Begun | Bypassed | Missed | Detected(findings: Findings) | Returned(findings: Findings)

  datatype Call = Call(context: seq<Byte>, text: string, phase: Phase)

  /** Closing has set the stop flag; closed once the cache was cleared after that. */
  datatype World = World(
    slots: seq<Slot>, stop: bool, cleaning: bool, closing: bool, closed: bool, calls: map<nat, Call>)

  datatype Event =
    | Arrive(id: nat, context: seq<Byte>, text: string)
    | Look(id: nat, now: real) | LookFails(id: nat)
    | Detect(id: nat) | DetectFails(id: nat)
    | Store(id: nat, now: real) | StoreFails(id: nat, left: seq<Slot>)
    | Cleanup(now: real)
    | CloseStops | CloseJoins | CloseClears | StartUp

  function Put(w: World, id: nat, call: Call): World { w.(calls := w.calls[id := call]) }

  predicate InPhase(w: World, id: nat, phase: Phase) { id in w.calls && w.calls[id].phase == phase }

  /** An internal failure while storing may have evicted, but invents nothing. */
  ghost predicate Fewer(left: seq<Slot>, slots: seq<Slot>) {
    Total(left) <= Total(slots) && forall i :: 0 <= i < |left| ==> left[i] in slots
  }

  ghost predicate Enabled(env: Environment, w: World, e: Event) {
    match e
    case Arrive(id, _, _) => id !in w.calls
    case Look(id, _) => InPhase(w, id, Begun) && KeyOf(env, w.calls[id].context, w.calls[id].text).Some?
    case LookFails(id) => InPhase(w, id, Begun)
    case Detect(id) => InPhase(w, id, Bypassed) || InPhase(w, id, Missed)
    case DetectFails(id) => InPhase(w, id, Bypassed) || InPhase(w, id, Missed)
    case Store(id, _) => id in w.calls && w.calls[id].phase.Detected?
    case StoreFails(id, left) => id in w.calls && w.calls[id].phase.Detected? && Fewer(left, w.slots)
    case _ => true
  }

  ghost function Next(env: Environment, w: World, e: Event): World
    requires Enabled(env, w, e)
  {
    match e
    case Arrive(id, c, t) => Put(w, id, Call(c, t, if w.stop then Bypassed else Begun))
    case Look(id, now) => Looked(env, w, id, now)
    case LookFails(id) => Put(w, id, w.calls[id].(phase := Bypassed))
    case Detect(id) => Detection(env, w, id)
    case DetectFails(id) => w.(calls := w.calls - {id})
    case Store(id, now) => Stored(env, w, id, now)
    case StoreFails(id, left) => Put(w, id, w.calls[id].(phase := Returned(w.calls[id].phase.findings))).(slots := left)
    case Cleanup(now) => w.(slots := Live(w.slots, now))
    case CloseStops => w.(stop := true, closing := true)
    case CloseJoins => w.(cleaning := false)
    case CloseClears => w.(slots := [], closed := w.closing)
    case StartUp => if w.cleaning then w else w.(cleaning := true, stop := false, closing := false, closed := false)
  }

  ghost function Looked(env: Environment, w: World, id: nat, now: real): World
    requires InPhase(w, id, Begun) && KeyOf(env, w.calls[id].context, w.calls[id].text).Some?
  {
    var live := Live(w.slots, now);
    var at := Position(live, KeyOf(env, w.calls[id].context, w.calls[id].text).value);
    if at.Some? then
      Put(w.(slots := Touched(live, at.value)), id, w.calls[id].(phase := Returned(live[at.value].findings)))
    else Put(w.(slots := live), id, w.calls[id].(phase := Missed))
  }

  ghost function Detection(env: Environment, w: World, id: nat): World
    requires id in w.calls
  {
    var call := w.calls[id];
    var findings := env.detect(call.context, call.text);
    Put(w, id, call.(phase := if call.phase == Missed then Detected(findings) else Returned(findings)))
  }

  ghost function Stored(env: Environment, w: World, id: nat, now: real): World
    requires id in w.calls && w.calls[id].phase.Detected?
  {
    var call := w.calls[id];
    var key := KeyOf(env, call.context, call.text);
    var slots := if w.stop || key.None? then w.slots else Inserted(env, w.slots, key.value, call.phase.findings, now);
    Put(w.(slots := slots), id, call.(phase := Returned(call.phase.findings)))
  }

  /** A call's findings, once it has some, are the detector's for its own context and text. */
  ghost predicate CallOk(env: Environment, call: Call) {
    match call.phase
    case Detected(f) => f == env.detect(call.context, call.text)
    case Returned(f) => f == env.detect(call.context, call.text)
    case _ => true
  }

  ghost predicate WorldOk(env: Environment, w: World) {
    && CacheOk(env, w.slots)
    && (forall id :: id in w.calls ==> CallOk(env, w.calls[id]))
    && (w.closing ==> w.stop) && (w.closed ==> w.closing && w.slots == [])
  }

  lemma PutOk(env: Environment, w: World, id: nat, call: Call)
    requires WorldOk(env, w) && CallOk(env, call)
    ensures WorldOk(env, Put(w, id, call))
  {
  }

  lemma {:induction false} LiveEmpty(now: real)
    ensures Live([], now) == []
  {
  }

  lemma LookedOk(env: Environment, w: World, id: nat, now: real)
    requires WorldOk(env, w) && Enabled(env, w, Look(id, now))
    ensures WorldOk(env, Looked(env, w, id, now))
  {
    var call, live := w.calls[id], Live(w.slots, now);
    var key := KeyOf(env, call.context, call.text).value;
    LookupOk(env, w.slots, key, now);
    LiveEmpty(now);
    var at := Position(live, key);
    if at.Some? {
      PutOk(env, w.(slots := Touched(live, at.value)), id, call.(phase := Returned(live[at.value].findings)));
    } else {
      PutOk(env, w.(slots := live), id, call.(phase := Missed));
    }
  }

  lemma StoredOk(env: Environment, w: World, id: nat, now: real)
    requires Injective(env) && WorldOk(env, w) && Enabled(env, w, Store(id, now))
    ensures WorldOk(env, Stored(env, w, id, now))
  {
    var call := w.calls[id];
    assert CallOk(env, call);
    if !w.stop && KeyOf(env, call.context, call.text).Some? {
      InsertedOk(env, w.slots, call.context, call.text, now);
      var slots := Inserted(env, w.slots, KeyOf(env, call.context, call.text).value, call.phase.findings, now);
      PutOk(env, w.(slots := slots), id, call.(phase := Returned(call.phase.findings)));
    } else {
      PutOk(env, w, id, call.(phase := Returned(call.phase.findings)));
    }
  }

  lemma NothingFromNothing(left: seq<Slot>, slots: seq<Slot>)
    requires Fewer(left, slots)
    ensures left != [] ==> slots != []
  {
    if left != [] {
      assert left[0] in slots;
    }
  }

  lemma StoreFailsOk(env: Environment, w: World, id: nat, left: seq<Slot>)
    requires WorldOk(env, w) && Enabled(env, w, StoreFails(id, left))
    ensures WorldOk(env, Next(env, w, StoreFails(id, left)))
  {
    var call := w.calls[id];
    assert CallOk(env, call);
    forall i | 0 <= i < |left| ensures Truthful(env, left[i]) {
      var j :| 0 <= j < |w.slots| && w.slots[j] == left[i];
    }
    NothingFromNothing(left, w.slots);
    PutOk(env, w.(slots := left), id, call.(phase := Returned(call.phase.findings)));
  }

  lemma StepOk(env: Environment, w: World, e: Event)
    requires Injective(env) && WorldOk(env, w) && Enabled(env, w, e)
    ensures WorldOk(env, Next(env, w, e))
  {
    match e
    case Arrive(id, c, t) => PutOk(env, w, id, Call(c, t, if w.stop then Bypassed else Begun));
    case Look(id, now) => LookedOk(env, w, id, now);
    case LookFails(id) => PutOk(env, w, id, w.calls[id].(phase := Bypassed));
    case Detect(id) => PutOk(env, w, id, Detection(env, w, id).calls[id]);
    case DetectFails(_) =>
    case Store(id, now) => StoredOk(env, w, id, now);
    case StoreFails(id, left) => StoreFailsOk(env, w, id, left);
    case Cleanup(now) => LiveOk(env, w.slots, now); LiveEmpty(now);
    case _ =>
  }

  ghost predicate Run(env: Environment, worlds: seq<World>, events: seq<Event>) {
    && |worlds| == |events| + 1 && worlds[0] == World([], false, false, false, false, map[])
    && forall i :: 0 <= i < |events| ==>
      Enabled(env, worlds[i], events[i]) && worlds[i + 1] == Next(env, worlds[i], events[i])
  }

  lemma {:induction false} RunOk(env: Environment, worlds: seq<World>, events: seq<Event>, i: nat)
    requires Injective(env) && Run(env, worlds, events) && i < |worlds|
    ensures WorldOk(env, worlds[i])
  {
    if i > 0 {
      RunOk(env, worlds, events, i - 1);
      assert Enabled(env, worlds[i - 1], events[i - 1]);
      StepOk(env, worlds[i - 1], events[i - 1]);
    }
  }

  /**
   * Under any interleaving of calls, expiry, eviction, internal errors, close and start, every call
   * that returns gives what detection gives for exactly its context and text.
   */
  lemma CacheIsTransparent(env: Environment, worlds: seq<World>, events: seq<Event>, i: nat, id: nat)
    requires Injective(env) && Run(env, worlds, events) && i < |worlds|
    requires id in worlds[i].calls && worlds[i].calls[id].phase.Returned?
    ensures worlds[i].calls[id].phase.findings == env.detect(worlds[i].calls[id].context, worlds[i].calls[id].text)
  {
    RunOk(env, worlds, events, i);
    assert CallOk(env, worlds[i].calls[id]);
  }

  /** The accounted bytes never exceed the budget. */
  lemma BytesWithinBudget(env: Environment, worlds: seq<World>, events: seq<Event>, i: nat)
    requires Injective(env) && Run(env, worlds, events) && i < |worlds|
    ensures Total(worlds[i].slots) <= env.maxBytes
  {
    RunOk(env, worlds, events, i);
  }

  /** After a close has cleared the cache, nothing is retained until the next start. */
  lemma {:induction false} NothingAfterClose(env: Environment, worlds: seq<World>, events: seq<Event>, i: nat, j: nat)
    requires Injective(env) && Run(env, worlds, events) && i <= j < |worlds| && worlds[i].closed
    requires forall k :: i <= k < j ==> events[k] != StartUp
    ensures worlds[j].closed && worlds[j].slots == []
    decreases j
  {
    RunOk(env, worlds, events, j);
    if i < j {
      NothingAfterClose(env, worlds, events, i, j - 1);
      RunOk(env, worlds, events, j - 1);
      assert Enabled(env, worlds[j - 1], events[j - 1]);
      ClosedStays(env, worlds[j - 1], events[j - 1]);
    }
  }

  lemma ClosedStays(env: Environment, w: World, e: Event)
    requires WorldOk(env, w) && Enabled(env, w, e) && w.closed && e != StartUp
    ensures Next(env, w, e).closed
  {
  }
}
