/**
 The memoised presentation projections. The idempotency key reaches the handoff of each moment and
 nothing else, so one cached presentation serves every caller: a deep clone gets the caller's own key.
 What a hit skips is the decoder's look at that key.
 */
module PresentationCache {
  import opened Optional
  import opened Utf16Text
  import Cache = RecencyCache

  // ----- Presentations as values -----

  datatype MomentValue = MomentValue(facts: string, idempotencyKey: string)

  datatype PresentationValue = PresentationValue(facts: string, moments: seq<MomentValue>)

  /** Every handoff carries the given key. */
  function Bind(p: PresentationValue, key: string): PresentationValue
  {
    PresentationValue(p.facts, BindMoments(p.moments, key))
  }

  function BindMoments(ms: seq<MomentValue>, key: string): (r: seq<MomentValue>)
    ensures |r| == |ms| && forall i :: 0 <= i < |r| ==> r[i] == MomentValue(ms[i].facts, key)
  {
    seq(|ms|, i requires 0 <= i < |ms| => MomentValue(ms[i].facts, key))
  }

  // ----- Presentations as objects -----

  class MomentObject {
    var facts: string
    var idempotencyKey: string

    constructor (m: MomentValue)
      ensures Value() == m
    {
      facts, idempotencyKey := m.facts, m.idempotencyKey;
    }

    function Value(): MomentValue
      reads this
    {
      MomentValue(facts, idempotencyKey)
    }
  }

  class PresentationObject {
    var facts: string
    var moments: seq<MomentObject>

    constructor (facts: string, moments: seq<MomentObject>)
      ensures this.facts == facts && this.moments == moments
    {
      this.facts, this.moments := facts, moments;
    }

    /** Every object a holder of this presentation can change. */
    ghost function Parts(): set<object>
      reads this
    {
      {this} + set m: object | m in moments
    }

    function Value(): PresentationValue
      reads this, moments
    {
      PresentationValue(facts, MomentValues(moments))
    }
  }

  function MomentValues(ms: seq<MomentObject>): (r: seq<MomentValue>)
    reads ms
    ensures |r| == |ms| && forall i :: 0 <= i < |r| ==> r[i] == ms[i].Value()
  {
    seq(|ms|, i requires 0 <= i < |ms| reads ms => ms[i].Value())
  }

  /** Builds new objects for a value. */
  method Build(v: PresentationValue) returns (p: PresentationObject)
    ensures fresh(p.Parts()) && p.Value() == v
  {
    var moments: seq<MomentObject> := [];
    for i := 0 to |v.moments|
      invariant |moments| == i
      invariant forall j :: 0 <= j < i ==> fresh(moments[j]) && moments[j].Value() == v.moments[j]
    {
      var m := new MomentObject(v.moments[i]);
      moments := moments + [m];
    }
    p := new PresentationObject(v.facts, moments);
    assert MomentValues(moments) == v.moments;
  }

  /** `bindIdempotencyKey`: a deep clone, then the key written into each handoff of the clone. */
  method BindIdempotencyKey(cached: PresentationObject, key: string) returns (p: PresentationObject)
    ensures fresh(p.Parts()) && p.Value() == Bind(cached.Value(), key)
  {
    var before := cached.Value();
    p := Build(before);
    var moments := p.moments;
    assert MomentValues(moments) == before.moments;
    forall j | 0 <= j < |moments| ensures moments[j].facts == before.moments[j].facts && fresh(moments[j]) {
      assert MomentValues(moments)[j] == moments[j].Value() && moments[j] in p.Parts();
    }
    WriteKeys(moments, before.moments, key);
    assert MomentValues(moments) == BindMoments(before.moments, key);
  }

  /** The loop that overwrites the handoffs. */
  method WriteKeys(moments: seq<MomentObject>, ghost before: seq<MomentValue>, key: string)
    requires |moments| == |before|
    requires forall j :: 0 <= j < |moments| ==> moments[j].facts == before[j].facts
    modifies moments
    ensures forall j :: 0 <= j < |moments| ==> moments[j].Value() == MomentValue(before[j].facts, key)
  {
    for i := 0 to |moments|
      invariant forall j :: 0 <= j < |moments| ==> moments[j].facts == before[j].facts
      invariant forall j :: 0 <= j < i ==> moments[j].idempotencyKey == key
    {
      moments[i].idempotencyKey := key;
    }
  }

  // ----- The memoised projection -----

  /** The projection itself, the cache key of a completion, and the idempotency keys its decoder lets through. */
  datatype Projection<!C> = Projection(
    compute: (C, string) -> Option<PresentationValue>, keyOf: C -> Text, validKey: string -> bool)

  /**
   The idempotency key reaches the result through the handoffs only: whatever is projected for one key is
   projected for another, rebound, unless there is a handoff and the other key is refused in it.
   */
  ghost predicate KeyFlowsToHandoffs<C(!new)>(p: Projection<C>)
  {
    forall c, k, l :: p.compute(c, k).Some? ==> p.compute(c, l) == Rebound(p, p.compute(c, k).value, l)
  }

  function Rebound<C>(p: Projection<C>, v: PresentationValue, key: string): Option<PresentationValue>
  {
    if v.moments == [] || p.validKey(key) then Some(Bind(v, key)) else None
  }

  /** What a call returned, as a value. */
  function Read(r: Option<PresentationObject>): Option<PresentationValue>
    reads if r.Some? then {r.value} else {}
    reads if r.Some? then r.value.moments else []
  {
    if r.Some? then Some(r.value.Value()) else None
  }

  class MemoisedProjection<C(!new)> {
    const projection: Projection<C>
    const cache: Cache.BoundedCache<PresentationObject>
    /** The completion each cache key stands for. */
    ghost const completions: Text -> C
    /** The objects the cache owns. */
    ghost var Repr: set<object>

    /** A cached object holds the projection of its key's completion, for some idempotency key. */
    ghost predicate Holds(e: Cache.Entry<PresentationObject>)
      reads this, Repr
    {
      && e.value in Repr && e.value.Parts() <= Repr && cache !in e.value.Parts()
      && exists k: string :: projection.compute(completions(e.key), k) == Some(e.value.Value())
    }

    ghost predicate HoldsAll(es: seq<Cache.Entry<PresentationObject>>)
      reads this, Repr
    {
      forall i :: 0 <= i < |es| ==> Holds(es[i])
    }

    ghost predicate Valid()
      reads this, Repr
    {
      && cache in Repr
      && KeyFlowsToHandoffs(projection)
      && HoldsAll(cache.entries)
    }

    constructor (projection: Projection<C>, maximumEntries: nat, ghost completions: Text -> C)
      requires KeyFlowsToHandoffs(projection)
      ensures Valid() && fresh(Repr - {this})
      ensures this.projection == projection && this.completions == completions
      ensures cache.entries == [] && cache.maximumEntries == maximumEntries
    {
      this.projection, this.completions := projection, completions;
      var c := new Cache.BoundedCache<PresentationObject>(maximumEntries);
      cache, Repr := c, {c};
    }

    /** The completion projects to no moments at all. */
    ghost predicate Momentless(c: C)
    {
      forall k :: projection.compute(c, k).Some? ==> projection.compute(c, k).value.moments == []
    }

    /** What a hit returns: the projection for some key, bound to the caller's. */
    ghost predicate ServedByHit(c: C, key: string, result: Option<PresentationValue>)
    {
      exists k :: projection.compute(c, k).Some? && result == Some(Bind(projection.compute(c, k).value, key))
    }

    /**
     A miss computes. A hit returns the projection bound to the caller's key without asking whether the
     decoder would let that key through, so it is what direct computation returns exactly if it would, or
     if there is no handoff to carry the key. The objects returned are not the cache's own.
     */
    method Project(c: C, key: string) returns (r: Option<PresentationObject>)
      requires Valid() && completions(projection.keyOf(c)) == c
      modifies this`Repr, cache
      ensures Valid() && fresh(Repr - old(Repr))
      ensures r.Some? ==> fresh(r.value.Parts()) && r.value.Parts() !! Repr
      ensures Read(r) == projection.compute(c, key) <==>
        Cache.Find(old(cache.entries), projection.keyOf(c)).None? || projection.validKey(key) || Momentless(c)
      ensures Cache.Find(old(cache.entries), projection.keyOf(c)).Some? ==> ServedByHit(c, key, Read(r))
      ensures r.Some? ==> (exists p :: (
        cache.entries == Cache.Use(old(cache.entries), cache.maximumEntries, Cache.Access(projection.keyOf(c), p))))
      ensures r.None? ==> cache.entries == old(cache.entries)
    {
      hide Momentless;
      hide ServedByHit;
      var cacheKey := projection.keyOf(c);
      ghost var before := cache.entries;
      var cached := cache.Get(cacheKey);
      assert HoldsAll(before);
      Cache.FindMember(before, cacheKey);
      Cache.TouchedMembers(before, cacheKey);
      assert Valid();
      if cached.Some? {
        assert cache.entries == Cache.Use(before, cache.maximumEntries, Cache.Access(cacheKey, cached.value));
        assert Holds(Cache.Entry(cacheKey, cached.value));
        var p := Rebind(cached.value, c, key);
        return Some(p);
      }
      assert cache.entries == before;
      r := Fill(c, key);
    }

    /** Forgetting everything makes the next call a miss, which is answered directly whatever its key. */
    method Reset()
      requires Valid()
      modifies cache
      ensures Valid() && cache.entries == []
    {
      cache.Clear();
    }

    /** The miss: compute, store, and hand out a clone. */
    method Fill(c: C, key: string) returns (r: Option<PresentationObject>)
      requires Valid() && completions(projection.keyOf(c)) == c
      requires Cache.Find(cache.entries, projection.keyOf(c)).None?
      modifies this`Repr, cache
      ensures Valid() && fresh(Repr - old(Repr))
      ensures r.Some? ==> fresh(r.value.Parts()) && r.value.Parts() !! Repr
      ensures Read(r) == projection.compute(c, key)
      ensures r.Some? ==> (exists p :: (
        cache.entries == Cache.Use(old(cache.entries), cache.maximumEntries, Cache.Access(projection.keyOf(c), p))))
      ensures r.None? ==> cache.entries == old(cache.entries)
    {
      var cacheKey := projection.keyOf(c);
      ghost var before := cache.entries;
      var computed := projection.compute(c, key);
      if computed.None? {
        return None;
      }
      ComputedIsBound(projection, c, key);
      var presentation := Build(computed.value);
      Store(c, key, presentation);
      assert cache.entries == Cache.Use(before, cache.maximumEntries, Cache.Access(cacheKey, presentation));
      var p := BindIdempotencyKey(presentation, key);
      return Some(p);
    }

    /** A clone of a cached presentation, bound to the caller's key. */
    method Rebind(cached: PresentationObject, c: C, key: string) returns (p: PresentationObject)
      requires Valid() && completions(projection.keyOf(c)) == c
      requires Holds(Cache.Entry(projection.keyOf(c), cached))
      ensures Valid() && fresh(p.Parts()) && p.Parts() !! Repr
      ensures ServedByHit(c, key, Some(p.Value()))
      ensures Some(p.Value()) == projection.compute(c, key) <==> projection.validKey(key) || Momentless(c)
    {
      ghost var k: string :| projection.compute(c, k) == Some(cached.Value());
      p := BindIdempotencyKey(cached, key);
      HitMeans(c, k, key);
    }

    /** What a hit returns is what direct computation returns exactly when the decoder lets the key through. */
    lemma HitMeans(c: C, k: string, key: string)
      requires KeyFlowsToHandoffs(projection) && projection.compute(c, k).Some?
      ensures Some(Bind(projection.compute(c, k).value, key)) == projection.compute(c, key) <==>
        projection.validKey(key) || Momentless(c)
    {
      var v := projection.compute(c, k).value;
      assert projection.compute(c, key) == Rebound(projection, v, key);
      forall l | projection.compute(c, l).Some? ensures |projection.compute(c, l).value.moments| == |v.moments| {
        assert projection.compute(c, l) == Rebound(projection, v, l);
      }
    }

    /** The cache takes over a presentation nobody else holds. */
    method Store(c: C, key: string, presentation: PresentationObject)
      requires Valid() && completions(projection.keyOf(c)) == c
      requires presentation.Parts() !! Repr && this !in presentation.Parts()
      requires projection.compute(c, key) == Some(presentation.Value())
      modifies this`Repr, cache
      ensures Valid() && Repr == old(Repr) + presentation.Parts()
      ensures Holds(Cache.Entry(projection.keyOf(c), presentation))
      ensures cache.entries == Cache.Filled(old(cache.entries), cache.maximumEntries, projection.keyOf(c), presentation)
    {
      ghost var before := cache.entries;
      var cacheKey := projection.keyOf(c);
      Cache.FilledMembers(before, cache.maximumEntries, cacheKey, presentation);
      Repr := Repr + presentation.Parts();
      cache.Set(cacheKey, presentation);
      assert HoldsAll(before);
      assert Holds(Cache.Entry(cacheKey, presentation));
    }
  }

  /** A projection already carries the key it was made with. */
  lemma ComputedIsBound<C(!new)>(p: Projection<C>, c: C, key: string)
    requires KeyFlowsToHandoffs(p) && p.compute(c, key).Some?
    ensures Bind(p.compute(c, key).value, key) == p.compute(c, key).value
  {
    assert p.compute(c, key) == Rebound(p, p.compute(c, key).value, key);
  }

  // ----- Whole call sequences -----

  /** A caller overwrites everything in the copy it was given. */
  method Overwrite(p: PresentationObject, text: string)
    modifies p.Parts()
  {
    var moments := p.moments;
    for i := 0 to |moments| {
      assert moments[i] in old(p.Parts());
      moments[i].facts, moments[i].idempotencyKey := text, text;
    }
    p.facts := text;
  }

  /** Call `i` is answered as direct computation answers it, or refused there and not here. */
  ghost predicate Answered<C>(p: Projection<C>, call: (C, string), result: Option<PresentationValue>)
  {
    && (p.validKey(call.1) ==> result == p.compute(call.0, call.1))
    && (p.compute(call.0, call.1).Some? ==> result == p.compute(call.0, call.1))
  }

  /**
   Every call of a sequence whose key the decoder lets through gets what direct computation gives, although
   one cache serves them all and every caller overwrites its copy before the next call is made.
   */
  method ServeAll<C(!new)>(projection: Projection<C>, maximumEntries: nat, calls: seq<(C, string)>,
                           overwrites: seq<string>, ghost completions: Text -> C)
    returns (results: seq<Option<PresentationValue>>)
    requires KeyFlowsToHandoffs(projection) && |overwrites| == |calls|
    requires forall i :: 0 <= i < |calls| ==> completions(projection.keyOf(calls[i].0)) == calls[i].0
    ensures |results| == |calls|
    ensures forall i :: 0 <= i < |calls| ==> Answered(projection, calls[i], results[i])
  {
    var memo := new MemoisedProjection(projection, maximumEntries, completions);
    results := [];
    for i := 0 to |calls|
      invariant memo.Valid() && fresh(memo.Repr) && fresh(memo)
      invariant memo.projection == projection && memo.completions == completions
      invariant |results| == i
      invariant forall k :: 0 <= k < i ==> Answered(projection, calls[k], results[k])
    {
      var result := Serve(memo, calls[i], overwrites[i]);
      results := results + [result];
    }
  }

  /** One call, and what its caller then does to the copy. */
  method Serve<C(!new)>(memo: MemoisedProjection<C>, call: (C, string), overwrite: string)
    returns (result: Option<PresentationValue>)
    requires memo.Valid() && memo.completions(memo.projection.keyOf(call.0)) == call.0
    modifies memo`Repr, memo.cache
    ensures memo.Valid() && fresh(memo.Repr - old(memo.Repr))
    ensures Answered(memo.projection, call, result)
  {
    var copy := memo.Project(call.0, call.1);
    result := Read(copy);
    HitAnswers(memo.projection, call, result);
    hide Answered;
    hide KeyFlowsToHandoffs;
    if copy.Some? {
      Overwrite(copy.value, overwrite);
    }
  }

  lemma HitAnswers<C(!new)>(p: Projection<C>, call: (C, string), result: Option<PresentationValue>)
    requires KeyFlowsToHandoffs(p)
    requires result == p.compute(call.0, call.1) ||
      (!p.validKey(call.1) && exists k ::
        p.compute(call.0, k).Some? && result == Some(Bind(p.compute(call.0, k).value, call.1)))
    ensures Answered(p, call, result)
  {
    forall k | p.compute(call.0, k).Some?
      ensures p.compute(call.0, call.1) == Rebound(p, p.compute(call.0, k).value, call.1)
    {
    }
  }
}
