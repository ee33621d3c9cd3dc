/**
 The bounded cache of the presentation projections: a JavaScript Map, whose entries keep insertion
 order, with look-ups that reinsert and fills that evict from the front.
 */
module RecencyCache {
  import opened Optional
  import opened Utf16Text

  datatype Entry<T> = Entry(key: Text, value: T)

  function Keys<T>(es: seq<Entry<T>>): (ks: seq<Text>)
    ensures |ks| == |es| && forall i :: 0 <= i < |ks| ==> ks[i] == es[i].key
  {
    seq(|es|, i requires 0 <= i < |es| => es[i].key)
  }

  ghost predicate Distinct(ks: seq<Text>)
  {
    forall i, j :: 0 <= i < j < |ks| ==> ks[i] != ks[j]
  }

  function Find<T>(es: seq<Entry<T>>, key: Text): Option<T>
  {
    if es == [] then None
    else if es[0].key == key then Some(es[0].value)
    else Find(es[1..], key)
  }

  /** `Map.delete`. */
  function Without<T>(es: seq<Entry<T>>, key: Text): seq<Entry<T>>
  {
    if es == [] then []
    else if es[0].key == key then es[1..]
    else [es[0]] + Without(es[1..], key)
  }

  /** The last `n` elements, or all of them. */
  function Recent<T>(xs: seq<T>, n: nat): (r: seq<T>)
    ensures |r| == if |xs| <= n then |xs| else n
  {
    if |xs| <= n then xs else xs[|xs| - n..]
  }

  /** What the cache holds after looking a key up. */
  function Touched<T>(es: seq<Entry<T>>, key: Text): seq<Entry<T>>
  {
    match Find(es, key)
    case None => es
    case Some(v) => Without(es, key) + [Entry(key, v)]
  }

  /** What it holds after storing a value. */
  function Filled<T>(es: seq<Entry<T>>, limit: nat, key: Text, value: T): seq<Entry<T>>
  {
    Recent(Without(es, key) + [Entry(key, value)], limit)
  }

  class BoundedCache<T> {
    const maximumEntries: nat
    var entries: seq<Entry<T>>

    constructor (maximumEntries: nat)
      ensures this.maximumEntries == maximumEntries && entries == []
    {
      this.maximumEntries, entries := maximumEntries, [];
    }

    method Get(key: Text) returns (value: Option<T>)
      modifies this
      ensures value == Find(old(entries), key)
      ensures entries == Touched(old(entries), key)
    {
      value := Find(entries, key);
      if value.None? {
        return;
      }
      entries := Without(entries, key);
      entries := entries + [Entry(key, value.value)];
    }

    method Set(key: Text, value: T)
      modifies this
      ensures entries == Filled(old(entries), maximumEntries, key, value)
    {
      entries := Without(entries, key);
      entries := entries + [Entry(key, value)];
      ghost var all := entries;
      while |entries| > maximumEntries
        invariant |entries| <= |all| && entries == all[|all| - |entries|..]
        invariant |entries| >= |Recent(all, maximumEntries)|
      {
        entries := entries[1..];
      }
    }

    method Clear()
      modifies this
      ensures entries == []
    {
      entries := [];
    }
  }

  // ----- Look up, and fill on a miss -----

  datatype Access<T> = Access(key: Text, computed: T)

  function Use<T>(es: seq<Entry<T>>, limit: nat, a: Access<T>): seq<Entry<T>>
  {
    if Find(es, a.key).Some? then Touched(es, a.key) else Filled(es, limit, a.key, a.computed)
  }

  function Trace<T>(limit: nat, accesses: seq<Access<T>>): seq<Entry<T>>
  {
    if accesses == [] then []
    else Use(Trace(limit, accesses[..|accesses| - 1]), limit, accesses[|accesses| - 1])
  }

  function KeyWithout(ks: seq<Text>, key: Text): seq<Text>
  {
    if ks == [] then []
    else if ks[0] == key then ks[1..]
    else [ks[0]] + KeyWithout(ks[1..], key)
  }

  /** All keys of a trace, least recently used first. */
  function ByRecency<T>(accesses: seq<Access<T>>): seq<Text>
  {
    if accesses == [] then []
    else
      var key := accesses[|accesses| - 1].key;
      KeyWithout(ByRecency(accesses[..|accesses| - 1]), key) + [key]
  }

  lemma {:induction false} FindKey<T>(es: seq<Entry<T>>, key: Text)
    ensures Find(es, key).Some? <==> key in Keys(es)
    ensures Keys(Without(es, key)) == KeyWithout(Keys(es), key)
  {
    if es != [] {
      assert Keys(es) == [es[0].key] + Keys(es[1..]);
      FindKey(es[1..], key);
      if es[0].key != key {
        assert Keys([es[0]] + Without(es[1..], key)) == [es[0].key] + Keys(Without(es[1..], key));
      }
    } else {
      assert Keys(es) == [];
    }
  }

  lemma {:induction false} KeyWithoutAbsent(ks: seq<Text>, key: Text)
    requires key !in ks
    ensures KeyWithout(ks, key) == ks
  {
    if ks != [] {
      KeyWithoutAbsent(ks[1..], key);
    }
  }

  lemma {:induction false} KeyWithoutDistinct(ks: seq<Text>, key: Text)
    requires Distinct(ks)
    ensures Distinct(KeyWithout(ks, key)) && key !in KeyWithout(ks, key)
    ensures forall k :: k in KeyWithout(ks, key) <==> k in ks && k != key
  {
    if ks != [] {
      assert forall i, j :: 0 <= i < j < |ks[1..]| ==> ks[1..][i] == ks[i + 1] && ks[1..][j] == ks[j + 1];
      assert ks[0] !in ks[1..] by {
        assert forall i :: 0 <= i < |ks[1..]| ==> ks[1..][i] == ks[i + 1] != ks[0];
      }
      if ks[0] == key {
      } else {
        KeyWithoutDistinct(ks[1..], key);
        DistinctCons(ks[0], KeyWithout(ks[1..], key));
      }
    }
  }

  lemma DistinctCons(k: Text, ks: seq<Text>)
    requires Distinct(ks) && k !in ks
    ensures Distinct([k] + ks)
  {
  }

  lemma {:induction false} KeyWithoutSplit(a: seq<Text>, b: seq<Text>, key: Text)
    ensures key in a ==> KeyWithout(a + b, key) == KeyWithout(a, key) + b
    ensures key !in a ==> KeyWithout(a + b, key) == a + KeyWithout(b, key)
  {
    if a == [] {
      assert a + b == b;
    } else {
      assert (a + b)[1..] == a[1..] + b;
      KeyWithoutSplit(a[1..], b, key);
    }
  }

  lemma {:induction false} ByRecencyDistinct<T>(accesses: seq<Access<T>>)
    ensures Distinct(ByRecency(accesses))
    ensures forall k :: k in ByRecency(accesses) <==> exists i :: 0 <= i < |accesses| && accesses[i].key == k
  {
    if accesses != [] {
      var n := |accesses| - 1;
      var key := accesses[n].key;
      ByRecencyDistinct(accesses[..n]);
      KeyWithoutDistinct(ByRecency(accesses[..n]), key);
      assert accesses == accesses[..n] + [accesses[n]];
      forall k ensures k in ByRecency(accesses) <==> exists i :: 0 <= i < |accesses| && accesses[i].key == k {
        if k in ByRecency(accesses[..n]) {
          var i :| 0 <= i < n && accesses[..n][i].key == k;
          assert accesses[i].key == k;
        }
        if i :| 0 <= i < |accesses| && accesses[i].key == k {
          assert i < n ==> accesses[..n][i].key == k;
        }
      }
    }
  }

  /** Removing and re-appending a key in the last `n` is the same as doing so in the whole list. */
  lemma RecentOfTouch(ks: seq<Text>, n: nat, key: Text)
    requires Distinct(ks)
    ensures key in Recent(ks, n) ==> KeyWithout(Recent(ks, n), key) + [key] == Recent(KeyWithout(ks, key) + [key], n)
    ensures key !in Recent(ks, n) ==> Recent(Recent(ks, n) + [key], n) == Recent(KeyWithout(ks, key) + [key], n)
  {
    if |ks| <= n {
      KeyWithoutLength(ks, key);
      if key !in ks {
        KeyWithoutAbsent(ks, key);
      }
    } else {
      assert ks == ks[..|ks| - n] + Recent(ks, n);
      TouchSplit(ks[..|ks| - n], Recent(ks, n), n, key);
    }
  }

  lemma TouchSplit(a: seq<Text>, b: seq<Text>, n: nat, key: Text)
    requires Distinct(a + b) && |b| == n
    ensures key in b ==> KeyWithout(b, key) + [key] == Recent(KeyWithout(a + b, key) + [key], n)
    ensures key !in b ==> Recent(b + [key], n) == Recent(KeyWithout(a + b, key) + [key], n)
  {
    KeyWithoutSplit(a, b, key);
    KeyWithoutLength(a, key);
    KeyWithoutLength(b, key);
    if key in b {
      assert forall i :: 0 <= i < |a| ==> (a + b)[i] == a[i];
      assert forall j :: 0 <= j < |b| ==> (a + b)[|a| + j] == b[j];
      assert key !in a;
      RecentOfAppend(a, KeyWithout(b, key) + [key], n);
      assert a + KeyWithout(b, key) + [key] == a + (KeyWithout(b, key) + [key]);
    } else {
      KeyWithoutAbsent(b, key);
      var front := if key in a then KeyWithout(a, key) else a;
      assert KeyWithout(a + b, key) + [key] == front + (b + [key]);
      LastOfAppend(front, b + [key], n);
    }
  }

  lemma RecentOfAppend(a: seq<Text>, b: seq<Text>, n: nat)
    requires |b| == n
    ensures Recent(a + b, n) == b
  {
  }

  lemma LastOfAppend(a: seq<Text>, b: seq<Text>, n: nat)
    requires n <= |b|
    ensures Recent(a + b, n) == Recent(b, n)
  {
  }

  lemma {:induction false} KeyWithoutLength(ks: seq<Text>, key: Text)
    ensures |KeyWithout(ks, key)| == |ks| - if key in ks then 1 else 0
  {
    if ks != [] {
      KeyWithoutLength(ks[1..], key);
    }
  }

  lemma KeysOfRecent<T>(es: seq<Entry<T>>, n: nat)
    ensures Keys(Recent(es, n)) == Recent(Keys(es), n)
  {
  }

  lemma KeysAppend<T>(es: seq<Entry<T>>, e: Entry<T>)
    ensures Keys(es + [e]) == Keys(es) + [e.key]
  {
  }

  /** The cache holds exactly the most recently used keys, as many as fit, in order of use. */
  lemma {:induction false} HoldsMostRecent<T>(limit: nat, accesses: seq<Access<T>>)
    ensures Keys(Trace(limit, accesses)) == Recent(ByRecency(accesses), limit)
  {
    if accesses == [] {
      assert Keys<T>([]) == [];
    } else {
      var n := |accesses| - 1;
      var a := accesses[n];
      var es := Trace(limit, accesses[..n]);
      HoldsMostRecent(limit, accesses[..n]);
      ByRecencyDistinct(accesses[..n]);
      RecentOfTouch(ByRecency(accesses[..n]), limit, a.key);
      FindKey(es, a.key);
      if Find(es, a.key).Some? {
        KeysAppend(Without(es, a.key), Entry(a.key, Find(es, a.key).value));
      } else {
        KeyWithoutAbsent(Keys(es), a.key);
        KeysAppend(Without(es, a.key), Entry(a.key, a.computed));
        KeysOfRecent(Without(es, a.key) + [Entry(a.key, a.computed)], limit);
      }
    }
  }

  ghost predicate LastUse<T>(accesses: seq<Access<T>>, key: Text, i: nat)
  {
    i < |accesses| && accesses[i].key == key && forall j :: i < j < |accesses| ==> accesses[j].key != key
  }

  /** Order of recency is order of last use. */
  lemma {:induction false} RecencyIsLastUse<T>(accesses: seq<Access<T>>, p: nat, q: nat, i: nat, j: nat)
    requires p < q < |ByRecency(accesses)|
    requires LastUse(accesses, ByRecency(accesses)[p], i) && LastUse(accesses, ByRecency(accesses)[q], j)
    ensures i < j
  {
    var n := |accesses| - 1;
    var key, before := accesses[n].key, ByRecency(accesses[..n]);
    ByRecencyDistinct(accesses);
    ByRecencyDistinct(accesses[..n]);
    var all := ByRecency(accesses);
    if q < |all| - 1 {
      KeyWithoutDistinct(before, key);
      KeyWithoutOrder(before, key, p, q);
      var p', q' :| 0 <= p' < q' < |before| && before[p'] == all[p] && before[q'] == all[q];
      assert LastUse(accesses[..n], before[p'], i) && LastUse(accesses[..n], before[q'], j);
      RecencyIsLastUse(accesses[..n], p', q', i, j);
    } else {
      assert all[q] == key && all[p] != key;
    }
  }

  lemma {:induction false} KeyWithoutOrder(ks: seq<Text>, key: Text, p: nat, q: nat)
    requires p < q < |KeyWithout(ks, key)|
    ensures exists p', q' :: 0 <= p' < q' < |ks| && ks[p'] == KeyWithout(ks, key)[p] && ks[q'] == KeyWithout(ks, key)[q]
  {
    if ks[0] == key {
      assert ks[p + 1] == KeyWithout(ks, key)[p] && ks[q + 1] == KeyWithout(ks, key)[q];
    } else if p > 0 {
      KeyWithoutOrder(ks[1..], key, p - 1, q - 1);
      var p', q' :| 0 <= p' < q' < |ks[1..]| && ks[1..][p'] == KeyWithout(ks[1..], key)[p - 1]
        && ks[1..][q'] == KeyWithout(ks[1..], key)[q - 1];
      assert ks[p' + 1] == KeyWithout(ks, key)[p] && ks[q' + 1] == KeyWithout(ks, key)[q];
    } else {
      KeyWithoutMember(ks[1..], key, q - 1);
      var q' :| 0 <= q' < |ks[1..]| && ks[1..][q'] == KeyWithout(ks[1..], key)[q - 1];
      assert ks[0] == KeyWithout(ks, key)[p] && ks[q' + 1] == KeyWithout(ks, key)[q];
    }
  }

  lemma {:induction false} KeyWithoutMember(ks: seq<Text>, key: Text, q: nat)
    requires q < |KeyWithout(ks, key)|
    ensures exists q' :: 0 <= q' < |ks| && ks[q'] == KeyWithout(ks, key)[q]
  {
    if ks[0] == key {
      assert ks[q + 1] == KeyWithout(ks, key)[q];
    } else if q > 0 {
      KeyWithoutMember(ks[1..], key, q - 1);
      var q' :| 0 <= q' < |ks[1..]| && ks[1..][q'] == KeyWithout(ks[1..], key)[q - 1];
      assert ks[q' + 1] == KeyWithout(ks, key)[q];
    }
  }

  // ----- Looking up in a changed list -----

  lemma {:induction false} FindWithout<T>(es: seq<Entry<T>>, key: Text, k: Text)
    requires k != key
    ensures Find(Without(es, key), k) == Find(es, k)
  {
    if es != [] && es[0].key != key {
      FindWithout(es[1..], key, k);
    }
  }

  lemma {:induction false} FindAppend<T>(a: seq<Entry<T>>, b: seq<Entry<T>>, k: Text)
    ensures Find(a + b, k) == if Find(a, k).Some? then Find(a, k) else Find(b, k)
  {
    if a == [] {
      assert a + b == b;
    } else {
      assert (a + b)[1..] == a[1..] + b;
      FindAppend(a[1..], b, k);
    }
  }

  /** Dropping entries from the front of a list with distinct keys does not change what is still found. */
  lemma FindRecent<T>(es: seq<Entry<T>>, n: nat, k: Text)
    requires Distinct(Keys(es)) && Find(Recent(es, n), k).Some?
    ensures Find(es, k) == Find(Recent(es, n), k)
  {
    if |es| > n {
      var a, b := es[..|es| - n], es[|es| - n..];
      assert es == a + b;
      FindAppend(a, b, k);
      FindKey(a, k);
      FindKey(b, k);
      OnlyInOneHalf(a, b, k);
    }
  }

  lemma OnlyInOneHalf<T>(a: seq<Entry<T>>, b: seq<Entry<T>>, k: Text)
    requires Distinct(Keys(a + b)) && k in Keys(b)
    ensures k !in Keys(a)
  {
    var all := Keys(a + b);
    var j :| 0 <= j < |b| && Keys(b)[j] == k;
    assert all[|a| + j] == k;
    forall i | 0 <= i < |a| ensures Keys(a)[i] != k {
      assert all[i] == Keys(a)[i];
    }
  }

  lemma TraceDistinct<T>(limit: nat, accesses: seq<Access<T>>)
    ensures Distinct(Keys(Trace(limit, accesses)))
  {
    HoldsMostRecent(limit, accesses);
    ByRecencyDistinct(accesses);
  }

  lemma DistinctAppend(ks: seq<Text>, k: Text)
    requires Distinct(ks) && k !in ks
    ensures Distinct(ks + [k])
  {
  }

  lemma FoundAfterFill<T>(es: seq<Entry<T>>, limit: nat, key: Text, value: T)
    requires Distinct(Keys(es)) && Find(Filled(es, limit, key, value), key).Some?
    ensures Find(Filled(es, limit, key, value), key) == Some(value)
  {
    var kept, e := Without(es, key), Entry(key, value);
    FindKey(es, key);
    KeyWithoutDistinct(Keys(es), key);
    KeysAppend(kept, e);
    DistinctAppend(Keys(kept), key);
    FindRecent(kept + [e], limit, key);
    FindAppend(kept, [e], key);
    FindKey(kept, key);
  }

  lemma FoundBefore<T>(es: seq<Entry<T>>, limit: nat, a: Access<T>, key: Text)
    requires Distinct(Keys(es)) && Find(Use(es, limit, a), key).Some?
    requires a.key != key || Find(es, key).Some?
    ensures Find(Use(es, limit, a), key) == Find(es, key)
  {
    var kept := Without(es, a.key);
    FindKey(es, a.key);
    KeyWithoutDistinct(Keys(es), a.key);
    FindKey(kept, key);
    if a.key != key {
      FindWithout(es, a.key, key);
    }
    if Find(es, a.key).Some? {
      FindAppend(kept, [Entry(a.key, Find(es, a.key).value)], key);
    } else {
      var e := Entry(a.key, a.computed);
      KeysAppend(kept, e);
      DistinctAppend(Keys(kept), a.key);
      FindRecent(kept + [e], limit, key);
      FindAppend(kept, [e], key);
    }
  }

  /** Access `i` found its key missing, and no later access of that key did. */
  ghost predicate LastFill<T>(limit: nat, accesses: seq<Access<T>>, key: Text, i: nat)
  {
    && i < |accesses| && accesses[i].key == key && Find(Trace(limit, accesses[..i]), key).None?
    && forall j :: i < j < |accesses| && accesses[j].key == key ==> Find(Trace(limit, accesses[..j]), key).Some?
  }

  /** A cached value is the one computed at the last miss of its key. */
  lemma {:induction false} HoldsLastValue<T>(limit: nat, accesses: seq<Access<T>>, key: Text)
    requires Find(Trace(limit, accesses), key).Some?
    ensures exists i: nat ::
      LastFill(limit, accesses, key, i) && Find(Trace(limit, accesses), key).value == accesses[i].computed
  {
    var n := |accesses| - 1;
    var a, es := accesses[n], Trace(limit, accesses[..n]);
    if a.key == key && Find(es, key).None? {
      TraceDistinct(limit, accesses[..n]);
      FoundAfterFill(es, limit, key, a.computed);
      assert LastFill(limit, accesses, key, n);
    } else {
      TraceDistinct(limit, accesses[..n]);
      FoundBefore(es, limit, a, key);
      HoldsLastValue(limit, accesses[..n], key);
      var i: nat :| LastFill(limit, accesses[..n], key, i) && Find(es, key).value == accesses[..n][i].computed;
      LastFillStays(limit, accesses, key, i);
    }
  }

  lemma LastFillStays<T>(limit: nat, accesses: seq<Access<T>>, key: Text, i: nat)
    requires accesses != [] && LastFill(limit, accesses[..|accesses| - 1], key, i)
    requires accesses[|accesses| - 1].key == key ==> Find(Trace(limit, accesses[..|accesses| - 1]), key).Some?
    ensures LastFill(limit, accesses, key, i)
  {
    hide Find;
    hide Trace;
    var n := |accesses| - 1;
    assert accesses[..n][..i] == accesses[..i];
    forall j | i < j < |accesses| && accesses[j].key == key ensures Find(Trace(limit, accesses[..j]), key).Some? {
      if j < n {
        assert accesses[..n][..j] == accesses[..j] && accesses[..n][j] == accesses[j];
      }
    }
  }

  /** Every access of a key computes the same value. */
  ghost predicate KeyDeterminesValue<T(!new)>(accesses: seq<Access<T>>)
  {
    forall i, j :: 0 <= i < |accesses| && 0 <= j < |accesses| && accesses[i].key == accesses[j].key ==>
      accesses[i].computed == accesses[j].computed
  }

  /**
   On the same trace a smaller cache holds the most recent keys of a larger one, in the same order. When keys
   determine values, whatever is found in the smaller one is found in the larger one.
   */
  lemma SmallerIsContained<T(!new)>(small: nat, large: nat, accesses: seq<Access<T>>)
    requires small <= large
    ensures Keys(Trace(small, accesses)) == Recent(Keys(Trace(large, accesses)), small)
    ensures KeyDeterminesValue(accesses) ==> forall key :: Find(Trace(small, accesses), key).Some? ==>
      Find(Trace(large, accesses), key) == Find(Trace(small, accesses), key)
  {
    HoldsMostRecent(small, accesses);
    HoldsMostRecent(large, accesses);
    if KeyDeterminesValue(accesses) {
      forall key | Find(Trace(small, accesses), key).Some?
        ensures Find(Trace(large, accesses), key) == Find(Trace(small, accesses), key)
      {
        FindKey(Trace(small, accesses), key);
        FindKey(Trace(large, accesses), key);
        HoldsLastValue(small, accesses, key);
        HoldsLastValue(large, accesses, key);
      }
    }
  }

  // ----- Which entries an operation keeps -----

  lemma {:induction false} FindMember<T>(es: seq<Entry<T>>, key: Text)
    ensures Find(es, key).Some? ==> Entry(key, Find(es, key).value) in es
  {
    if es != [] && es[0].key != key {
      FindMember(es[1..], key);
    }
  }

  lemma {:induction false} WithoutMembers<T>(es: seq<Entry<T>>, key: Text)
    ensures forall i :: 0 <= i < |Without(es, key)| ==> Without(es, key)[i] in es
  {
    if es != [] && es[0].key != key {
      WithoutMembers(es[1..], key);
      var r := Without(es[1..], key);
      assert Without(es, key) == [es[0]] + r;
      assert forall i :: 0 <= i < |r| ==> r[i] in es[1..] && r[i] in es;
    }
  }

  lemma TouchedMembers<T>(es: seq<Entry<T>>, key: Text)
    ensures forall i :: 0 <= i < |Touched(es, key)| ==> Touched(es, key)[i] in es
  {
    FindMember(es, key);
    WithoutMembers(es, key);
  }

  lemma FilledMembers<T>(es: seq<Entry<T>>, limit: nat, key: Text, value: T)
    ensures forall i :: 0 <= i < |Filled(es, limit, key, value)| ==>
      Filled(es, limit, key, value)[i] in es || Filled(es, limit, key, value)[i] == Entry(key, value)
  {
    WithoutMembers(es, key);
  }
}
