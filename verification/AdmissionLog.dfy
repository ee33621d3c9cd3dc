/**
 The sliding-window admission policy over a full log. The log keeps, for every window key, the times
 of all admissions not released since, oldest first, and never forgets one.
 */
module AdmissionLog {

  type Key = string

  datatype KeyLimit = KeyLimit(burst: nat, window: nat)

  /** How many keys may be live at once, and what each key may spend. */
  datatype Limits = Limits(maxKeys: nat, limitOf: Key -> KeyLimit)

  ghost predicate ValidLimits(limits: Limits)
  {
    limits.maxKeys > 0 && forall key: Key :: limits.limitOf(key).burst > 0 && limits.limitOf(key).window > 0
  }

  // ----- The log -----

  type Log = map<Key, seq<int>>

  function Stamps(log: Log, key: Key): seq<int>
  {
    if key in log then log[key] else []
  }

  function WindowOf(limits: Limits, key: Key): nat { limits.limitOf(key).window }

  function BurstOf(limits: Limits, key: Key): nat { limits.limitOf(key).burst }

  /** A charge counts until a full window has passed since it. */
  predicate IsLive(stamp: int, now: int, window: nat)
  {
    now - stamp < window
  }

  function LiveCount(stamps: seq<int>, now: int, window: nat): (n: nat)
    ensures n <= |stamps|
  {
    if stamps == [] then 0
    else (if IsLive(stamps[0], now, window) then 1 else 0) + LiveCount(stamps[1..], now, window)
  }

  ghost function LiveKeys(limits: Limits, log: Log, now: int): set<Key>
    requires ValidLimits(limits)
  {
    set key | key in log && LiveCount(log[key], now, WindowOf(limits, key)) > 0
  }

  /** The decision: few enough live charges, and a key that is live already or still fits. */
  ghost predicate Admits(limits: Limits, log: Log, key: Key, now: int)
    requires ValidLimits(limits)
  {
    && LiveCount(Stamps(log, key), now, WindowOf(limits, key)) < BurstOf(limits, key)
    && (LiveCount(Stamps(log, key), now, WindowOf(limits, key)) > 0 || |LiveKeys(limits, log, now)| < limits.maxKeys)
  }

  /** The list without the last occurrence of a stamp. */
  function WithoutLast(stamps: seq<int>, t: int): seq<int>
  {
    if stamps == [] then []
    else if t in stamps[1..] then [stamps[0]] + WithoutLast(stamps[1..], t)
    else if stamps[0] == t then stamps[1..]
    else stamps
  }

  /** One call: a decision at a time, or the release of one charge. */
  datatype Call = Decide(key: Key, now: int) | Release(key: Key, chargedAt: int)

  ghost function Apply(limits: Limits, log: Log, call: Call): Log
    requires ValidLimits(limits)
  {
    match call
    case Decide(key, now) => if Admits(limits, log, key, now) then log[key := Stamps(log, key) + [now]] else log
    case Release(key, chargedAt) => log[key := WithoutLast(Stamps(log, key), chargedAt)]
  }

  ghost function Run(limits: Limits, calls: seq<Call>): Log
    requires ValidLimits(limits)
  {
    if calls == [] then map[] else Apply(limits, Run(limits, calls[..|calls| - 1]), calls[|calls| - 1])
  }

  // ----- Facts about live charges -----

  ghost predicate Sorted(stamps: seq<int>)
  {
    forall i, j :: 0 <= i < j < |stamps| ==> stamps[i] <= stamps[j]
  }

  lemma {:induction false} LiveAppend(a: seq<int>, b: seq<int>, now: int, window: nat)
    ensures LiveCount(a + b, now, window) == LiveCount(a, now, window) + LiveCount(b, now, window)
  {
    if a == [] {
      assert a + b == b;
    } else {
      assert (a + b)[1..] == a[1..] + b;
      LiveAppend(a[1..], b, now, window);
    }
  }

  lemma {:induction false} AllLive(a: seq<int>, now: int, window: nat)
    requires forall i :: 0 <= i < |a| ==> IsLive(a[i], now, window)
    ensures LiveCount(a, now, window) == |a|
  {
    if a != [] {
      AllLive(a[1..], now, window);
    }
  }

  lemma {:induction false} NoneLive(a: seq<int>, now: int, window: nat)
    ensures LiveCount(a, now, window) == 0 <==> forall i :: 0 <= i < |a| ==> !IsLive(a[i], now, window)
  {
    if a != [] {
      NoneLive(a[1..], now, window);
      assert forall i :: 1 <= i < |a| ==> a[i] == a[1..][i - 1];
    }
  }

  lemma {:induction false} LiveDecreases(a: seq<int>, now: int, later: int, window: nat)
    requires now <= later
    ensures LiveCount(a, later, window) <= LiveCount(a, now, window)
  {
    if a != [] {
      LiveDecreases(a[1..], now, later, window);
    }
  }

  lemma {:induction false} WithoutLastLive(a: seq<int>, t: int, now: int, window: nat)
    ensures LiveCount(WithoutLast(a, t), now, window) <= LiveCount(a, now, window)
  {
    if a != [] && t in a[1..] {
      WithoutLastLive(a[1..], t, now, window);
    }
  }

  lemma {:induction false} WithoutLastMembers(a: seq<int>, t: int)
    ensures forall x :: x in WithoutLast(a, t) ==> x in a
  {
    if a != [] && t in a[1..] {
      WithoutLastMembers(a[1..], t);
    }
  }

  lemma {:induction false} WithoutLastSorted(a: seq<int>, t: int)
    requires Sorted(a)
    ensures Sorted(WithoutLast(a, t))
  {
    if a != [] && t in a[1..] {
      WithoutLastSorted(a[1..], t);
      WithoutLastMembers(a[1..], t);
      SortedCons(a[0], WithoutLast(a[1..], t));
    }
  }

  lemma SortedCons(x: int, r: seq<int>)
    requires Sorted(r) && forall y :: y in r ==> x <= y
    ensures Sorted([x] + r)
  {
    assert forall i :: 0 <= i < |r| ==> r[i] in r;
  }

  lemma {:induction false} WithoutLastCount(a: seq<int>, t: int, start: int, window: nat)
    ensures CountWithin(WithoutLast(a, t), start, window) <= CountWithin(a, start, window)
  {
    if a != [] && t in a[1..] {
      WithoutLastCount(a[1..], t, start, window);
    }
  }

  lemma {:induction false} WithoutLastOfAppend(a: seq<int>, t: int)
    ensures WithoutLast(a + [t], t) == a
  {
    if a != [] {
      assert (a + [t])[1..] == a[1..] + [t];
      WithoutLastOfAppend(a[1..], t);
    }
  }

  /** Releasing a charge just made restores the log. */
  lemma ReleaseUndoesAdmission(limits: Limits, log: Log, key: Key, now: int)
    requires ValidLimits(limits) && Admits(limits, log, key, now)
    ensures forall k ::
      Stamps(Apply(limits, Apply(limits, log, Decide(key, now)), Release(key, now)), k) == Stamps(log, k)
  {
    WithoutLastOfAppend(Stamps(log, key), now);
  }

  // ----- Safety over whole runs -----

  /** The decisions of the run happen at non-decreasing times, none after `now`. */
  ghost predicate Chronological(calls: seq<Call>, now: int)
  {
    && (forall i :: 0 <= i < |calls| && calls[i].Decide? ==> calls[i].now <= now)
    && forall i, j :: 0 <= i < j < |calls| && calls[i].Decide? && calls[j].Decide? ==> calls[i].now <= calls[j].now
  }

  /** Unreleased charges of one key made from `start` on and before `start + window`. */
  function CountWithin(stamps: seq<int>, start: int, window: nat): nat
  {
    if stamps == [] then 0
    else (if start <= stamps[0] < start + window then 1 else 0) + CountWithin(stamps[1..], start, window)
  }

  /** What the charges of one key satisfy in every reachable log. */
  ghost predicate KeyInvariant(stamps: seq<int>, now: int, window: nat, burst: nat)
  {
    && Sorted(stamps)
    && (forall t :: t in stamps ==> t <= now)
    && LiveCount(stamps, now, window) <= burst
    && forall start :: CountWithin(stamps, start, window) <= burst
  }

  ghost predicate LogInvariant(limits: Limits, log: Log, now: int)
    requires ValidLimits(limits)
  {
    && (forall key :: key in log ==> KeyInvariant(log[key], now, WindowOf(limits, key), BurstOf(limits, key)))
    && |LiveKeys(limits, log, now)| <= limits.maxKeys
  }

  lemma {:induction false} CountAppend(a: seq<int>, b: seq<int>, start: int, window: nat)
    ensures CountWithin(a + b, start, window) == CountWithin(a, start, window) + CountWithin(b, start, window)
  {
    if a == [] {
      assert a + b == b;
    } else {
      assert (a + b)[1..] == a[1..] + b;
      CountAppend(a[1..], b, start, window);
    }
  }

  /** An interval shorter than the window that contains `now` holds only live charges. */
  lemma {:induction false} WithinIsLive(a: seq<int>, start: int, now: int, window: nat)
    requires start <= now < start + window
    ensures CountWithin(a, start, window) <= LiveCount(a, now, window)
  {
    if a != [] {
      WithinIsLive(a[1..], start, now, window);
    }
  }

  lemma FewerKeys(a: set<Key>, b: set<Key>)
    requires a <= b
    ensures |a| <= |b|
  {
    assert b == a + (b - a);
  }

  lemma LaterKeys(limits: Limits, log: Log, now: int, later: int)
    requires ValidLimits(limits) && now <= later
    ensures LiveKeys(limits, log, later) <= LiveKeys(limits, log, now)
    ensures |LiveKeys(limits, log, later)| <= |LiveKeys(limits, log, now)|
  {
    forall key | key in LiveKeys(limits, log, later) ensures key in LiveKeys(limits, log, now) {
      LiveDecreases(log[key], now, later, WindowOf(limits, key));
    }
    FewerKeys(LiveKeys(limits, log, later), LiveKeys(limits, log, now));
  }

  lemma InvariantLater(limits: Limits, log: Log, now: int, later: int)
    requires ValidLimits(limits) && now <= later && LogInvariant(limits, log, now)
    ensures LogInvariant(limits, log, later)
  {
    LaterKeys(limits, log, now, later);
    forall key | key in log
      ensures KeyInvariant(log[key], later, WindowOf(limits, key), BurstOf(limits, key))
    {
      LiveDecreases(log[key], now, later, WindowOf(limits, key));
    }
  }

  lemma ChargeKeepsKey(stamps: seq<int>, now: int, window: nat, burst: nat)
    requires KeyInvariant(stamps, now, window, burst) && LiveCount(stamps, now, window) < burst && window > 0
    ensures KeyInvariant(stamps + [now], now, window, burst)
    ensures LiveCount(stamps + [now], now, window) == LiveCount(stamps, now, window) + 1
  {
    LiveAppend(stamps, [now], now, window);
    AllLive([now], now, window);
    assert forall t :: t in stamps + [now] ==> t in stamps || t == now;
    assert forall i :: 0 <= i < |stamps| ==> stamps[i] in stamps;
    forall start ensures CountWithin(stamps + [now], start, window) <= burst {
      CountAppend(stamps, [now], start, window);
      assert CountWithin([now], start, window) == if start <= now < start + window then 1 else 0;
      if start <= now < start + window {
        WithinIsLive(stamps, start, now, window);
      }
    }
  }

  lemma StampsInvariant(limits: Limits, log: Log, key: Key, now: int)
    requires ValidLimits(limits) && LogInvariant(limits, log, now)
    ensures KeyInvariant(Stamps(log, key), now, WindowOf(limits, key), BurstOf(limits, key))
  {
  }

  lemma AdmissionKeepsInvariant(limits: Limits, log: Log, key: Key, now: int)
    requires ValidLimits(limits) && LogInvariant(limits, log, now) && Admits(limits, log, key, now)
    ensures LogInvariant(limits, Apply(limits, log, Decide(key, now)), now)
  {
    var next := Apply(limits, log, Decide(key, now));
    StampsInvariant(limits, log, key, now);
    ChargeKeepsKey(Stamps(log, key), now, WindowOf(limits, key), BurstOf(limits, key));
    KeyChanged(limits, log, next, key, now);
    OthersUnchanged(limits, log, next, key, now);
  }

  lemma OthersUnchanged(limits: Limits, log: Log, next: Log, key: Key, now: int)
    requires ValidLimits(limits) && LogInvariant(limits, log, now)
    requires key in next && next == log[key := next[key]]
    requires KeyInvariant(next[key], now, WindowOf(limits, key), BurstOf(limits, key))
    ensures forall k :: k in next ==> KeyInvariant(next[k], now, WindowOf(limits, k), BurstOf(limits, k))
  {
    forall k | k in next ensures KeyInvariant(next[k], now, WindowOf(limits, k), BurstOf(limits, k)) {
      if k != key {
        assert k in log && next[k] == log[k];
      }
    }
  }

  /** Changing the charges of one key changes at most the liveness of that key. */
  lemma KeyChanged(limits: Limits, log: Log, next: Log, key: Key, now: int)
    requires ValidLimits(limits) && key in next && next == log[key := next[key]]
    ensures key in LiveKeys(limits, log, now) || LiveCount(next[key], now, WindowOf(limits, key)) == 0 ==>
      |LiveKeys(limits, next, now)| <= |LiveKeys(limits, log, now)|
    ensures |LiveKeys(limits, next, now)| <= |LiveKeys(limits, log, now)| + 1
  {
    var a, b := LiveKeys(limits, log, now), LiveKeys(limits, next, now);
    forall k | k in b && k != key ensures k in a {
      assert k in log && next[k] == log[k];
    }
    FewerKeys(b, a + {key});
    if key in a || key !in b {
      FewerKeys(b, a);
    }
  }

  lemma ReleaseKeepsInvariant(limits: Limits, log: Log, key: Key, chargedAt: int, now: int)
    requires ValidLimits(limits) && LogInvariant(limits, log, now)
    ensures LogInvariant(limits, Apply(limits, log, Release(key, chargedAt)), now)
  {
    var before, window := Stamps(log, key), WindowOf(limits, key);
    var next := Apply(limits, log, Release(key, chargedAt));
    StampsInvariant(limits, log, key, now);
    ReleaseKeepsKey(before, chargedAt, now, window, BurstOf(limits, key));
    WithoutLastLive(before, chargedAt, now, window);
    KeyChanged(limits, log, next, key, now);
    OthersUnchanged(limits, log, next, key, now);
  }

  lemma ReleaseKeepsKey(stamps: seq<int>, chargedAt: int, now: int, window: nat, burst: nat)
    requires KeyInvariant(stamps, now, window, burst)
    ensures KeyInvariant(WithoutLast(stamps, chargedAt), now, window, burst)
  {
    WithoutLastSorted(stamps, chargedAt);
    WithoutLastMembers(stamps, chargedAt);
    WithoutLastLive(stamps, chargedAt, now, window);
    forall start ensures CountWithin(WithoutLast(stamps, chargedAt), start, window) <= burst {
      WithoutLastCount(stamps, chargedAt, start, window);
    }
  }

  lemma {:induction false} RunInvariant(limits: Limits, calls: seq<Call>, now: int)
    requires ValidLimits(limits) && Chronological(calls, now)
    ensures LogInvariant(limits, Run(limits, calls), now)
    decreases |calls|
  {
    if calls != [] {
      var last, front := calls[|calls| - 1], calls[..|calls| - 1];
      if last.Decide? {
        RunInvariant(limits, front, last.now);
        if Admits(limits, Run(limits, front), last.key, last.now) {
          AdmissionKeepsInvariant(limits, Run(limits, front), last.key, last.now);
        }
        InvariantLater(limits, Run(limits, calls), last.now, now);
      } else {
        RunInvariant(limits, front, now);
        ReleaseKeepsInvariant(limits, Run(limits, front), last.key, last.chargedAt, now);
      }
    } else {
      assert LiveKeys(limits, map[], now) == {};
    }
  }

  /** No run puts more than `burst` never-released admissions of one key into an interval shorter than its window. */
  lemma RateIsBounded(limits: Limits, calls: seq<Call>, now: int, key: Key, start: int)
    requires ValidLimits(limits) && Chronological(calls, now)
    ensures CountWithin(Stamps(Run(limits, calls), key), start, WindowOf(limits, key)) <= BurstOf(limits, key)
    ensures |LiveKeys(limits, Run(limits, calls), now)| <= limits.maxKeys
  {
    RunInvariant(limits, calls, now);
  }

  // ----- Retry times -----

  /** `Math.max(1, Math.ceil(ms / 1000))`. */
  function SecondsUntil(milliseconds: int): (s: int)
    ensures s >= 1 && 1000 * s >= milliseconds
    ensures s > 1 ==> 1000 * (s - 1) < milliseconds
  {
    var ceiling := -(-milliseconds / 1000);
    if ceiling < 1 then 1 else ceiling
  }

  /** Oldest live charge of a sorted list. */
  function OldestLive(stamps: seq<int>, now: int, window: nat): (t: int)
    requires LiveCount(stamps, now, window) > 0
    ensures t in stamps && IsLive(t, now, window)
  {
    if IsLive(stamps[0], now, window) then stamps[0] else OldestLive(stamps[1..], now, window)
  }

  lemma {:induction false} LiveUntilOldest(stamps: seq<int>, now: int, t: int, window: nat)
    requires Sorted(stamps) && LiveCount(stamps, now, window) > 0 && now <= t
    ensures t < OldestLive(stamps, now, window) + window ==>
      LiveCount(stamps, t, window) == LiveCount(stamps, now, window)
    ensures t >= OldestLive(stamps, now, window) + window ==>
      LiveCount(stamps, t, window) < LiveCount(stamps, now, window)
  {
    if IsLive(stamps[0], now, window) {
      if t < stamps[0] + window {
        AllLive(stamps, t, window);
        AllLive(stamps, now, window);
      } else {
        LiveDecreases(stamps[1..], now, t, window);
      }
    } else {
      LiveUntilOldest(stamps[1..], now, t, window);
    }
  }

  function BurstRetry(limits: Limits, log: Log, key: Key, now: int): int
    requires ValidLimits(limits) && LiveCount(Stamps(log, key), now, WindowOf(limits, key)) > 0
  {
    SecondsUntil(OldestLive(Stamps(log, key), now, WindowOf(limits, key)) + WindowOf(limits, key) - now)
  }

  /**
   The retry time of a burst rejection is the least whole number of seconds that works: with no calls in
   between, the key is admitted at any time from then on, and is still rejected at any time up to one second earlier.
   */
  lemma BurstRetryIsLeast(limits: Limits, log: Log, key: Key, now: int, t: int)
    requires ValidLimits(limits) && LogInvariant(limits, log, now)
    requires LiveCount(Stamps(log, key), now, WindowOf(limits, key)) >= BurstOf(limits, key)
    ensures t >= now + 1000 * BurstRetry(limits, log, key, now) ==> Admits(limits, log, key, t)
    ensures now <= t <= now + 1000 * (BurstRetry(limits, log, key, now) - 1) ==> !Admits(limits, log, key, t)
  {
    var stamps, window := Stamps(log, key), WindowOf(limits, key);
    var retry := BurstRetry(limits, log, key, now);
    if t >= now + 1000 * retry {
      LiveUntilOldest(stamps, now, t, window);
      LaterKeys(limits, log, now, t);
      if LiveCount(stamps, t, window) == 0 {
        assert key in LiveKeys(limits, log, now) && key !in LiveKeys(limits, log, t);
        assert LiveKeys(limits, log, t) <= LiveKeys(limits, log, now) - {key};
        FewerKeys(LiveKeys(limits, log, t), LiveKeys(limits, log, now) - {key});
      }
    } else if now <= t <= now + 1000 * (retry - 1) {
      LiveUntilOldest(stamps, now, t, window);
    }
  }

  /** `least` is the oldest live charge of some live key plus its window, and no key has an earlier one. */
  ghost predicate EarliestReady(limits: Limits, log: Log, now: int, least: int)
    requires ValidLimits(limits)
  {
    && (forall key :: key in LiveKeys(limits, log, now) ==>
          least <= OldestLive(log[key], now, WindowOf(limits, key)) + WindowOf(limits, key))
    && exists key :: key in LiveKeys(limits, log, now)
         && least == OldestLive(log[key], now, WindowOf(limits, key)) + WindowOf(limits, key)
  }

  /** The retry time of a key-limit rejection is a lower bound: a new key is rejected up to one second earlier. */
  lemma KeyLimitRetryIsLowerBound(limits: Limits, log: Log, key: Key, now: int, least: int, t: int)
    requires ValidLimits(limits) && LogInvariant(limits, log, now)
    requires LiveCount(Stamps(log, key), now, WindowOf(limits, key)) == 0
    requires |LiveKeys(limits, log, now)| >= limits.maxKeys
    requires EarliestReady(limits, log, now, least)
    requires now <= t <= now + 1000 * (SecondsUntil(least - now) - 1)
    ensures !Admits(limits, log, key, t)
  {
    LiveDecreases(Stamps(log, key), now, t, WindowOf(limits, key));
    forall other | other in LiveKeys(limits, log, now) ensures other in LiveKeys(limits, log, t) {
      LiveUntilOldest(log[other], now, t, WindowOf(limits, other));
    }
    FewerKeys(LiveKeys(limits, log, now), LiveKeys(limits, log, t));
  }

  /** Every charge of the key has expired by `t`. */
  ghost predicate ExpiredBy(limits: Limits, log: Log, key: Key, t: int)
  {
    forall s :: s in Stamps(log, key) ==> s + WindowOf(limits, key) <= t
  }

  /**
   Exactly when waiting works: with no calls in between, a key that found no room is admitted at `t` if and
   only if some key that was live then has no live charge left.
   */
  lemma KeyLimitAdmitsIff(limits: Limits, log: Log, key: Key, now: int, t: int)
    requires ValidLimits(limits) && LogInvariant(limits, log, now) && now <= t
    requires LiveCount(Stamps(log, key), now, WindowOf(limits, key)) == 0
    requires |LiveKeys(limits, log, now)| >= limits.maxKeys
    ensures Admits(limits, log, key, t) <==> exists k :: k in LiveKeys(limits, log, now) && ExpiredBy(limits, log, k, t)
  {
    LiveDecreases(Stamps(log, key), now, t, WindowOf(limits, key));
    LaterKeys(limits, log, now, t);
    forall k | k in LiveKeys(limits, log, now)
      ensures k in LiveKeys(limits, log, t) <==> !ExpiredBy(limits, log, k, t)
    {
      LiveUnlessExpired(limits, log, k, t);
    }
    if k :| k in LiveKeys(limits, log, now) && ExpiredBy(limits, log, k, t) {
      FewerKeys(LiveKeys(limits, log, t), LiveKeys(limits, log, now) - {k});
    } else {
      assert LiveKeys(limits, log, t) == LiveKeys(limits, log, now);
    }
  }

  lemma LiveUnlessExpired(limits: Limits, log: Log, key: Key, t: int)
    requires ValidLimits(limits) && key in log
    ensures key in LiveKeys(limits, log, t) <==> !ExpiredBy(limits, log, key, t)
  {
    var stamps, window := log[key], WindowOf(limits, key);
    NoneLive(stamps, t, window);
    if ExpiredBy(limits, log, key, t) {
      forall i | 0 <= i < |stamps| ensures !IsLive(stamps[i], t, window) {
        assert stamps[i] in Stamps(log, key);
      }
    } else {
      var s :| s in stamps && !(s + window <= t);
      var i :| 0 <= i < |stamps| && stamps[i] == s;
      assert IsLive(stamps[i], t, window);
    }
  }
}
