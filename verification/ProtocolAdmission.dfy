/**
 The admission object of the public protocol routes: a bounded map from window keys to arrays of
 charge times, expired lazily and changed in place. Every method is proved against the full log.
 */
module ProtocolAdmission {
  import opened AdmissionLog
  import opened BlankText
  import opened NumberText

  datatype RouteClass =
    | MetadataJwks | Registration | Authorization | Token | UnauthenticatedMcp | AuthenticatedMcp | Health

  datatype ClassLimit = ClassLimit(baseline: nat, burst: nat, ceiling: nat, windowMilliseconds: nat)

  datatype Policy = Policy(maxKeys: nat, classes: map<RouteClass, ClassLimit>)

  /** What a validated policy keeps of each class. */
  predicate ValidLimit(limit: ClassLimit)
  {
    && limit.baseline > 0 && limit.windowMilliseconds > 0
    && limit.burst >= limit.baseline * 10 && limit.ceiling >= limit.burst
  }

  predicate ValidPolicy(policy: Policy)
  {
    && policy.maxKeys > 0
    && forall c: RouteClass :: c in policy.classes && ValidLimit(policy.classes[c])
  }

  /** The checked-in policy. */
  const POLICY_V1 := Policy(10000, map[
    MetadataJwks := ClassLimit(8, 80, 240, 60000),
    Registration := ClassLimit(2, 20, 40, 60000),
    Authorization := ClassLimit(12, 120, 240, 60000),
    Token := ClassLimit(4, 40, 80, 60000),
    UnauthenticatedMcp := ClassLimit(6, 60, 120, 60000),
    AuthenticatedMcp := ClassLimit(40, 400, 600, 60000),
    Health := ClassLimit(12, 120, 300, 60000)])

  lemma PolicyV1IsValid()
    ensures ValidPolicy(POLICY_V1)
  {
    forall c: RouteClass ensures c in POLICY_V1.classes && ValidLimit(POLICY_V1.classes[c]) {
      match c
      case MetadataJwks =>
      case Registration =>
      case Authorization =>
      case Token =>
      case UnauthenticatedMcp =>
      case AuthenticatedMcp =>
      case Health =>
    }
  }

  /** The limits of every key, by the class its name starts with. */
  function LimitsOf(policy: Policy): (limits: Limits)
    requires ValidPolicy(policy)
    ensures ValidLimits(limits)
  {
    Limits(policy.maxKeys, (key: Key) => ClassKeyLimit(policy, ClassOfKey(key)))
  }

  function ClassKeyLimit(policy: Policy, c: RouteClass): KeyLimit
  {
    if c in policy.classes then KeyLimit(policy.classes[c].burst, policy.classes[c].windowMilliseconds)
    else KeyLimit(0, 0)
  }

  // ----- Window keys -----

  function ClassName(c: RouteClass): (name: string)
    ensures '\0' !in name
  {
    match c
    case MetadataJwks => "metadataJwks"
    case Registration => "registration"
    case Authorization => "authorization"
    case Token => "token"
    case UnauthenticatedMcp => "unauthenticatedMcp"
    case AuthenticatedMcp => "authenticatedMcp"
    case Health => "health"
  }

  function WindowKey(c: RouteClass, identity: string): string
  {
    ClassName(c) + ['\0'] + identity
  }

  /** The part of a key before its first NUL. */
  function Prefix(key: string): string
  {
    if key == [] || key[0] == '\0' then [] else [key[0]] + Prefix(key[1..])
  }

  const ROUTE_CLASSES: seq<RouteClass> :=
    [MetadataJwks, Registration, Authorization, Token, UnauthenticatedMcp, AuthenticatedMcp, Health]

  /** Looks a name up in a pick list; the last class stands for a name that is not there. */
  function ClassNamed(name: string, classes: seq<RouteClass>): RouteClass
  {
    if classes == [] then Health
    else if ClassName(classes[0]) == name then classes[0]
    else ClassNamed(name, classes[1..])
  }

  /** `routeClassFromKey`: the keys of the object are window keys, so their class names always parse. */
  function ClassOfKey(key: string): RouteClass
  {
    ClassNamed(Prefix(key), ROUTE_CLASSES)
  }

  lemma ClassNameInjective(c: RouteClass, d: RouteClass)
    ensures ClassName(c) == ClassName(d) <==> c == d
  {
    if ClassName(c) == ClassName(d) {
      assert |ClassName(c)| == |ClassName(d)| && ClassName(c)[0] == ClassName(d)[0];
    }
  }

  lemma {:induction false} ClassIsFound(c: RouteClass, classes: seq<RouteClass>)
    requires c in classes
    ensures ClassNamed(ClassName(c), classes) == c
  {
    ClassNameInjective(classes[0], c);
    if classes[0] != c {
      ClassIsFound(c, classes[1..]);
    }
  }

  lemma {:induction false} PrefixOfKey(name: string, identity: string)
    requires '\0' !in name
    ensures Prefix(name + ['\0'] + identity) == name
  {
    var key := name + ['\0'] + identity;
    if name != [] {
      assert key[1..] == name[1..] + ['\0'] + identity;
      PrefixOfKey(name[1..], identity);
    }
  }

  /** A window key names its class and identity, even when the identity contains the separator. */
  lemma WindowKeyInjective(c: RouteClass, i: string, d: RouteClass, j: string)
    ensures ClassOfKey(WindowKey(c, i)) == c
    ensures WindowKey(c, i) == WindowKey(d, j) <==> c == d && i == j
  {
    PrefixOfKey(ClassName(c), i);
    PrefixOfKey(ClassName(d), j);
    assert c in ROUTE_CLASSES;
    ClassIsFound(c, ROUTE_CLASSES);
    ClassNameInjective(c, d);
    if WindowKey(c, i) == WindowKey(d, j) {
      assert i == WindowKey(c, i)[|ClassName(c)| + 1..];
      assert j == WindowKey(d, j)[|ClassName(d)| + 1..];
    }
  }

  lemma LimitOfKey(policy: Policy, key: Key)
    requires ValidPolicy(policy)
    ensures LimitsOf(policy).maxKeys == policy.maxKeys
    ensures WindowOf(LimitsOf(policy), key) == policy.classes[ClassOfKey(key)].windowMilliseconds
    ensures BurstOf(LimitsOf(policy), key) == policy.classes[ClassOfKey(key)].burst
  {
  }

  lemma LimitOfWindowKey(policy: Policy, c: RouteClass, identity: string)
    requires ValidPolicy(policy)
    ensures LimitsOf(policy).maxKeys == policy.maxKeys
    ensures WindowOf(LimitsOf(policy), WindowKey(c, identity)) == policy.classes[c].windowMilliseconds
    ensures BurstOf(LimitsOf(policy), WindowKey(c, identity)) == policy.classes[c].burst
  {
    WindowKeyInjective(c, identity, c, identity);
  }

  // ----- Live suffixes -----

  /** The loop of `expireStamps` drops charges from the front. */
  function DropExpired(stamps: seq<int>, now: int, window: nat): seq<int>
  {
    if stamps == [] || IsLive(stamps[0], now, window) then stamps else DropExpired(stamps[1..], now, window)
  }

  /** The charges kept of a sorted list are exactly the live ones, the oldest first. */
  lemma {:induction false} DropExpiredKeepsLive(full: seq<int>, now: int, window: nat)
    requires Sorted(full)
    ensures var r := DropExpired(full, now, window);
            && |r| == LiveCount(full, now, window)
            && (forall t :: t in r <==> t in full && IsLive(t, now, window))
            && (r != [] ==> r[0] == OldestLive(full, now, window))
  {
    if full != [] {
      assert forall t :: t in full <==> t == full[0] || t in full[1..];
      if IsLive(full[0], now, window) {
        AllLive(full, now, window);
      } else {
        DropExpiredKeepsLive(full[1..], now, window);
      }
    }
  }

  /** Dropping at one time and again later is dropping later: nothing depends on when expiry last ran. */
  lemma {:induction false} DropExpiredTwice(full: seq<int>, before: int, now: int, window: nat)
    requires before <= now
    ensures DropExpired(DropExpired(full, before, window), now, window) == DropExpired(full, now, window)
  {
    if full != [] && !IsLive(full[0], before, window) {
      DropExpiredTwice(full[1..], before, now, window);
    }
  }

  lemma {:induction false} DropExpiredOfAppend(full: seq<int>, now: int, window: nat)
    requires window > 0
    ensures DropExpired(full + [now], now, window) == DropExpired(full, now, window) + [now]
  {
    if full != [] && !IsLive(full[0], now, window) {
      assert (full + [now])[1..] == full[1..] + [now];
      DropExpiredOfAppend(full[1..], now, window);
    }
  }

  /** Removing a charge from the kept part is removing it from the full list. */
  lemma {:induction false} RemoveKept(full: seq<int>, t: int, now: int, window: nat)
    requires Sorted(full)
    ensures DropExpired(WithoutLast(full, t), now, window) == WithoutLast(DropExpired(full, now, window), t)
  {
    if full != [] && !IsLive(full[0], now, window) {
      RemoveKept(full[1..], t, now, window);
      if t !in full[1..] {
        NothingToRemove(full[1..], t);
      }
    }
  }

  lemma NothingToRemove(w: seq<int>, t: int)
    requires t !in w
    ensures WithoutLast(w, t) == w
  {
  }

  /** `lastIndexOf`. */
  function LastIndexOf(stamps: seq<int>, t: int): (i: int)
    ensures -1 <= i < |stamps|
    ensures i >= 0 ==> stamps[i] == t
    ensures forall j :: i < j < |stamps| ==> stamps[j] != t
  {
    if stamps == [] then -1
    else if stamps[|stamps| - 1] == t then |stamps| - 1
    else LastIndexOf(stamps[..|stamps| - 1], t)
  }

  lemma {:induction false} SpliceIsWithoutLast(stamps: seq<int>, i: nat, t: int)
    requires i < |stamps| && stamps[i] == t && forall j :: i < j < |stamps| ==> stamps[j] != t
    ensures WithoutLast(stamps, t) == stamps[..i] + stamps[i + 1..]
  {
    if i > 0 {
      SpliceIsWithoutLast(stamps[1..], i - 1, t);
      assert stamps[1..][i - 1] == t;
    }
  }

  /** The kept windows are the live charges of the log, and no window is empty. */
  ghost predicate Represents(limits: Limits, windows: Log, log: Log, now: int)
  {
    && (forall key :: key in windows ==> windows[key] != [])
    && forall key :: Stamps(windows, key) == DropExpired(Stamps(log, key), now, WindowOf(limits, key))
  }

  lemma RepresentsKey(limits: Limits, windows: Log, log: Log, key: Key, now: int)
    requires Represents(limits, windows, log, now)
    ensures Stamps(windows, key) == DropExpired(Stamps(log, key), now, WindowOf(limits, key))
    ensures key in windows ==> windows[key] != []
  {
  }

  lemma RepresentsUpdate(limits: Limits, windows: Log, log: Log, key: Key, w: seq<int>, full: seq<int>, now: int)
    requires Represents(limits, windows, log, now)
    requires w == DropExpired(full, now, WindowOf(limits, key))
    ensures w != [] ==> Represents(limits, windows[key := w], log[key := full], now)
    ensures w == [] ==> Represents(limits, windows - {key}, log[key := full], now)
  {
    var next := if w != [] then windows[key := w] else windows - {key};
    forall k ensures Stamps(next, k) == DropExpired(Stamps(log[key := full], k), now, WindowOf(limits, k)) {
      RepresentsKey(limits, windows, log, k, now);
    }
  }

  /** No more keys than allowed, and for each of them no more charges than its burst, all of them live. */
  ghost predicate WithinLimits(limits: Limits, windows: Log, now: int)
  {
    && |windows| <= limits.maxKeys
    && forall key :: key in windows ==>
      && 0 < |windows[key]| <= BurstOf(limits, key)
      && forall t :: t in windows[key] ==> t <= now && IsLive(t, now, WindowOf(limits, key))
  }

  /**
   A map that represents a reachable log has exactly the live keys and the live charges, hence is within the
   limits.
   */
  lemma MapIsBounded(limits: Limits, windows: Log, log: Log, now: int)
    requires ValidLimits(limits) && LogInvariant(limits, log, now) && Represents(limits, windows, log, now)
    ensures windows.Keys == LiveKeys(limits, log, now)
    ensures forall key :: |Stamps(windows, key)| == LiveCount(Stamps(log, key), now, WindowOf(limits, key))
    ensures WithinLimits(limits, windows, now)
  {
    hide LogInvariant;
    hide Represents;
    hide KeyInvariant;
    forall key
      ensures |Stamps(windows, key)| == LiveCount(Stamps(log, key), now, WindowOf(limits, key)) <= BurstOf(limits, key)
      ensures forall t :: t in Stamps(windows, key) ==> t <= now && IsLive(t, now, WindowOf(limits, key))
      ensures key in windows <==> |Stamps(windows, key)| > 0
    {
      KeptOfKey(limits, windows, log, key, now);
    }
    assert windows.Keys == LiveKeys(limits, log, now);
    assert |windows| == |windows.Keys|;
    KeysFit(limits, log, now);
  }

  lemma KeysFit(limits: Limits, log: Log, now: int)
    requires ValidLimits(limits) && LogInvariant(limits, log, now)
    ensures |LiveKeys(limits, log, now)| <= limits.maxKeys
  {
  }

  /** What is kept of one key: its live charges, the oldest first. */
  lemma KeptOfKey(limits: Limits, windows: Log, log: Log, key: Key, now: int)
    requires ValidLimits(limits) && LogInvariant(limits, log, now) && Represents(limits, windows, log, now)
    ensures var kept, window := Stamps(windows, key), WindowOf(limits, key);
            && |kept| == LiveCount(Stamps(log, key), now, window) <= BurstOf(limits, key)
            && (forall t :: t in kept ==> t <= now && IsLive(t, now, window))
            && (key in windows <==> kept != [])
            && (kept != [] ==> kept[0] == OldestLive(Stamps(log, key), now, window))
  {
    hide LogInvariant;
    StampsInvariant(limits, log, key, now);
    RepresentsKey(limits, windows, log, key, now);
    DropExpiredKeepsLive(Stamps(log, key), now, WindowOf(limits, key));
  }

  /** Charging the kept part charges the log. */
  lemma ChargeKept(limits: Limits, windows: Log, log: Log, key: Key, now: int)
    requires ValidLimits(limits) && LogInvariant(limits, log, now) && Represents(limits, windows, log, now)
    requires Admits(limits, log, key, now)
    ensures var w, l := windows[key := Stamps(windows, key) + [now]], log[key := Stamps(log, key) + [now]];
            LogInvariant(limits, l, now) && Represents(limits, w, l, now) && WithinLimits(limits, w, now)
  {
    hide LogInvariant;
    hide Represents;
    hide WithinLimits;
    var full := Stamps(log, key);
    AdmissionKeepsInvariant(limits, log, key, now);
    DropExpiredOfAppend(full, now, WindowOf(limits, key));
    RepresentsKey(limits, windows, log, key, now);
    RepresentsUpdate(limits, windows, log, key, Stamps(windows, key) + [now], full + [now], now);
    MapIsBounded(limits, windows[key := Stamps(windows, key) + [now]], log[key := full + [now]], now);
  }

  // ----- The admission object -----

  datatype Decision = Decision(admitted: bool, occupancy: nat, retryAfterSeconds: int)

  datatype Reservation = NoReservation | Reserved(key: Key, chargedAt: int)

  class CoachProtocolAdmission {
    const policy: Policy
    var windows: map<Key, seq<int>>

    /** All admissions not released since, expired or not. */
    ghost var log: Log
    /** Time of the latest decision. */
    ghost var lastNow: int

    ghost predicate Valid()
      reads this
    {
      && ValidPolicy(policy)
      && LogInvariant(LimitsOf(policy), log, lastNow)
      && Represents(LimitsOf(policy), windows, log, lastNow)
      && WithinLimits(LimitsOf(policy), windows, lastNow)
    }

    /** For a validated policy; a fresh object has charged nothing. */
    constructor (policy: Policy, ghost now: int)
      requires ValidPolicy(policy)
      ensures Valid() && this.policy == policy && log == map[] && lastNow == now
    {
      this.policy := policy;
      windows, log, lastNow := map[], map[], now;
      new;
      assert LiveKeys(LimitsOf(policy), log, lastNow) == {};
    }

    method Admit(routeClass: RouteClass, identity: string, now: int) returns (decision: Decision)
      requires Valid() && lastNow <= now
      modifies this
      ensures Valid() && lastNow == now && |windows| <= policy.maxKeys
      ensures Decided(LimitsOf(policy), old(log), WindowKey(routeClass, identity), now, decision)
      ensures log == Apply(LimitsOf(policy), old(log), Decide(WindowKey(routeClass, identity), now))
    {
      decision := DecideCharge(routeClass, identity, now);
    }

    /** A reservation is handed out with every admission and names the charge just made. */
    method Reserve(routeClass: RouteClass, identity: string, now: int)
      returns (decision: Decision, reservation: Reservation)
      requires Valid() && lastNow <= now
      modifies this
      ensures Valid() && lastNow == now && |windows| <= policy.maxKeys
      ensures Decided(LimitsOf(policy), old(log), WindowKey(routeClass, identity), now, decision)
      ensures log == Apply(LimitsOf(policy), old(log), Decide(WindowKey(routeClass, identity), now))
      ensures reservation == if decision.admitted then Reserved(WindowKey(routeClass, identity), now) else NoReservation
    {
      hide LimitsOf;
      hide WindowKey;
      hide LogInvariant;
      decision := DecideCharge(routeClass, identity, now);
      if !decision.admitted {
        return decision, NoReservation;
      }
      var key := WindowKey(routeClass, identity);
      var stamps := Stamps(windows, key);
      if stamps == [] {
        return decision, NoReservation;
      }
      return decision, Reserved(key, stamps[|stamps| - 1]);
    }

    /** Releasing subtracts one charge of that key and time, if there is one. */
    method Release(routeClass: RouteClass, identity: string, chargedAt: int)
      requires Valid()
      modifies this
      ensures Valid() && lastNow == old(lastNow) && |windows| <= policy.maxKeys
      ensures log == Apply(LimitsOf(policy), old(log), Call.Release(WindowKey(routeClass, identity), chargedAt))
    {
      hide LimitsOf;
      hide LogInvariant;
      hide Represents;
      hide WithinLimits;
      hide WindowKey;
      ghost var limits := LimitsOf(policy);
      var key := WindowKey(routeClass, identity);
      ghost var full := Stamps(log, key);
      LimitOfWindowKey(policy, routeClass, identity);
      ReleaseKeepsInvariant(limits, log, key, chargedAt, lastNow);
      StampsInvariant(limits, log, key, lastNow);
      RepresentsKey(limits, windows, log, key, lastNow);
      RemoveKept(full, chargedAt, lastNow, WindowOf(limits, key));
      RepresentsUpdate(limits, windows, log, key, WithoutLast(Stamps(windows, key), chargedAt),
        WithoutLast(full, chargedAt), lastNow);
      log := log[key := WithoutLast(full, chargedAt)];
      TakeFrom(key, chargedAt);
      MapIsBounded(limits, windows, log, lastNow);
    }

    /** The array of the key loses the last charge of that time, and an empty array its place in the map. */
    method TakeFrom(key: Key, chargedAt: int)
      requires key in windows ==> windows[key] != []
      modifies this`windows
      ensures var stamps := WithoutLast(Stamps(old(windows), key), chargedAt);
              windows == if stamps == [] then old(windows) - {key} else old(windows)[key := stamps]
    {
      if key !in windows {
        return;
      }
      var stamps := windows[key];
      var index := LastIndexOf(stamps, chargedAt);
      if index < 0 {
        NothingToRemove(stamps, chargedAt);
        return;
      }
      SpliceIsWithoutLast(stamps, index, chargedAt);
      stamps := stamps[..index] + stamps[index + 1..];
      if |stamps| == 0 {
        windows := windows - {key};
      } else {
        windows := windows[key := stamps];
      }
    }

    /** What a decision reports, in terms of the log before it. */
    static ghost predicate Decided(limits: Limits, log: Log, key: Key, now: int, decision: Decision)
      requires ValidLimits(limits)
    {
      var live := LiveCount(Stamps(log, key), now, WindowOf(limits, key));
      && (decision.admitted <==> Admits(limits, log, key, now))
      && (decision.admitted ==> decision.occupancy == live + 1)
      && (!decision.admitted ==> decision.occupancy == live)
      && (!decision.admitted && live > 0 ==> decision.retryAfterSeconds == BurstRetry(limits, log, key, now))
      && (!decision.admitted && live == 0 ==>
            exists least :: EarliestReady(limits, log, now, least) &&
              decision.retryAfterSeconds == SecondsUntil(least - now))
    }

    /** A key that is not live is rejected when as many keys are live as may be. */
    static lemma NoRoom(limits: Limits, log: Log, key: Key, now: int, retry: int)
      requires ValidLimits(limits) && key !in LiveKeys(limits, log, now)
      requires |LiveKeys(limits, log, now)| >= limits.maxKeys
      requires exists least :: EarliestReady(limits, log, now, least) && retry == SecondsUntil(least - now)
      ensures Decided(limits, log, key, now, Decision(false, 0, retry))
      ensures Apply(limits, log, Decide(key, now)) == log
    {
    }

    method DecideCharge(routeClass: RouteClass, identity: string, now: int) returns (decision: Decision)
      requires Valid() && lastNow <= now
      modifies this
      ensures Valid() && lastNow == now && |windows| <= policy.maxKeys
      ensures Decided(LimitsOf(policy), old(log), WindowKey(routeClass, identity), now, decision)
      ensures log == Apply(LimitsOf(policy), old(log), Decide(WindowKey(routeClass, identity), now))
      ensures decision.admitted ==>
        var stamps := Stamps(windows, WindowKey(routeClass, identity));
        stamps != [] && stamps[|stamps| - 1] == now
    {
      hide LimitsOf;
      hide WindowKey;
      hide LogInvariant;
      hide Represents;
      hide Decided;
      hide Apply;
      ghost var limits := LimitsOf(policy);
      var key := WindowKey(routeClass, identity);
      LimitOfWindowKey(policy, routeClass, identity);
      Expire(now);
      MapIsBounded(limits, windows, log, now);
      if key !in windows && |windows| >= policy.maxKeys {
        var retry := CardinalityRetryAfter(now);
        NoRoom(limits, log, key, now, retry);
        return Decision(false, 0, retry);
      }
      decision := ChargeKey(key, policy.classes[routeClass], now);
    }

    /** The burst check and the charge itself, once there is room for the key. */
    method ChargeKey(key: Key, limit: ClassLimit, now: int) returns (decision: Decision)
      requires Valid() && lastNow == now
      requires limit.burst == BurstOf(LimitsOf(policy), key)
      requires limit.windowMilliseconds == WindowOf(LimitsOf(policy), key)
      requires key in windows || |windows| < LimitsOf(policy).maxKeys
      modifies this
      ensures Valid() && lastNow == now
      ensures Decided(LimitsOf(policy), old(log), key, now, decision)
      ensures log == Apply(LimitsOf(policy), old(log), Decide(key, now))
      ensures decision.admitted ==>
        Stamps(windows, key) != [] && Stamps(windows, key)[|Stamps(windows, key)| - 1] == now
    {
      hide LimitsOf;
      hide LogInvariant;
      hide Represents;
      hide WithinLimits;
      ghost var limits := LimitsOf(policy);
      ghost var full := Stamps(log, key);
      KeptOfKey(limits, windows, log, key, now);
      MapIsBounded(limits, windows, log, now);
      DropExpiredTwice(full, now, now, limit.windowMilliseconds);
      RepresentsKey(limits, windows, log, key, now);
      hide DropExpired;
      var stamps := ExpireStamps(Stamps(windows, key), now, limit.windowMilliseconds);
      if |stamps| >= limit.burst {
        assert key in windows && windows[key := stamps] == windows;
        windows := windows[key := stamps];
        return Decision(false, |stamps|, SecondsUntil(stamps[0] + limit.windowMilliseconds - now));
      }
      ChargeKept(limits, windows, log, key, now);
      stamps := stamps + [now];
      windows := windows[key := stamps];
      log := log[key := full + [now]];
      return Decision(true, |stamps|, 0);
    }

    /** Expiry drops what is no longer live: the map then stands for the same log at the new time. */
    method Expire(now: int)
      requires Valid() && lastNow <= now
      modifies this`windows, this`lastNow
      ensures Valid() && lastNow == now
    {
      hide LimitsOf;
      hide LogInvariant;
      hide DropExpired;
      hide WithinLimits;
      ghost var before, limits := windows, LimitsOf(policy);
      InvariantLater(limits, log, lastNow, now);
      ExpireWindows(now);
      forall key ensures Stamps(windows, key) == DropExpired(Stamps(log, key), now, WindowOf(limits, key)) {
        RepresentsKey(limits, before, log, key, lastNow);
        DropExpiredTwice(Stamps(log, key), lastNow, now, WindowOf(limits, key));
      }
      lastNow := now;
      MapIsBounded(limits, windows, log, now);
    }

    /** The loop over the map: every array is trimmed in place and an empty one is deleted. */
    method ExpireWindows(now: int)
      requires ValidPolicy(policy) && forall key :: key in windows ==> windows[key] != []
      modifies this`windows
      ensures forall key :: key in windows ==> windows[key] != []
      ensures forall key ::
        Stamps(windows, key) == DropExpired(Stamps(old(windows), key), now, WindowOf(LimitsOf(policy), key))
    {
      hide LimitsOf;
      hide ClassOfKey;
      assert forall window: nat :: DropExpired([], now, window) == [];
      hide DropExpired;
      hide WindowOf;
      ghost var before := windows;
      var pending := windows.Keys;
      while pending != {}
        invariant pending <= windows.Keys
        invariant forall key :: key in windows ==> windows[key] != []
        invariant forall key :: key in pending ==> Stamps(windows, key) == Stamps(before, key)
        invariant forall key :: key !in pending ==>
          Stamps(windows, key) == DropExpired(Stamps(before, key), now, WindowOf(LimitsOf(policy), key))
        decreases pending
      {
        var key :| key in pending;
        LimitOfKey(policy, key);
        assert windows[key] == Stamps(windows, key) == Stamps(before, key);
        var stamps := ExpireStamps(windows[key], now, policy.classes[ClassOfKey(key)].windowMilliseconds);
        if |stamps| == 0 {
          windows := windows - {key};
        } else {
          windows := windows[key := stamps];
        }
        pending := pending - {key};
      }
    }

    /** `cardinalityRetryAfter`: the earliest time at which the oldest charge of some key expires. */
    method CardinalityRetryAfter(now: int) returns (seconds: int)
      requires Valid() && lastNow == now && windows.Keys != {}
      ensures exists least :: EarliestReady(LimitsOf(policy), log, now, least) && seconds == SecondsUntil(least - now)
    {
      hide LimitsOf;
      hide ClassOfKey;
      hide LogInvariant;
      ghost var limits := LimitsOf(policy);
      MapIsBounded(limits, windows, log, now);
      var pending := windows.Keys;
      var key :| key in pending;
      LimitOfKey(policy, key);
      KeptOfKey(limits, windows, log, key, now);
      var earliest := windows[key][0] + policy.classes[ClassOfKey(key)].windowMilliseconds;
      ghost var earliestKey := key;
      pending := pending - {key};
      while pending != {}
        invariant pending <= windows.Keys && earliestKey in windows.Keys
        invariant earliest ==
          OldestLive(log[earliestKey], now, WindowOf(limits, earliestKey)) + WindowOf(limits, earliestKey)
        invariant forall k :: k in windows.Keys - pending ==>
          earliest <= OldestLive(log[k], now, WindowOf(limits, k)) + WindowOf(limits, k)
        decreases pending
      {
        key :| key in pending;
        LimitOfKey(policy, key);
        KeptOfKey(limits, windows, log, key, now);
        var readyAt := windows[key][0] + policy.classes[ClassOfKey(key)].windowMilliseconds;
        if readyAt < earliest {
          earliest, earliestKey := readyAt, key;
        }
        pending := pending - {key};
      }
      assert EarliestReady(limits, log, now, earliest);
      return SecondsUntil(earliest - now);
    }

    static method ExpireStamps(stamps: seq<int>, now: int, window: nat) returns (kept: seq<int>)
      ensures kept == DropExpired(stamps, now, window)
    {
      kept := stamps;
      while |kept| > 0 && now - kept[0] >= window
        invariant DropExpired(kept, now, window) == DropExpired(stamps, now, window)
      {
        kept := kept[1..];
      }
    }
  }

  // ----- Policies as they are handed in -----

  datatype RawLimit = RawLimit(baseline: Num, burst: Num, ceiling: Num, windowMilliseconds: Num)

  datatype RawPolicy = RawPolicy(version: string, maxKeys: Num, classes: map<RouteClass, RawLimit>)

  predicate IsPositiveInteger(n: Num)
  {
    n.IsFinite() && Value(n).Floor as real == Value(n) && Value(n) > 0.0
  }

  predicate Acceptable(limit: RawLimit)
  {
    && IsPositiveInteger(limit.baseline) && IsPositiveInteger(limit.burst) && IsPositiveInteger(limit.ceiling)
    && IsPositiveInteger(limit.windowMilliseconds)
    && Value(limit.burst) >= Value(limit.baseline) * 10.0 && Value(limit.ceiling) >= Value(limit.burst)
  }

  predicate AcceptablePolicy(raw: RawPolicy)
  {
    && !Blank(raw.version) && IsPositiveInteger(raw.maxKeys)
    && forall c: RouteClass :: c in raw.classes && Acceptable(raw.classes[c])
  }

  function Whole(n: Num): nat
    requires IsPositiveInteger(n)
  {
    Value(n).Floor
  }

  function ReadLimit(limit: RawLimit): (r: ClassLimit)
    requires Acceptable(limit)
    ensures ValidLimit(r)
  {
    ClassLimit(Whole(limit.baseline), Whole(limit.burst), Whole(limit.ceiling), Whole(limit.windowMilliseconds))
  }

  /** The same policy with its numbers as whole numbers. */
  function ReadPolicy(raw: RawPolicy): (r: Policy)
    requires AcceptablePolicy(raw)
    ensures ValidPolicy(r)
  {
    Policy(Whole(raw.maxKeys), map c | c in raw.classes && Acceptable(raw.classes[c]) :: ReadLimit(raw.classes[c]))
  }

  /** `validateCoachProtocolAdmissionPolicy`: false stands for a thrown error. */
  method ValidatePolicy(raw: RawPolicy) returns (ok: bool)
    ensures ok <==> AcceptablePolicy(raw)
  {
    if Blank(raw.version) || !IsPositiveInteger(raw.maxKeys) {
      return false;
    }
    for i := 0 to |ROUTE_CLASSES|
      invariant forall k :: 0 <= k < i ==> ROUTE_CLASSES[k] in raw.classes && Acceptable(raw.classes[ROUTE_CLASSES[k]])
    {
      var c := ROUTE_CLASSES[i];
      if c !in raw.classes {
        return false;
      }
      var limit := raw.classes[c];
      if !IsPositiveInteger(limit.baseline) || !IsPositiveInteger(limit.burst)
         || !IsPositiveInteger(limit.ceiling) || !IsPositiveInteger(limit.windowMilliseconds) {
        return false;
      }
      if Value(limit.burst) < Value(limit.baseline) * 10.0 || Value(limit.ceiling) < Value(limit.burst) {
        return false;
      }
    }
    forall c: RouteClass ensures c in raw.classes && Acceptable(raw.classes[c]) {
      EveryClassIsListed(c);
    }
    return true;
  }

  lemma EveryClassIsListed(c: RouteClass)
    ensures exists i :: 0 <= i < |ROUTE_CLASSES| && ROUTE_CLASSES[i] == c
  {
    assert c in ROUTE_CLASSES;
  }

  /** `createCoachProtocolAdmission`: an unacceptable policy makes no object. */
  method CreateCoachProtocolAdmission(raw: RawPolicy, ghost now: int) returns (admission: CoachProtocolAdmission?)
    ensures admission != null <==> AcceptablePolicy(raw)
    ensures admission != null ==>
      && fresh(admission) && admission.Valid() && admission.policy == ReadPolicy(raw)
      && admission.log == map[] && admission.lastNow == now
  {
    var ok := ValidatePolicy(raw);
    if !ok {
      return null;
    }
    admission := new CoachProtocolAdmission(ReadPolicy(raw), now);
  }

  // ----- A key-limit rejection whose retry time is too short -----

  /** Room for one key. */
  const ONE_KEY := Policy(1, POLICY_V1.classes)

  lemma OneKeyIsValid()
    ensures ValidPolicy(ONE_KEY) && ONE_KEY.maxKeys == 1 && ONE_KEY.classes[Token] == ClassLimit(4, 40, 80, 60000)
  {
    PolicyV1IsValid();
  }

  lemma OneKeyLimits(identity: string)
    ensures ValidPolicy(ONE_KEY)
    ensures var limits, key := LimitsOf(ONE_KEY), WindowKey(Token, identity);
            limits.maxKeys == 1 && BurstOf(limits, key) == 40 && WindowOf(limits, key) == 60000
  {
    hide *;
    OneKeyIsValid();
    LimitOfWindowKey(ONE_KEY, Token, identity);
  }

  /**
   The retry time of a key-limit rejection promises no more than its lower bound: under the checked-in class
   limits, the key whose oldest charge expires first may hold a newer one.
   */
  lemma KeyLimitRetryMayBeTooShort()
    ensures ValidPolicy(ONE_KEY) && exists calls, identity, now, least :: TooShort(ONE_KEY, calls, identity, now, least)
  {
    hide *;
    OneKeyLimits("a");
    WindowKeyInjective(Token, "a", Token, "b");
    TokenTooShort(LimitsOf(ONE_KEY), WindowKey(Token, "a"), WindowKey(Token, "b"));
    TooShortIs([Decide(WindowKey(Token, "a"), 0), Decide(WindowKey(Token, "a"), 50000)], "b", 50000, 60000);
  }

  lemma TooShortIs(calls: seq<Call>, identity: string, now: int, least: int)
    requires ValidPolicy(ONE_KEY) && TooShortFor(LimitsOf(ONE_KEY), calls, WindowKey(Token, identity), now, least)
    ensures TooShort(ONE_KEY, calls, identity, now, least)
  {
  }

  /** A token request with a new identity is rejected after the calls, and again at its retry time. */
  ghost predicate TooShort(policy: Policy, calls: seq<Call>, identity: string, now: int, least: int)
    requires ValidPolicy(policy)
  {
    TooShortFor(LimitsOf(policy), calls, WindowKey(Token, identity), now, least)
  }

  ghost predicate TooShortFor(limits: Limits, calls: seq<Call>, key: Key, now: int, least: int)
    requires ValidLimits(limits)
  {
    && Chronological(calls, now)
    && EarliestReady(limits, Run(limits, calls), now, least)
    && !Admits(limits, Run(limits, calls), key, now)
    && !Admits(limits, Run(limits, calls), key, now + 1000 * SecondsUntil(least - now))
  }

  lemma TokenTooShort(limits: Limits, a: Key, b: Key)
    requires ValidLimits(limits) && limits.maxKeys == 1 && BurstOf(limits, a) == 40 && WindowOf(limits, a) == 60000
    requires a != b
    ensures TooShortFor(limits, [Decide(a, 0), Decide(a, 50000)], b, 50000, 60000)
  {
    TwoCharges(limits, a);
    StillFull(limits, Run(limits, [Decide(a, 0), Decide(a, 50000)]), a, b);
    assert SecondsUntil(60000 - 50000) == 10;
  }

  lemma TwoCharges(limits: Limits, a: Key)
    requires ValidLimits(limits) && limits.maxKeys == 1 && BurstOf(limits, a) == 40 && WindowOf(limits, a) == 60000
    ensures Run(limits, [Decide(a, 0), Decide(a, 50000)]) == map[a := [0, 50000]]
  {
    var empty: Log := map[];
    var calls := [Decide(a, 0), Decide(a, 50000)];
    assert LiveKeys(limits, empty, 0) == {};
    assert Stamps(empty, a) + [0] == [0];
    var one: Log := map[a := [0]];
    assert Apply(limits, empty, Decide(a, 0)) == one;
    assert LiveCount([0], 50000, 60000) == 1;
    assert [0] + [50000] == [0, 50000];
    assert Apply(limits, one, Decide(a, 50000)) == map[a := [0, 50000]];
    assert calls[..1] == [calls[0]] && [calls[0]][..0] == [];
    assert Run(limits, [calls[0]]) == one;
  }

  lemma StillFull(limits: Limits, log: Log, a: Key, b: Key)
    requires ValidLimits(limits) && limits.maxKeys == 1 && WindowOf(limits, a) == 60000
    requires log == map[a := [0, 50000]] && b != a
    ensures EarliestReady(limits, log, 50000, 60000)
    ensures !Admits(limits, log, b, 50000) && !Admits(limits, log, b, 60000)
  {
    assert log[a][1..] == [50000];
    assert LiveCount([50000], 50000, 60000) == 1 && LiveCount([50000], 60000, 60000) == 1;
    assert LiveKeys(limits, log, 50000) == {a} && LiveKeys(limits, log, 60000) == {a};
    assert Stamps(log, b) == [];
  }
}
