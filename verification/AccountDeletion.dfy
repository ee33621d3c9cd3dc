/**
 The account deletion saga: a phase marker persisted in two databases, and any number of runners that
 read it, execute the effect of the next phase, and advance it with version-checked writes. Runners
 crash, lose replies and interleave at every database call.
 */
module AccountDeletion {
  import opened Optional

  // ----- Markers -----

  // Phases in the order of the saga. The effect of phase k is what a runner executes before storing k.
  const MARKERS_WRITTEN: nat := 0
  const CAPTURES_WITHDRAWN: nat := 1
  const APPLICATION_DATA_DELETED: nat := 2
  const OAUTH_GRANTS_REVOKED: nat := 3
  const FIREBASE_TOKENS_REVOKED: nat := 4
  const FIREBASE_IDENTITY_DELETED: nat := 5

  const TWO_HOURS: int := 7_200_000

  /** Times are milliseconds. */
  datatype Marker = Marker(
    schemaVersion: nat, player: string, startedAt: int, phase: nat, completedAt: Option<int>, purgeAt: Option<int>)

  function Started(player: string, startedAt: int): Marker
  {
    Marker(1, player, startedAt, MARKERS_WRITTEN, None, None)
  }

  /** `validate_for`; a document with any other phase does not decode in the first place. */
  predicate ValidFor(m: Marker, player: string)
  {
    && m.phase <= FIREBASE_IDENTITY_DELETED
    && m.schemaVersion == 1
    && m.player == player
    && (m.completedAt.Some? <==> m.purgeAt.Some?)
    && (m.completedAt.Some? && m.purgeAt.Some? ==>
          m.completedAt.value >= m.startedAt && m.completedAt.value + TWO_HOURS == m.purgeAt.value)
    && (m.phase == FIREBASE_IDENTITY_DELETED <==> m.completedAt.Some?)
  }

  // ----- The world -----

  /** A document carries the version of its last write, which a conditional update must name. */
  datatype Doc = Absent | Stored(marker: Marker, version: nat)

  datatype Execution = Execution(effect: nat, at: int)

  /** Where one runner stands, with the values its local variables hold there. */
  datatype Runner =
    | ReadProduction
    | CreateProduction(startedAt: int)
    | RereadProduction
    | ReadStaging(m: Marker)
    | CreateStaging(m: Marker)
    | Check(k: nat, m: Marker)
    | Effect(k: nat)
    | LoadAdvance(k: nat)
    | UpdateAdvance(k: nat, m: Marker, version: nat)
    | ReadClock
    | LoadStaging(completedAt: int)
    | UpdateStaging(completedAt: int, m: Marker, version: nat)
    | LoadProduction(completedAt: int)
    | UpdateProduction(completedAt: int, m: Marker, version: nat)
    | Finished
    | Failed

  datatype World = World(
    player: string, production: Doc, staging: Doc, writes: nat, now: int, history: seq<Execution>, runners: seq<Runner>)

  function Move(w: World, i: nat, r: Runner): World
    requires i < |w.runners|
  {
    w.(runners := w.runners[i := r])
  }

  function WriteProduction(w: World, m: Marker): World
  {
    w.(production := Stored(m, w.writes), writes := w.writes + 1)
  }

  function WriteStaging(w: World, m: Marker): World
  {
    w.(staging := Stored(m, w.writes), writes := w.writes + 1)
  }

  function Completed(m: Marker, completedAt: int): Marker
  {
    m.(phase := FIREBASE_IDENTITY_DELETED, completedAt := Some(completedAt), purgeAt := Some(completedAt + TWO_HOURS))
  }

  /** A loaded document must exist and validate. */
  predicate Loads(d: Doc, player: string)
  {
    d.Stored? && ValidFor(d.marker, player)
  }

  /** One call of one runner that neither fails nor loses its reply. */
  function RunnerStep(w: World, i: nat): World
    requires i < |w.runners|
  {
    match w.runners[i]
    case ReadProduction =>
      if w.production.Absent? then Move(w, i, CreateProduction(w.now))
      else if Loads(w.production, w.player) then Move(w, i, ReadStaging(w.production.marker))
      else Move(w, i, Failed)
    case CreateProduction(startedAt) =>
      if w.production.Absent? then
        var m := Started(w.player, startedAt);
        Move(WriteProduction(w, m), i, ReadStaging(m))
      else Move(w, i, RereadProduction)
    case RereadProduction =>
      if Loads(w.production, w.player) then Move(w, i, ReadStaging(w.production.marker)) else Move(w, i, Failed)
    case ReadStaging(m) =>
      if w.staging.Absent? then Move(w, i, CreateStaging(m))
      else if Loads(w.staging, w.player) then Move(w, i, Check(1, m))
      else Move(w, i, Failed)
    case CreateStaging(m) =>
      if w.staging.Absent? then Move(WriteStaging(w, m), i, Check(1, m)) else Move(w, i, Check(1, m))
    case Check(k, m) =>
      if k > FIREBASE_IDENTITY_DELETED then Move(w, i, Finished)
      else if m.phase < k then Move(w, i, Effect(k))
      else Move(w, i, Check(k + 1, m))
    case Effect(k) =>
      var done := w.(history := w.history + [Execution(k, w.now)]);
      Move(done, i, if k == FIREBASE_IDENTITY_DELETED then ReadClock else LoadAdvance(k))
    case LoadAdvance(k) =>
      if !Loads(w.production, w.player) then Move(w, i, Failed)
      else if w.production.marker.phase >= k then Move(w, i, Check(k + 1, w.production.marker))
      else Move(w, i, UpdateAdvance(k, w.production.marker, w.production.version))
    case UpdateAdvance(k, m, version) =>
      if w.production.Stored? && w.production.version == version then
        var next := m.(phase := k);
        Move(WriteProduction(w, next), i, Check(k + 1, next))
      else Move(w, i, LoadAdvance(k))
    case ReadClock =>
      Move(w, i, LoadStaging(w.now))
    case LoadStaging(c) =>
      if !Loads(w.staging, w.player) then Move(w, i, Failed)
      else if w.staging.marker.phase == FIREBASE_IDENTITY_DELETED then Move(w, i, LoadProduction(c))
      else Move(w, i, UpdateStaging(c, w.staging.marker, w.staging.version))
    case UpdateStaging(c, m, version) =>
      if w.staging.Stored? && w.staging.version == version then
        Move(WriteStaging(w, Completed(m, c)), i, LoadProduction(c))
      else Move(w, i, LoadProduction(c))
    case LoadProduction(c) =>
      if !Loads(w.production, w.player) then Move(w, i, Failed)
      else if w.production.marker.phase == FIREBASE_IDENTITY_DELETED then Move(w, i, Finished)
      else Move(w, i, UpdateProduction(c, w.production.marker, w.production.version))
    case UpdateProduction(c, m, version) =>
      if w.production.Stored? && w.production.version == version then
        Move(WriteProduction(w, Completed(m, c)), i, Finished)
      else Move(w, i, LoadProduction(c))
    case _ => w
  }

  /** What can happen: a call, a crash or failed call, a call whose reply is lost, a new runner, time passing. */
  datatype Event = Call(i: nat) | Crash(i: nat) | LostReply(i: nat) | Start | Tick(elapsed: nat)

  function Happen(w: World, e: Event): World
  {
    match e
    case Call(i) => if i < |w.runners| then RunnerStep(w, i) else w
    case Crash(i) => if i < |w.runners| then Move(w, i, Failed) else w
    case LostReply(i) => if i < |w.runners| then Move(RunnerStep(w, i), i, Failed) else w
    case Start => w.(runners := w.runners + [ReadProduction])
    case Tick(elapsed) => w.(now := w.now + elapsed)
  }

  function Initial(player: string, now: int): World
  {
    World(player, Absent, Absent, 0, now, [], [])
  }

  function After(w: World, events: seq<Event>): World
  {
    if events == [] then w else Happen(After(w, events[..|events| - 1]), events[|events| - 1])
  }

  // ----- What every reachable world satisfies -----

  /** Effect `k` is among the first `n` executions. */
  ghost predicate Executed(history: seq<Execution>, n: nat, k: nat)
    requires n <= |history|
  {
    exists i :: 0 <= i < n && history[i].effect == k
  }

  /** The effects of all phases up to `p` have happened. */
  ghost predicate DoneThrough(w: World, p: nat)
  {
    forall k :: 1 <= k <= p ==> Executed(w.history, |w.history|, k)
  }

  /** The identity had been deleted by time `t`. */
  ghost predicate DeletedBy(w: World, t: int)
  {
    exists i :: 0 <= i < |w.history| && w.history[i].effect == FIREBASE_IDENTITY_DELETED && w.history[i].at <= t
  }

  /** Every execution comes after executions of all earlier effects. */
  ghost predicate FixedOrder(history: seq<Execution>)
  {
    forall i, k :: 0 <= i < |history| && 1 <= k < history[i].effect ==> Executed(history, i, k)
  }

  ghost predicate MarkerOk(w: World, m: Marker)
  {
    && ValidFor(m, w.player)
    && m.startedAt <= w.now
    && DoneThrough(w, m.phase)
    && (m.completedAt.Some? ==> m.completedAt.value <= w.now && DeletedBy(w, m.completedAt.value))
  }

  ghost predicate DocOk(w: World, d: Doc)
  {
    d.Stored? ==> MarkerOk(w, d.marker) && d.version < w.writes
  }

  /** A marker read earlier from `d`, which is still what `d` holds unless its version has changed. */
  ghost predicate HeldOk(w: World, d: Doc, m: Marker, version: nat)
  {
    && d.Stored? && MarkerOk(w, m) && version < w.writes
    && m.startedAt == d.marker.startedAt
    && (d.version == version ==> d.marker == m)
  }

  /** A marker the production database held at some time. */
  ghost predicate Known(w: World, m: Marker)
  {
    w.production.Stored? && MarkerOk(w, m) && m.phase <= w.production.marker.phase
  }

  /** The completion time a runner holds lies between the start of the saga and now. */
  ghost predicate ClockOk(w: World, c: int)
  {
    && w.production.Stored? && w.staging.Stored?
    && w.production.marker.startedAt <= c <= w.now && w.staging.marker.startedAt <= c
    && DoneThrough(w, FIREBASE_IDENTITY_DELETED) && DeletedBy(w, c)
  }

  predicate IsStarting(r: Runner)
  {
    r.ReadProduction? || r.CreateProduction? || r.RereadProduction? || r.ReadStaging? || r.CreateStaging?
  }

  predicate IsAdvancing(r: Runner)
  {
    r.Check? || r.Effect? || r.LoadAdvance? || r.UpdateAdvance?
  }

  ghost predicate RunnerOk(w: World, r: Runner)
  {
    match r
    case CreateProduction(startedAt) => startedAt <= w.now
    case RereadProduction => w.production.Stored?
    case ReadStaging(m) => Known(w, m)
    case CreateStaging(m) => Known(w, m)
    case Check(k, m) => w.staging.Stored? && Known(w, m) && 1 <= k <= m.phase + 1
    case Effect(k) =>
      w.production.Stored? && w.staging.Stored? && 1 <= k <= FIREBASE_IDENTITY_DELETED && DoneThrough(w, k - 1)
    case LoadAdvance(k) =>
      w.production.Stored? && w.staging.Stored? && 1 <= k < FIREBASE_IDENTITY_DELETED && DoneThrough(w, k)
    case UpdateAdvance(k, m, version) =>
      && w.staging.Stored? && 1 <= k < FIREBASE_IDENTITY_DELETED && DoneThrough(w, k)
      && HeldOk(w, w.production, m, version) && m.phase < k
    case ReadClock =>
      && w.production.Stored? && w.staging.Stored?
      && DoneThrough(w, FIREBASE_IDENTITY_DELETED) && DeletedBy(w, w.now)
    case LoadStaging(c) => ClockOk(w, c)
    case UpdateStaging(c, m, version) =>
      && ClockOk(w, c) && HeldOk(w, w.staging, m, version) && m.phase < FIREBASE_IDENTITY_DELETED
      && (w.staging.version != version ==> IsCompleted(w.staging))
    case LoadProduction(c) => ClockOk(w, c) && IsCompleted(w.staging)
    case UpdateProduction(c, m, version) =>
      && ClockOk(w, c) && IsCompleted(w.staging)
      && HeldOk(w, w.production, m, version) && m.phase < FIREBASE_IDENTITY_DELETED
    case Finished => w.production.Stored? && w.production.marker.phase == FIREBASE_IDENTITY_DELETED
    case _ => true
  }

  /** The document holds a completed marker. */
  predicate IsCompleted(d: Doc)
  {
    d.Stored? && d.marker.phase == FIREBASE_IDENTITY_DELETED
  }

  /** The part of the invariant that does not mention the runners. */
  ghost predicate SharedOk(w: World)
  {
    && DocOk(w, w.production) && DocOk(w, w.staging)
    && (w.staging.Stored? ==> w.production.Stored?)
    && (IsCompleted(w.production) ==> IsCompleted(w.staging))
    && FixedOrder(w.history)
    && forall i :: 0 <= i < |w.history| ==> w.history[i].at <= w.now
  }

  ghost predicate Invariant(w: World)
  {
    SharedOk(w) && forall i :: 0 <= i < |w.runners| ==> RunnerOk(w, w.runners[i])
  }

  // ----- Every step keeps it -----

  /** What no step undoes: time and history grow, documents stay, phases rise, versions are fresh. */
  ghost predicate DocLater(w: World, d: Doc, e: Doc)
  {
    d.Stored? ==>
      && e.Stored? && e.marker.startedAt == d.marker.startedAt && e.marker.phase >= d.marker.phase
      && (e == d || e.version >= w.writes)
  }

  ghost predicate Later(w: World, v: World)
  {
    && v.player == w.player && v.now >= w.now && v.writes >= w.writes
    && w.history <= v.history
    && DocLater(w, w.production, v.production) && DocLater(w, w.staging, v.staging)
    && (w.staging.Stored? ==> v.staging == w.staging || IsCompleted(v.staging))
  }

  lemma MarkerStaysOk(w: World, v: World, m: Marker)
    requires Later(w, v) && MarkerOk(w, m)
    ensures MarkerOk(v, m)
  {
    DoneStays(w, v, m.phase);
    if m.completedAt.Some? {
      DeletedStays(w, v, m.completedAt.value);
    }
  }

  lemma DoneStays(w: World, v: World, p: nat)
    requires w.history <= v.history && DoneThrough(w, p)
    ensures DoneThrough(v, p)
  {
    forall k | 1 <= k <= p ensures Executed(v.history, |v.history|, k) {
      assert Executed(w.history, |w.history|, k);
      ExecutedStays(w.history, v.history, |w.history|, |v.history|, k);
    }
  }

  lemma ExecutedStays(h: seq<Execution>, g: seq<Execution>, m: nat, n: nat, k: nat)
    requires h <= g && m <= |h| && m <= n <= |g| && Executed(h, m, k)
    ensures Executed(g, n, k)
  {
    var i :| 0 <= i < m && h[i].effect == k;
    assert g[i] == h[i];
  }

  lemma DeletedStays(w: World, v: World, t: int)
    requires w.history <= v.history && DeletedBy(w, t)
    ensures forall u :: u >= t ==> DeletedBy(v, u)
  {
    var i :| 0 <= i < |w.history| && w.history[i].effect == FIREBASE_IDENTITY_DELETED && w.history[i].at <= t;
    assert v.history[i] == w.history[i];
  }

  lemma HeldStaysOk(w: World, v: World, d: Doc, e: Doc, m: Marker, version: nat)
    requires Later(w, v) && DocLater(w, d, e) && HeldOk(w, d, m, version)
    ensures HeldOk(v, e, m, version)
  {
    MarkerStaysOk(w, v, m);
  }

  lemma ClockStaysOk(w: World, v: World, c: int)
    requires Later(w, v) && ClockOk(w, c)
    ensures ClockOk(v, c)
  {
    DoneStays(w, v, FIREBASE_IDENTITY_DELETED);
    DeletedStays(w, v, c);
  }

  lemma RunnerStaysOk(w: World, v: World, r: Runner)
    requires Later(w, v) && RunnerOk(w, r) && (v.production.Stored? ==> MarkerOk(v, v.production.marker))
    ensures RunnerOk(v, r)
  {
    match r
    case ReadStaging(m) => MarkerStaysOk(w, v, m);
    case CreateStaging(m) => MarkerStaysOk(w, v, m);
    case Check(_, m) => MarkerStaysOk(w, v, m);
    case Effect(k) => DoneStays(w, v, k - 1);
    case LoadAdvance(k) => DoneStays(w, v, k);
    case UpdateAdvance(k, m, version) =>
      DoneStays(w, v, k);
      HeldStaysOk(w, v, w.production, v.production, m, version);
    case ReadClock =>
      DoneStays(w, v, FIREBASE_IDENTITY_DELETED);
      DeletedStays(w, v, w.now);
    case LoadStaging(c) => ClockStaysOk(w, v, c);
    case UpdateStaging(c, m, version) =>
      ClockStaysOk(w, v, c);
      HeldStaysOk(w, v, w.staging, v.staging, m, version);
    case LoadProduction(c) => ClockStaysOk(w, v, c);
    case UpdateProduction(c, m, version) =>
      ClockStaysOk(w, v, c);
      HeldStaysOk(w, v, w.production, v.production, m, version);
    case _ =>
  }

  lemma ProductionWrite(w: World, m: Marker)
    requires SharedOk(w) && MarkerOk(w, m)
    requires w.production.Stored? ==>
      m.startedAt == w.production.marker.startedAt && m.phase >= w.production.marker.phase
    requires m.phase == FIREBASE_IDENTITY_DELETED ==> IsCompleted(w.staging)
    ensures var v := WriteProduction(w, m); SharedOk(v) && Later(w, v) && MarkerOk(v, m)
  {
    var v := WriteProduction(w, m);
    MarkerStaysOk(w, v, m);
    if w.staging.Stored? {
      MarkerStaysOk(w, v, w.staging.marker);
    }
  }

  lemma StagingWrite(w: World, m: Marker)
    requires SharedOk(w) && MarkerOk(w, m) && w.production.Stored?
    requires w.staging.Stored? ==> m.startedAt == w.staging.marker.startedAt && m.phase == FIREBASE_IDENTITY_DELETED
    ensures var v := WriteStaging(w, m); SharedOk(v) && Later(w, v)
  {
    var v := WriteStaging(w, m);
    MarkerStaysOk(w, v, m);
    MarkerStaysOk(w, v, w.production.marker);
  }

  lemma EffectExecuted(w: World, k: nat)
    requires SharedOk(w) && k >= 1 && DoneThrough(w, k - 1)
    ensures var v := w.(history := w.history + [Execution(k, w.now)]);
            SharedOk(v) && Later(w, v) && DoneThrough(v, k) && (k == FIREBASE_IDENTITY_DELETED ==> DeletedBy(v, v.now))
  {
    var v := w.(history := w.history + [Execution(k, w.now)]);
    var n := |w.history|;
    assert v.history[n].effect == k;
    forall i, j | 0 <= i < |v.history| && 1 <= j < v.history[i].effect ensures Executed(v.history, i, j) {
      ExecutedStays(w.history, v.history, i, i, j);
    }
    DoneStays(w, v, k - 1);
    assert Executed(v.history, n + 1, k);
    if w.production.Stored? {
      MarkerStaysOk(w, v, w.production.marker);
    }
    if w.staging.Stored? {
      MarkerStaysOk(w, v, w.staging.marker);
    }
  }

  /** What a step of runner `i` must establish. */
  ghost predicate StepOk(w: World, v: World, i: nat)
    requires i < |w.runners|
  {
    && SharedOk(v) && Later(w, v)
    && |v.runners| == |w.runners| && RunnerOk(v, v.runners[i])
    && forall j :: 0 <= j < |w.runners| && j != i ==> v.runners[j] == w.runners[j]
  }

  /** Moving a runner changes nothing the invariant says about the rest. */
  lemma Moved(w: World, u: World, i: nat, r: Runner)
    requires i < |w.runners| && u.runners == w.runners && SharedOk(u) && Later(w, u) && RunnerOk(u, r)
    ensures StepOk(w, Move(u, i, r), i)
  {
    var v := Move(u, i, r);
    assert Later(u, v);
    RunnerStaysOk(u, v, r);
  }

  lemma StartStep(w: World, i: nat)
    requires Invariant(w) && i < |w.runners|
    requires IsStarting(w.runners[i])
    ensures StepOk(w, RunnerStep(w, i), i)
  {
    var r, v := w.runners[i], RunnerStep(w, i);
    if r.CreateProduction? && w.production.Absent? {
      var m := Started(w.player, r.startedAt);
      ProductionWrite(w, m);
      Moved(w, WriteProduction(w, m), i, ReadStaging(m));
    } else if r.CreateStaging? && w.staging.Absent? {
      StagingWrite(w, r.m);
      MarkerStaysOk(w, WriteStaging(w, r.m), r.m);
      Moved(w, WriteStaging(w, r.m), i, Check(1, r.m));
    } else {
      Moved(w, w, i, v.runners[i]);
    }
  }

  lemma CheckStep(w: World, i: nat)
    requires Invariant(w) && i < |w.runners|
    requires w.runners[i].Check? || w.runners[i].LoadAdvance?
    ensures StepOk(w, RunnerStep(w, i), i)
  {
    Moved(w, w, i, RunnerStep(w, i).runners[i]);
  }

  lemma EffectStep(w: World, i: nat)
    requires Invariant(w) && i < |w.runners| && w.runners[i].Effect?
    ensures StepOk(w, RunnerStep(w, i), i)
  {
    var k := w.runners[i].k;
    EffectExecuted(w, k);
    Moved(w, w.(history := w.history + [Execution(k, w.now)]), i, RunnerStep(w, i).runners[i]);
  }

  lemma UpdateStep(w: World, i: nat)
    requires Invariant(w) && i < |w.runners|
    requires w.runners[i].UpdateAdvance? || w.runners[i].UpdateProduction?
    ensures StepOk(w, RunnerStep(w, i), i)
  {
    var r, v := w.runners[i], RunnerStep(w, i);
    assert RunnerOk(w, r);
    if w.production.version == r.version {
      var next := if r.UpdateAdvance? then r.m.(phase := r.k) else Completed(r.m, r.completedAt);
      ProductionWrite(w, next);
      Moved(w, WriteProduction(w, next), i, v.runners[i]);
    } else {
      Moved(w, w, i, v.runners[i]);
    }
  }

  lemma StagingStep(w: World, i: nat)
    requires Invariant(w) && i < |w.runners| && w.runners[i].UpdateStaging?
    ensures StepOk(w, RunnerStep(w, i), i)
  {
    var r := w.runners[i];
    if w.staging.version == r.version {
      var v := WriteStaging(w, Completed(r.m, r.completedAt));
      StagingWrite(w, Completed(r.m, r.completedAt));
      ClockStaysOk(w, v, r.completedAt);
      Moved(w, v, i, LoadProduction(r.completedAt));
    } else {
      Moved(w, w, i, LoadProduction(r.completedAt));
    }
  }

  lemma CompleteStep(w: World, i: nat)
    requires Invariant(w) && i < |w.runners|
    requires w.runners[i].ReadClock? || w.runners[i].LoadStaging? || w.runners[i].LoadProduction?
    ensures StepOk(w, RunnerStep(w, i), i)
  {
    Moved(w, w, i, RunnerStep(w, i).runners[i]);
  }

  lemma AnyStep(w: World, i: nat)
    requires Invariant(w) && i < |w.runners|
    ensures StepOk(w, RunnerStep(w, i), i)
  {
    hide SharedOk;
    hide RunnerOk;
    match w.runners[i]
    case ReadProduction => StartStep(w, i);
    case CreateProduction(_) => StartStep(w, i);
    case RereadProduction => StartStep(w, i);
    case ReadStaging(_) => StartStep(w, i);
    case CreateStaging(_) => StartStep(w, i);
    case Check(_, _) => CheckStep(w, i);
    case Effect(_) => EffectStep(w, i);
    case LoadAdvance(_) => CheckStep(w, i);
    case UpdateAdvance(_, _, _) => UpdateStep(w, i);
    case ReadClock => CompleteStep(w, i);
    case LoadStaging(_) => CompleteStep(w, i);
    case UpdateStaging(_, _, _) => StagingStep(w, i);
    case LoadProduction(_) => CompleteStep(w, i);
    case UpdateProduction(_, _, _) => UpdateStep(w, i);
    case _ => RestingStep(w, i);
  }

  lemma RestingStep(w: World, i: nat)
    requires Invariant(w) && i < |w.runners|
    requires w.runners[i].Finished? || w.runners[i].Failed?
    ensures StepOk(w, RunnerStep(w, i), i)
  {
    assert RunnerOk(w, w.runners[i]);
  }

  /** The other runners keep their part of the invariant because nothing they rely on is undone. */
  lemma StepOkSuffices(w: World, v: World, i: nat)
    requires Invariant(w) && i < |w.runners| && StepOk(w, v, i)
    ensures Invariant(v)
  {
    hide RunnerOk;
    forall j | 0 <= j < |v.runners| ensures RunnerOk(v, v.runners[j]) {
      if j != i {
        RunnerStaysOk(w, v, w.runners[j]);
      }
    }
  }

  lemma StepKeepsInvariant(w: World, i: nat)
    requires Invariant(w) && i < |w.runners|
    ensures Invariant(RunnerStep(w, i)) && Later(w, RunnerStep(w, i)) && |RunnerStep(w, i).runners| == |w.runners|
  {
    hide RunnerStep;
    hide Invariant;
    AnyStep(w, i);
    StepOkSuffices(w, RunnerStep(w, i), i);
  }

  lemma FailureKeepsInvariant(w: World, i: nat)
    requires Invariant(w) && i < |w.runners|
    ensures Invariant(Move(w, i, Failed))
  {
    hide SharedOk;
    var v := Move(w, i, Failed);
    assert StepOk(w, v, i) by { RestOk(w, v); }
    StepOkSuffices(w, v, i);
  }

  lemma RestOk(w: World, v: World)
    requires Invariant(w) && v == w.(runners := v.runners)
    ensures SharedOk(v) && Later(w, v)
  {
  }

  lemma StartKeepsInvariant(w: World)
    requires Invariant(w)
    ensures Invariant(w.(runners := w.runners + [ReadProduction]))
  {
    var v := w.(runners := w.runners + [ReadProduction]);
    RestOk(w, v);
    forall j | 0 <= j < |v.runners| ensures RunnerOk(v, v.runners[j]) {
      if j < |w.runners| {
        RunnerStaysOk(w, v, w.runners[j]);
      }
    }
  }

  lemma HappenKeepsInvariant(w: World, e: Event)
    requires Invariant(w)
    ensures Invariant(Happen(w, e)) && Happen(w, e).player == w.player
  {
    hide Invariant;
    hide RunnerStep;
    match e
    case Call(i) =>
      if i < |w.runners| {
        StepKeepsInvariant(w, i);
      }
    case Crash(i) =>
      if i < |w.runners| {
        FailureKeepsInvariant(w, i);
      }
    case LostReply(i) =>
      if i < |w.runners| {
        StepKeepsInvariant(w, i);
        FailureKeepsInvariant(RunnerStep(w, i), i);
      }
    case Start => StartKeepsInvariant(w);
    case Tick(elapsed) => TickKeepsInvariant(w, elapsed);
  }

  lemma TickKeepsInvariant(w: World, elapsed: nat)
    requires Invariant(w)
    ensures Invariant(w.(now := w.now + elapsed))
  {
    hide RunnerOk;
    var v := w.(now := w.now + elapsed);
    if w.production.Stored? {
      MarkerStaysOk(w, v, w.production.marker);
    }
    if w.staging.Stored? {
      MarkerStaysOk(w, v, w.staging.marker);
    }
    forall j | 0 <= j < |v.runners| ensures RunnerOk(v, v.runners[j]) {
      RunnerStaysOk(w, v, w.runners[j]);
    }
  }

  lemma InitialOk(player: string, now: int)
    ensures Invariant(Initial(player, now))
  {
  }

  lemma {:induction false} EveryRunKeepsInvariant(player: string, now: int, events: seq<Event>)
    ensures Invariant(After(Initial(player, now), events))
    ensures After(Initial(player, now), events).player == player
  {
    hide Invariant;
    hide Happen;
    if events == [] {
      InitialOk(player, now);
    } else {
      var before := After(Initial(player, now), events[..|events| - 1]);
      EveryRunKeepsInvariant(player, now, events[..|events| - 1]);
      HappenKeepsInvariant(before, events[|events| - 1]);
    }
  }

  // ----- Safety -----

  /**
   A stored phase implies its effect and all earlier effects, in every interleaving of crashing runners, and
   a completed production marker implies a completed staging marker, which no recovery would come back to.
   */
  lemma StoredPhaseMeansDone(player: string, now: int, events: seq<Event>)
    ensures var w := After(Initial(player, now), events);
            && (w.production.Stored? ==>
              ValidFor(w.production.marker, player) && DoneThrough(w, w.production.marker.phase))
            && (w.staging.Stored? ==> ValidFor(w.staging.marker, player) && DoneThrough(w, w.staging.marker.phase))
            && (IsCompleted(w.production) ==> IsCompleted(w.staging))
            && (forall i :: 0 <= i < |w.runners| && w.runners[i].Finished? ==>
              DoneThrough(w, FIREBASE_IDENTITY_DELETED))
  {
    var w := After(Initial(player, now), events);
    EveryRunKeepsInvariant(player, now, events);
    forall i | 0 <= i < |w.runners| && w.runners[i].Finished? ensures DoneThrough(w, FIREBASE_IDENTITY_DELETED) {
      assert RunnerOk(w, w.runners[i]);
    }
  }

  /** Position of the first execution of an effect. */
  ghost predicate FirstAt(history: seq<Execution>, k: nat, i: nat)
  {
    i < |history| && history[i].effect == k && !Executed(history, i, k)
  }

  /** First executions happen in the fixed order. */
  lemma FirstExecutionsInOrder(player: string, now: int, events: seq<Event>, j: nat, k: nat, a: nat, b: nat)
    requires 1 <= j < k
    requires FirstAt(After(Initial(player, now), events).history, k, b)
    requires FirstAt(After(Initial(player, now), events).history, j, a)
    ensures a < b
  {
    var h := After(Initial(player, now), events).history;
    EveryRunKeepsInvariant(player, now, events);
    assert Executed(h, b, j);
    if a >= b {
      ExecutedStays(h, h, b, a, j);
    }
  }

  datatype CheckResult = Active | AccountDeleting | InvalidRecord

  /** `ensure_player_active`, reading the marker of the environment it runs in. */
  function EnsurePlayerActive(d: Doc, player: string, now: int): CheckResult
  {
    if d.Absent? then Active
    else if !ValidFor(d.marker, player) then InvalidRecord
    else if d.marker.purgeAt.Some? && d.marker.purgeAt.value <= now then Active
    else AccountDeleting
  }

  /**
   While a marker exists, in either database, a player counts as active exactly when the saga completed at
   least two hours ago; all effects have then happened, and the identity was gone when the two hours began.
   */
  lemma ActiveOnlyAfterTwoHours(player: string, now: int, events: seq<Event>, staging: bool)
    ensures var w := After(Initial(player, now), events);
            var d := if staging then w.staging else w.production;
            d.Stored? ==>
              && EnsurePlayerActive(d, player, w.now) != InvalidRecord
              && (EnsurePlayerActive(d, player, w.now) == Active <==>
                    d.marker.completedAt.Some? && d.marker.completedAt.value + TWO_HOURS <= w.now)
              && (EnsurePlayerActive(d, player, w.now) == Active ==>
                    DoneThrough(w, FIREBASE_IDENTITY_DELETED) && DeletedBy(w, w.now - TWO_HOURS))
  {
    var w := After(Initial(player, now), events);
    var d := if staging then w.staging else w.production;
    EveryRunKeepsInvariant(player, now, events);
    if d.Stored? && EnsurePlayerActive(d, player, w.now) == Active {
      DeletedStays(w, w, d.marker.completedAt.value);
    }
  }

  // ----- Progress -----

  /** Writes the two documents can still take. */
  function WritesLeft(w: World): nat
  {
    (match w.production
     case Absent => 6
     case Stored(m, _) => if m.phase <= FIREBASE_IDENTITY_DELETED then FIREBASE_IDENTITY_DELETED - m.phase else 0)
    + (match w.staging
       case Absent => 2
       case Stored(m, _) => if m.phase < FIREBASE_IDENTITY_DELETED then 1 else 0)
  }

  /** Calls a runner has left before it finishes or finds that another runner wrote first. */
  function CallsLeft(w: World, r: Runner): (n: nat)
    ensures n <= 100
  {
    match r
    case ReadProduction => 100
    case CreateProduction(_) => 99
    case RereadProduction => 98
    case ReadStaging(_) => 97
    case CreateStaging(_) => 96
    case Check(k, _) => if k <= 6 then 10 * (6 - k) + 30 else 0
    case Effect(k) => if k <= 5 then 10 * (6 - k) + 29 else 0
    case LoadAdvance(k) => if k <= 5 then 10 * (6 - k) + 27 else 0
    case UpdateAdvance(k, _, version) =>
      if k > 5 then 0
      else if w.production.Stored? && w.production.version == version then 10 * (6 - k) + 26
      else 10 * (6 - k) + 28
    case ReadClock => 15
    case LoadStaging(_) => 14
    case UpdateStaging(_, _, _) => 13
    case LoadProduction(_) => 2
    case UpdateProduction(_, _, version) =>
      if w.production.Stored? && w.production.version == version then 1 else 3
    case Finished => 0
    case Failed => 0
  }

  function TotalCalls(w: World, runners: seq<Runner>): (n: nat)
    ensures n <= 100 * |runners|
  {
    if runners == [] then 0 else CallsLeft(w, runners[0]) + TotalCalls(w, runners[1..])
  }

  /** Upper bound on the calls a fault-free schedule can still make. */
  function Bound(w: World): nat
  {
    WritesLeft(w) * (100 * |w.runners| + 1) + TotalCalls(w, w.runners)
  }

  predicate Running(r: Runner) { !r.Finished? && !r.Failed? }

  /** A call either writes a document for good or brings its runner closer to its end, and never fails it. */
  lemma CallMakesProgress(w: World, i: nat)
    requires Invariant(w) && i < |w.runners| && Running(w.runners[i])
    ensures Progress(w, RunnerStep(w, i), i)
  {
    hide Progress;
    assert RunnerOk(w, w.runners[i]);
    if IsStarting(w.runners[i]) {
      StartProgress(w, i);
    } else if IsAdvancing(w.runners[i]) {
      AdvanceProgress(w, i);
    } else {
      CompleteProgress(w, i);
    }
  }

  ghost predicate Progress(w: World, v: World, i: nat)
    requires i < |w.runners|
  {
    && |v.runners| == |w.runners| && !v.runners[i].Failed?
    && (WritesLeft(v) < WritesLeft(w)
        || (v.production == w.production && v.staging == w.staging
            && CallsLeft(v, v.runners[i]) < CallsLeft(w, w.runners[i])))
  }

  lemma StartProgress(w: World, i: nat)
    requires Invariant(w) && i < |w.runners|
    requires IsStarting(w.runners[i])
    ensures Progress(w, RunnerStep(w, i), i)
  {
    assert RunnerOk(w, w.runners[i]);
  }

  lemma AdvanceProgress(w: World, i: nat)
    requires Invariant(w) && i < |w.runners|
    requires IsAdvancing(w.runners[i])
    ensures Progress(w, RunnerStep(w, i), i)
  {
    assert RunnerOk(w, w.runners[i]);
  }

  lemma CompleteProgress(w: World, i: nat)
    requires Invariant(w) && i < |w.runners|
    requires Running(w.runners[i]) && !IsStarting(w.runners[i]) && !IsAdvancing(w.runners[i])
    ensures Progress(w, RunnerStep(w, i), i)
  {
    assert RunnerOk(w, w.runners[i]);
  }

  lemma {:induction false} TotalUpdate(w: World, runners: seq<Runner>, i: nat, r: Runner)
    requires i < |runners|
    ensures TotalCalls(w, runners[i := r]) == TotalCalls(w, runners) - CallsLeft(w, runners[i]) + CallsLeft(w, r)
  {
    if i > 0 {
      assert runners[i := r][1..] == runners[1..][i - 1 := r];
      TotalUpdate(w, runners[1..], i - 1, r);
    } else {
      assert runners[i := r][1..] == runners[1..];
    }
  }

  lemma {:induction false} TotalSame(w: World, v: World, runners: seq<Runner>)
    requires v.production == w.production
    ensures TotalCalls(v, runners) == TotalCalls(w, runners)
  {
    if runners != [] {
      TotalSame(w, v, runners[1..]);
    }
  }

  lemma BoundDecreases(w: World, i: nat)
    requires Invariant(w) && i < |w.runners| && Running(w.runners[i])
    ensures Bound(RunnerStep(w, i)) < Bound(w)
  {
    hide Invariant;
    var v := RunnerStep(w, i);
    CallMakesProgress(w, i);
    OnlyOneMoves(w, i);
    var c := 100 * |w.runners| + 1;
    if WritesLeft(v) < WritesLeft(w) {
      FewerWrites(WritesLeft(v), WritesLeft(w), c, TotalCalls(v, v.runners), TotalCalls(w, w.runners));
    } else {
      TotalUpdate(v, w.runners, i, v.runners[i]);
      TotalSame(w, v, w.runners);
      SameCallsLeft(w, v, w.runners[i]);
    }
  }

  lemma OnlyOneMoves(w: World, i: nat)
    requires i < |w.runners|
    ensures RunnerStep(w, i).runners == w.runners[i := RunnerStep(w, i).runners[i]]
  {
  }

  lemma SameCallsLeft(w: World, v: World, r: Runner)
    requires v.production == w.production
    ensures CallsLeft(v, r) == CallsLeft(w, r)
  {
  }

  lemma FewerWrites(a: nat, b: nat, c: nat, x: nat, y: nat)
    requires a < b && x < c
    ensures a * c + x < b * c + y
  {
    assert (a + 1) * c <= b * c;
  }

  /** Nothing but calls of runners that have not ended, and time passing between them. */
  ghost predicate FaultFree(w: World, schedule: seq<Event>)
    decreases |schedule|
  {
    schedule == [] ||
      var before := schedule[..|schedule| - 1];
      FaultFree(w, before) && NoFault(After(w, before), schedule[|schedule| - 1])
  }

  predicate NoFault(w: World, e: Event)
  {
    match e
    case Call(i) => i < |w.runners| && Running(w.runners[i])
    case Tick(_) => true
    case _ => false
  }

  /** The calls of a schedule. */
  function Calls(schedule: seq<Event>): nat
    decreases |schedule|
  {
    if schedule == [] then 0
    else Calls(schedule[..|schedule| - 1]) + if schedule[|schedule| - 1].Call? then 1 else 0
  }

  lemma BoundIgnoresTime(w: World, elapsed: nat)
    ensures Bound(Happen(w, Tick(elapsed))) == Bound(w)
  {
    TotalSame(w, Happen(w, Tick(elapsed)), w.runners);
  }

  /** One event of a fault-free schedule. */
  lemma FaultFreeEvent(w: World, e: Event)
    requires Invariant(w) && NoFault(w, e)
    ensures var v := Happen(w, e);
            && Invariant(v) && |v.runners| == |w.runners|
            && (if e.Call? then Bound(v) < Bound(w) else Bound(v) == Bound(w))
            && forall i :: 0 <= i < |w.runners| ==>
                 (v.runners[i].Failed? <==> w.runners[i].Failed?) && (w.runners[i].Finished? ==> v.runners[i].Finished?)
  {
    HappenKeepsInvariant(w, e);
    match e
    case Call(i) =>
      CallMakesProgress(w, i);
      OnlyOneMoves(w, i);
      BoundDecreases(w, i);
    case Tick(elapsed) =>
      BoundIgnoresTime(w, elapsed);
  }

  /** Concurrent runners cannot keep each other from ending: the calls of a fault-free schedule are bounded. */
  lemma {:induction false} FaultFreeScheduleIsBounded(w: World, schedule: seq<Event>)
    requires Invariant(w) && FaultFree(w, schedule)
    ensures var v := After(w, schedule);
            && Calls(schedule) + Bound(v) <= Bound(w)
            && Invariant(v) && |v.runners| == |w.runners|
            && forall i :: 0 <= i < |w.runners| ==> (v.runners[i].Failed? <==> w.runners[i].Failed?)
    decreases |schedule|
  {
    hide Invariant;
    hide Bound;
    hide Happen;
    hide NoFault;
    if schedule != [] {
      var before := schedule[..|schedule| - 1];
      FaultFreeScheduleIsBounded(w, before);
      FaultFreeEvent(After(w, before), schedule[|schedule| - 1]);
    }
  }

  /** The saga is complete, in both databases. */
  ghost predicate Complete(w: World)
  {
    IsCompleted(w.production) && IsCompleted(w.staging) && DoneThrough(w, FIREBASE_IDENTITY_DELETED)
  }

  /**
   From every reachable world, once faults stop, the runners that are still running all finish, whatever the
   order of their calls and however much time passes between them, and then the saga is complete.
   */
  lemma FaultFreeRunCompletes(player: string, now: int, events: seq<Event>, schedule: seq<Event>)
    requires FaultFree(After(Initial(player, now), events), schedule)
    ensures var w := After(Initial(player, now), events);
            var v := After(w, schedule);
            && Calls(schedule) <= Bound(w)
            && |v.runners| == |w.runners|
            && ((forall i :: 0 <= i < |v.runners| ==> !Running(v.runners[i])) ==>
                  forall i :: 0 <= i < |w.runners| && Running(w.runners[i]) ==> v.runners[i].Finished? && Complete(v))
  {
    var w := After(Initial(player, now), events);
    var v := After(w, schedule);
    EveryRunKeepsInvariant(player, now, events);
    FaultFreeScheduleIsBounded(w, schedule);
    forall i | 0 <= i < |v.runners| && v.runners[i].Finished? ensures Complete(v) {
      assert RunnerOk(v, v.runners[i]);
    }
  }
}
