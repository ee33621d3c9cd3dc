/**
 The two memoised projections: a started session's presentation and one opened moment's addition. Board,
 label and arrow facts are parameters; what is modelled is where each input, and the idempotency key, flows.
 */
module ReviewProjection {
  import opened Optional
  import opened Utf16Text
  import opened NumberText
  import opened JsonText
  import opened PresentationCache
  import Cache = RecencyCache

  /** Revisions are finite numbers, and zero is written without a sign. */
  type Revision = n: Num | n.IsFinite() && NormalNum(n) == n witness Zero(false)

  datatype Occurrence = Occurrence(momentId: Text, ply: int, selection: string)

  datatype AdmittedMoment = AdmittedMoment(occurrence: Occurrence, prepared: bool, learningMaterial: string,
                                           position: string)

  datatype CriticalMoment = CriticalMoment(criticalMomentId: Text, learningMaterial: string, display: string)

  datatype SessionCompletion = SessionCompletion(
    gameImportId: Text, sessionRevision: Revision, importedGame: string, timeline: string,
    reviewMoments: seq<AdmittedMoment>, criticalMoments: seq<CriticalMoment>)

  datatype RevisionDelta = RevisionDelta(
    priorRevision: Revision, resultingRevision: Revision, changedMomentIds: seq<Text>, fullRefreshRequired: bool)

  datatype MomentCompletion = MomentCompletion(
    gameImportId: Text, sessionRevision: Revision, revisionDelta: RevisionDelta,
    importedGame: string, occurrence: Occurrence, position: string, criticalMoment: CriticalMoment)

  /** What the two projections have in common: a moment with its review entry, readiness aside from its source. */
  datatype PresentedMoment = PresentedMoment(
    prepared: bool, criticalMoment: CriticalMoment, learningMaterial: string, occurrence: Occurrence, position: string)

  // ----- Idempotency keys -----

  /** The decoder's pattern: `^[A-Za-z0-9][A-Za-z0-9._:-]{0,127}$`. */
  predicate ContractKey(key: string)
  {
    1 <= |key| <= 128 && IsAlphanumeric(key[0]) && forall i :: 0 <= i < |key| ==>
      IsAlphanumeric(key[i]) || key[i] in "._:-"
  }

  predicate IsAlphanumeric(c: char)
  {
    'A' <= c <= 'Z' || 'a' <= c <= 'z' || '0' <= c <= '9'
  }

  /** What makes a string an idempotency key for the callers: one of two prefixes. */
  predicate BrandedKey(key: string)
  {
    "idempotency-key:" <= key || "idempotency:" <= key
  }

  const CONTRACT_KEY := "idempotency-key:a"
  const REFUSED_KEY := "idempotency-key:a b"

  /** A caller's key may be one that the decoder refuses. */
  lemma BrandedKeyMayBeRefused()
    ensures BrandedKey(CONTRACT_KEY) && ContractKey(CONTRACT_KEY)
    ensures BrandedKey(REFUSED_KEY) && !ContractKey(REFUSED_KEY)
  {
    assert CONTRACT_KEY[..16] == "idempotency-key:";
    assert REFUSED_KEY[..16] == "idempotency-key:";
    assert REFUSED_KEY[17] == ' ' && !IsAlphanumeric(' ') && ' ' !in "._:-";
  }

  // ----- The projections -----

  /** Rendering a moment may throw; the final decode looks at the facts, and at the key in each handoff. */
  datatype Rendering = Rendering(
    moment: (PresentedMoment, string, Text) -> Option<string>,
    session: SessionCompletion -> string,
    addition: MomentCompletion -> string,
    decodes: (string, seq<string>) -> bool)

  function MomentFacts(ms: seq<MomentValue>): (r: seq<string>)
    ensures |r| == |ms| && forall i :: 0 <= i < |r| ==> r[i] == ms[i].facts
  {
    seq(|ms|, i requires 0 <= i < |ms| => ms[i].facts)
  }

  /** `decodeReviewSessionPresentation`. */
  predicate Decodes(rendering: Rendering, p: PresentationValue)
  {
    && rendering.decodes(p.facts, MomentFacts(p.moments))
    && forall i :: 0 <= i < |p.moments| ==> ContractKey(p.moments[i].idempotencyKey)
  }

  /** `projectMoment`: the key goes into the handoff and nowhere else. */
  function ProjectMoment(rendering: Rendering, m: PresentedMoment, game: string, gameImportId: Text,
                         key: string): Option<MomentValue>
  {
    match rendering.moment(m, game, gameImportId)
    case None => None
    case Some(facts) => Some(MomentValue(facts, key))
  }

  /** `boardSourceMoment`: a moment without its Game Review entry is a broken review. */
  function FindCritical(moments: seq<CriticalMoment>, id: Text): Option<CriticalMoment>
  {
    if moments == [] then None
    else if moments[0].criticalMomentId == id then Some(moments[0])
    else FindCritical(moments[1..], id)
  }

  function ProjectAdmitted(rendering: Rendering, c: SessionCompletion, admitted: AdmittedMoment,
                           key: string): Option<MomentValue>
  {
    match FindCritical(c.criticalMoments, admitted.occurrence.momentId)
    case None => None
    case Some(critical) =>
      ProjectMoment(rendering,
                    PresentedMoment(admitted.prepared, critical, admitted.learningMaterial, admitted.occurrence,
                      admitted.position),
                    c.importedGame, c.gameImportId, key)
  }

  /** Projects the admitted moments in order; the first throw ends the projection. */
  function ProjectMoments(rendering: Rendering, c: SessionCompletion, admitted: seq<AdmittedMoment>,
                          key: string): Option<seq<MomentValue>>
  {
    if admitted == [] then Some([])
    else
      match (ProjectAdmitted(rendering, c, admitted[0], key), ProjectMoments(rendering, c, admitted[1..], key))
      case (Some(m), Some(rest)) => Some([m] + rest)
      case _ => None
  }

  function ProjectSession(rendering: Rendering, c: SessionCompletion, key: string): Option<PresentationValue>
  {
    match ProjectMoments(rendering, c, c.reviewMoments, key)
    case None => None
    case Some(moments) =>
      var p := PresentationValue(rendering.session(c), moments);
      if Decodes(rendering, p) then Some(p) else None
  }

  /** An addition throws when its review entry or its revision delta does not fit the opened moment. */
  function ProjectAddition(rendering: Rendering, c: MomentCompletion, key: string): Option<PresentationValue>
  {
    if c.criticalMoment.criticalMomentId != c.occurrence.momentId then None
    else if c.revisionDelta.changedMomentIds != [c.occurrence.momentId] then None
    else if c.revisionDelta.resultingRevision != c.sessionRevision then None
    else
      var presented := PresentedMoment(true, c.criticalMoment, c.criticalMoment.learningMaterial, c.occurrence,
        c.position);
      match ProjectMoment(rendering, presented, c.importedGame, c.gameImportId, key)
      case None => None
      case Some(m) => Some(PresentationValue(rendering.addition(c), [m]))
  }

  // ----- Cache keys -----

  function SessionKey(c: SessionCompletion): Text
  {
    Stringify(JArr([JStr(c.gameImportId), JNum(c.sessionRevision)]))
  }

  function AdditionKey(c: MomentCompletion): Text
  {
    Stringify(JArr([JStr(c.gameImportId), JNum(c.sessionRevision), JStr(c.occurrence.momentId)]))
  }

  /** The session key names the import and the revision, and nothing else. */
  lemma SessionKeyNames(c: SessionCompletion, d: SessionCompletion)
    ensures SessionKey(c) == SessionKey(d) <==>
      c.gameImportId == d.gameImportId && c.sessionRevision == d.sessionRevision
  {
    var a, b := [JStr(c.gameImportId), JNum(c.sessionRevision)], [JStr(d.gameImportId), JNum(d.sessionRevision)];
    SameJsonIffNormalEqual(JArr(a), JArr(b));
    PlainItems(a);
    PlainItems(b);
    assert a == b <==> a[0] == b[0] && a[1] == b[1];
  }

  predicate SameMoment(c: MomentCompletion, d: MomentCompletion)
  {
    c.gameImportId == d.gameImportId && c.sessionRevision == d.sessionRevision &&
      c.occurrence.momentId == d.occurrence.momentId
  }

  lemma AdditionKeyNames(c: MomentCompletion, d: MomentCompletion)
    ensures AdditionKey(c) == AdditionKey(d) <==> SameMoment(c, d)
  {
    var a := [JStr(c.gameImportId), JNum(c.sessionRevision), JStr(c.occurrence.momentId)];
    var b := [JStr(d.gameImportId), JNum(d.sessionRevision), JStr(d.occurrence.momentId)];
    SameJsonIffNormalEqual(JArr(a), JArr(b));
    PlainItems(a);
    PlainItems(b);
    assert a == b <==> a[0] == b[0] && a[1] == b[1] && a[2] == b[2];
  }

  /** Strings and revisions print as themselves. */
  lemma PlainItems(items: seq<Json>)
    requires forall i :: 0 <= i < |items| ==>
      items[i].JStr? || (items[i].JNum? && items[i].n.IsFinite() && NormalNum(items[i].n) == items[i].n)
    ensures NormalItems(items) == items
  {
    forall i | 0 <= i < |items| ensures NormalItems(items)[i] == items[i] {
      assert NormalItems(items)[i] == Normal(items[i]);
    }
  }

  // ----- The key flows to the handoffs only -----

  lemma {:induction false} MomentsBind(rendering: Rendering, c: SessionCompletion, admitted: seq<AdmittedMoment>,
                                       k: string, l: string)
    ensures ProjectMoments(rendering, c, admitted, k).Some? <==> ProjectMoments(rendering, c, admitted, l).Some?
    ensures ProjectMoments(rendering, c, admitted, k).Some? ==>
      ProjectMoments(rendering, c, admitted, l).value == BindMoments(ProjectMoments(rendering, c, admitted, k).value, l)
  {
    if admitted != [] {
      MomentsBind(rendering, c, admitted[1..], k, l);
    }
  }

  function SessionProjection(rendering: Rendering): Projection<SessionCompletion>
  {
    Projection((c, k) => ProjectSession(rendering, c, k), SessionKey, ContractKey)
  }

  /** Additions are not decoded here, so no key is refused. */
  function AdditionProjection(rendering: Rendering): Projection<MomentCompletion>
  {
    Projection((c, k) => ProjectAddition(rendering, c, k), AdditionKey, _ => true)
  }

  lemma SessionKeyFlow(rendering: Rendering)
    ensures KeyFlowsToHandoffs(SessionProjection(rendering))
  {
    var p := SessionProjection(rendering);
    forall c, k, l | ProjectSession(rendering, c, k).Some?
      ensures ProjectSession(rendering, c, l) == Rebound(p, ProjectSession(rendering, c, k).value, l)
    {
      SessionRebinds(rendering, c, k, l);
    }
  }

  lemma SessionRebinds(rendering: Rendering, c: SessionCompletion, k: string, l: string)
    requires ProjectSession(rendering, c, k).Some?
    ensures ProjectSession(rendering, c, l) ==
      Rebound(SessionProjection(rendering), ProjectSession(rendering, c, k).value, l)
  {
    MomentsBind(rendering, c, c.reviewMoments, k, l);
    var v := ProjectSession(rendering, c, k).value;
    var w := PresentationValue(v.facts, ProjectMoments(rendering, c, c.reviewMoments, l).value);
    assert w == Bind(v, l);
    assert MomentFacts(w.moments) == MomentFacts(v.moments);
    assert v.moments != [] ==> w.moments[0].idempotencyKey == l;
  }

  lemma AdditionKeyFlow(rendering: Rendering)
    ensures KeyFlowsToHandoffs(AdditionProjection(rendering))
  {
    forall c, k, l | ProjectAddition(rendering, c, k).Some?
      ensures ProjectAddition(rendering, c, l) == Some(Bind(ProjectAddition(rendering, c, k).value, l))
    {
      assert BindMoments(ProjectAddition(rendering, c, k).value.moments, l) ==
        ProjectAddition(rendering, c, l).value.moments;
    }
  }

  // ----- Completions that import and revision determine -----

  /** Two completions of the same import and revision are the same completion. */
  ghost predicate Determined(cs: iset<SessionCompletion>)
  {
    forall c, d :: c in cs && d in cs && c.gameImportId == d.gameImportId && c.sessionRevision == d.sessionRevision ==>
      c == d
  }

  ghost function CompletionOf(cs: iset<SessionCompletion>, key: Text): SessionCompletion
  {
    if exists c :: c in cs && SessionKey(c) == key then
      var c :| c in cs && SessionKey(c) == key; c
    else SessionCompletion([], Zero(false), "", "", [], [])
  }

  /** Then every completion is the one its cache key stands for, which is what the memoised projection needs. */
  lemma KeyDeterminesCompletion(cs: iset<SessionCompletion>, c: SessionCompletion)
    requires Determined(cs) && c in cs
    ensures CompletionOf(cs, SessionKey(c)) == c
  {
    SessionKeyNames(CompletionOf(cs, SessionKey(c)), c);
  }

  /** The same for additions, whose key also names the moment. */
  ghost predicate AdditionsDetermined(cs: iset<MomentCompletion>)
  {
    forall c, d :: c in cs && d in cs && SameMoment(c, d) ==> c == d
  }

  ghost function AdditionOf(cs: iset<MomentCompletion>, key: Text): MomentCompletion
  {
    if exists c :: c in cs && AdditionKey(c) == key then
      var c :| c in cs && AdditionKey(c) == key; c
    else
      MomentCompletion([], Zero(false), RevisionDelta(Zero(false), Zero(false), [], false), "",
                       Occurrence([], 0, ""), "", CriticalMoment([], "", ""))
  }

  lemma KeyDeterminesAddition(cs: iset<MomentCompletion>, c: MomentCompletion)
    requires AdditionsDetermined(cs) && c in cs
    ensures AdditionOf(cs, AdditionKey(c)) == c
  {
    AdditionKeyNames(AdditionOf(cs, AdditionKey(c)), c);
  }

  // ----- One call -----

  lemma {:induction false} MomentForEach(rendering: Rendering, c: SessionCompletion, admitted: seq<AdmittedMoment>,
                                         key: string)
    requires ProjectMoments(rendering, c, admitted, key).Some?
    ensures |ProjectMoments(rendering, c, admitted, key).value| == |admitted|
  {
    if admitted != [] {
      MomentForEach(rendering, c, admitted[1..], key);
    }
  }

  /** A session projects to no moments exactly when it has none to review. */
  lemma MomentlessSession(rendering: Rendering, c: SessionCompletion)
    requires exists key :: ProjectSession(rendering, c, key).Some?
    ensures (forall key :: ProjectSession(rendering, c, key).Some? ==>
      ProjectSession(rendering, c, key).value.moments == []) <==>
      c.reviewMoments == []
  {
    forall key | ProjectSession(rendering, c, key).Some?
      ensures |ProjectSession(rendering, c, key).value.moments| == |c.reviewMoments|
    {
      MomentForEach(rendering, c, c.reviewMoments, key);
    }
  }

  /**
   The cached session projection is the direct one exactly on a miss, for a contract key, or with nothing to
   review.
   */
  method ProjectCachedSession(memo: MemoisedProjection<SessionCompletion>, rendering: Rendering, c: SessionCompletion,
                              key: string)
    returns (r: Option<PresentationObject>)
    requires memo.Valid() && memo.projection == SessionProjection(rendering) && memo.completions(SessionKey(c)) == c
    modifies memo`Repr, memo.cache
    ensures memo.Valid() && (r.Some? ==> r.value.Parts() !! memo.Repr)
    ensures Read(r) == ProjectSession(rendering, c, key) <==>
      Cache.Find(old(memo.cache.entries), SessionKey(c)).None? || ContractKey(key) || c.reviewMoments == []
  {
    ghost var found := Cache.Find(memo.cache.entries, SessionKey(c));
    Cache.FindMember(memo.cache.entries, SessionKey(c));
    if found.Some? {
      assert memo.Holds(Cache.Entry(SessionKey(c), found.value));
      ghost var k: string :| memo.projection.compute(c, k) == Some(found.value.Value());
      assert ProjectSession(rendering, c, k).Some?;
      MomentlessSession(rendering, c);
    }
    r := memo.Project(c, key);
  }

  // ----- Whole call sequences -----

  /**
   Every call whose key the decoder lets through, and every call that direct computation answers, gets the
   direct answer.
   */
  method ServeSessions(rendering: Rendering, maximumEntries: nat, calls: seq<(SessionCompletion, string)>,
                       overwrites: seq<string>, ghost cs: iset<SessionCompletion>)
    returns (results: seq<Option<PresentationValue>>)
    requires Determined(cs) && |overwrites| == |calls|
    requires forall i :: 0 <= i < |calls| ==> calls[i].0 in cs
    ensures |results| == |calls|
    ensures forall i ::
      0 <= i < |calls| && (ContractKey(calls[i].1) || ProjectSession(rendering, calls[i].0, calls[i].1).Some?) ==>
      results[i] == ProjectSession(rendering, calls[i].0, calls[i].1)
  {
    SessionKeyFlow(rendering);
    ghost var completions := (key: Text) => CompletionOf(cs, key);
    forall i | 0 <= i < |calls| ensures completions(SessionKey(calls[i].0)) == calls[i].0 {
      KeyDeterminesCompletion(cs, calls[i].0);
    }
    results := ServeAll(SessionProjection(rendering), maximumEntries, calls, overwrites, completions);
  }

  /** Every call of the addition cache gets the direct answer. */
  method ServeAdditions(rendering: Rendering, maximumEntries: nat, calls: seq<(MomentCompletion, string)>,
                        overwrites: seq<string>, ghost cs: iset<MomentCompletion>)
    returns (results: seq<Option<PresentationValue>>)
    requires AdditionsDetermined(cs) && |overwrites| == |calls|
    requires forall i :: 0 <= i < |calls| ==> calls[i].0 in cs
    ensures |results| == |calls|
    ensures forall i :: 0 <= i < |calls| ==> results[i] == ProjectAddition(rendering, calls[i].0, calls[i].1)
  {
    AdditionKeyFlow(rendering);
    ghost var completions := (key: Text) => AdditionOf(cs, key);
    forall i | 0 <= i < |calls| ensures completions(AdditionKey(calls[i].0)) == calls[i].0 {
      KeyDeterminesAddition(cs, calls[i].0);
    }
    results := ServeAll(AdditionProjection(rendering), maximumEntries, calls, overwrites, completions);
  }

  /**
   After a first call with a good key, a second one with a refused key is answered, where direct computation
   throws.
   */
  method RefusedKeyIsServed() returns (direct: Option<PresentationValue>, served: Option<PresentationValue>)
    ensures direct.None? && served.Some?
    ensures |served.value.moments| == 1 && served.value.moments[0].idempotencyKey == REFUSED_KEY
  {
    var rendering := Rendering((_, _, _) => Some(""), _ => "", _ => "", (_, _) => true);
    var moment := AdmittedMoment(Occurrence([], 0, ""), true, "", "");
    var c := SessionCompletion([], Zero(false), "", "", [moment], [CriticalMoment([], "", "")]);
    BrandedKeyMayBeRefused();
    SessionKeyFlow(rendering);
    hide ContractKey;
    hide BrandedKey;
    OneMoment(rendering, c, CONTRACT_KEY);
    OneMoment(rendering, c, REFUSED_KEY);
    direct := ProjectSession(rendering, c, REFUSED_KEY);
    var memo := new MemoisedProjection(SessionProjection(rendering), 128, _ => c);
    var first := memo.Project(c, CONTRACT_KEY);
    assert Cache.Find(memo.cache.entries, SessionKey(c)).Some? by {
      ghost var p :| memo.cache.entries == Cache.Use([], 128, Cache.Access(SessionKey(c), p));
      assert memo.cache.entries == [Cache.Entry(SessionKey(c), p)];
    }
    var second := memo.Project(c, REFUSED_KEY);
    served := Read(second);
    forall k | ProjectSession(rendering, c, k).Some? ensures |ProjectSession(rendering, c, k).value.moments| == 1 {
      OneMoment(rendering, c, k);
    }
  }

  lemma OneMoment(rendering: Rendering, c: SessionCompletion, key: string)
    requires rendering.moment == ((_, _, _) => Some("")) && rendering.decodes == ((_, _) => true)
    requires |c.reviewMoments| == |c.criticalMoments| == 1
    requires c.criticalMoments[0].criticalMomentId == c.reviewMoments[0].occurrence.momentId
    ensures ProjectSession(rendering, c, key).Some? <==> ContractKey(key)
    ensures ProjectSession(rendering, c, key).Some? ==> |ProjectSession(rendering, c, key).value.moments| == 1
  {
    assert ProjectMoments(rendering, c, c.reviewMoments[1..], key) == Some([]);
    assert ProjectAdmitted(rendering, c, c.reviewMoments[0], key) == Some(MomentValue("", key));
    var only := MomentValue("", key);
    assert [only] + [] == [only] && [only][0].idempotencyKey == key;
    assert ProjectMoments(rendering, c, c.reviewMoments, key) == Some([only]);
  }
}
