/**
 Provenance binding of application/broker_reconciliation_candidate.py: redacted source
 records are checked against designated expectations, serialised in one canonical order,
 and bound into a candidate by the digest of that text.
 */
module SourceReceipts {
  import opened Wrappers
  import opened Ordering
  import opened Sums

  const RECORD_SCHEMA := "ibkr_reconciliation_source_receipt_record.v1"
  const MAIN_REF := "refs/heads/main"
  const SUCCESS := "success"

  /** The provenance an expectation and a record share. */
  datatype Body = Body(
    repository: string, workflowPath: string, runId: string, runAttempt: string, headSha: string,
    artifactId: string, artifactName: string, artifactSha256: string, evidenceSha256: string,
    serviceName: string, serviceRevision: string, revisionCommit: string, deployRunId: string, schedulerSha256: string)

  datatype Expectation = Expectation(profile: string, workflowRef: string, conclusion: string, body: Body)

  /** A saved record; `complete` when it holds exactly the expected fields, all of them texts. */
  datatype Record = Record(complete: bool, schema: string, body: Body)

  datatype Problem =
    | BadProfile | NoExpectations | WrongRef | WrongConclusion | BadExpectation(field: string)
    | WrongArtifactName | DuplicateArtifact | DuplicateRun | NotShared(field: string)
    | BadRecord | NoRecords | DuplicateRecord | ArtifactsDiffer | ProfileDiffers | ProvenanceDiffers
    | WrongSchema | MembersDiffer | NotAdmitted | BindingMismatch

  // ---------- canonical texts ----------

  predicate CanonicalText(isSpace: char -> bool, s: string) { |s| > 0 && !isSpace(s[0]) && !isSpace(s[|s| - 1]) }

  predicate HexText(isSpace: char -> bool, s: string, n: nat) {
    CanonicalText(isSpace, s) && |s| == n && forall i :: 0 <= i < |s| ==> s[i] in "0123456789abcdef"
  }

  predicate StartsWith(s: string, prefix: string) { |prefix| <= |s| && s[..|prefix|] == prefix }

  predicate EndsWith(s: string, suffix: string) { |suffix| <= |s| && s[|s| - |suffix|..] == suffix }

  /** owner/name, with exactly one slash and nothing empty. */
  predicate RepositoryOk(isSpace: char -> bool, s: string) {
    CanonicalText(isSpace, s) && exists i :: 0 < i < |s| - 1 && s[i] == '/' && '/' !in s[..i] && '/' !in s[i + 1..]
  }

  predicate WorkflowPathOk(isSpace: char -> bool, s: string) {
    && CanonicalText(isSpace, s) && StartsWith(s, ".github/workflows/") && (EndsWith(s, ".yml") || EndsWith(s, ".yaml"))
    && forall i :: 0 <= i < |s| - 1 ==> !(s[i] == '.' && s[i + 1] == '.')
  }

  predicate BodyOk(isSpace: char -> bool, b: Body) {
    && RepositoryOk(isSpace, b.repository) && WorkflowPathOk(isSpace, b.workflowPath)
    && CanonicalText(isSpace, b.runId) && CanonicalText(isSpace, b.runAttempt) && HexText(isSpace, b.headSha, 40)
    && CanonicalText(isSpace, b.artifactId) && CanonicalText(isSpace, b.artifactName)
    && HexText(isSpace, b.artifactSha256, 64) && HexText(isSpace, b.evidenceSha256, 64)
    && CanonicalText(isSpace, b.serviceName) && CanonicalText(isSpace, b.serviceRevision)
    && HexText(isSpace, b.revisionCommit, 40) && CanonicalText(isSpace, b.deployRunId)
    && HexText(isSpace, b.schedulerSha256, 64)
  }

  /** The first field, in the order the code reads them, that is not canonical. */
  function BadField(isSpace: char -> bool, b: Body): Option<string> {
    if !RepositoryOk(isSpace, b.repository) then Some("repository")
    else if !WorkflowPathOk(isSpace, b.workflowPath) then Some("workflow_path")
    else if !CanonicalText(isSpace, b.runId) then Some("workflow_run_id")
    else if !CanonicalText(isSpace, b.runAttempt) then Some("workflow_run_attempt")
    else if !HexText(isSpace, b.headSha, 40) then Some("workflow_head_sha")
    else if !CanonicalText(isSpace, b.artifactId) then Some("artifact_id")
    else if !CanonicalText(isSpace, b.artifactName) then Some("artifact_name")
    else if !HexText(isSpace, b.artifactSha256, 64) then Some("artifact_sha256")
    else if !HexText(isSpace, b.evidenceSha256, 64) then Some("evidence_sha256")
    else if !CanonicalText(isSpace, b.serviceName) then Some("service_name")
    else if !CanonicalText(isSpace, b.serviceRevision) then Some("service_revision")
    else if !HexText(isSpace, b.revisionCommit, 40) then Some("service_revision_commit_sha")
    else if !CanonicalText(isSpace, b.deployRunId) then Some("service_deploy_run_id")
    else if !HexText(isSpace, b.schedulerSha256, 64) then Some("scheduler_job_sha256")
    else None
  }

  lemma NoBadFieldExactly(isSpace: char -> bool, b: Body)
    ensures BadField(isSpace, b).None? <==> BodyOk(isSpace, b)
  {
    hide RepositoryOk, WorkflowPathOk, CanonicalText, HexText;
  }

  // ---------- expectations ----------

  function ExpectedName(e: Expectation): string { "ibkr-reconciliation-" + e.profile + "-" + e.body.runId }

  function ExpectationProblem(isSpace: char -> bool, e: Expectation): Option<Problem> {
    if e.workflowRef != MAIN_REF then Some(WrongRef)
    else if e.conclusion != SUCCESS then Some(WrongConclusion)
    else if !CanonicalText(isSpace, e.profile) then Some(BadExpectation("strategy_profile"))
    else if BadField(isSpace, e.body).Some? then Some(BadExpectation(BadField(isSpace, e.body).value))
    else if e.body.artifactName != ExpectedName(e) then Some(WrongArtifactName)
    else None
  }

  /** The fields that all designated receipts share, in the order they are compared. */
  const SHARED: seq<string> := [
    "strategy_profile", "repository", "workflow_path", "workflow_head_sha", "service_name", "service_revision",
    "service_revision_commit_sha"]

  function SharedText(field: string): Expectation -> string {
    (e: Expectation) =>
      if field == "strategy_profile" then e.profile
      else if field == "repository" then e.body.repository
      else if field == "workflow_path" then e.body.workflowPath
      else if field == "workflow_head_sha" then e.body.headSha
      else if field == "service_name" then e.body.serviceName
      else if field == "service_revision" then e.body.serviceRevision
      else e.body.revisionCommit
  }

  function ArtifactOf(): Expectation -> string { (e: Expectation) => e.body.artifactId }

  function RunOf(): Expectation -> string { (e: Expectation) => e.body.runId }

  ghost predicate EachOk(isSpace: char -> bool, es: seq<Expectation>) {
    forall e :: e in es ==> ExpectationProblem(isSpace, e).None?
  }

  ghost predicate Agree(field: string, es: seq<Expectation>) {
    forall d, e :: d in es && e in es ==> SharedText(field)(d) == SharedText(field)(e)
  }

  ghost predicate Sharing(es: seq<Expectation>) { forall i :: 0 <= i < |SHARED| ==> Agree(SHARED[i], es) }

  /** The first field on which they do not agree. */
  ghost predicate FirstUnshared(es: seq<Expectation>, problem: Problem) {
    exists i :: 0 <= i < |SHARED| && !Agree(SHARED[i], es) && problem == NotShared(SHARED[i])
                && forall j :: 0 <= j < i ==> Agree(SHARED[j], es)
  }

  ghost predicate ExpectationsOk(isSpace: char -> bool, es: seq<Expectation>) {
    && es != [] && EachOk(isSpace, es) && DistinctKeys(ArtifactOf(), es) && DistinctKeys(RunOf(), es) && Sharing(es)
  }

  /** The first expectation that cannot be taken, and why. */
  ghost predicate FailsAt(isSpace: char -> bool, es: seq<Expectation>, i: nat, problem: Problem) {
    && i < |es| && EachOk(isSpace, es[..i]) && DistinctKeys(ArtifactOf(), es[..i])
    && match ExpectationProblem(isSpace, es[i])
       case Some(p) => problem == p
       case None => problem == DuplicateArtifact && es[i].body.artifactId in Image(ArtifactOf(), es[..i])
  }

  /** Which problem is reported, among those there are. */
  ghost predicate Justified(isSpace: char -> bool, es: seq<Expectation>, problem: Problem) {
    if es == [] then problem == NoExpectations
    else if EachOk(isSpace, es) && DistinctKeys(ArtifactOf(), es) then
      if DistinctKeys(RunOf(), es) then FirstUnshared(es, problem) else problem == DuplicateRun
    else exists i :: FailsAt(isSpace, es, i, problem)
  }

  /** The expectations, each under its artifact. */
  ghost predicate Indexes(expected: map<string, Expectation>, es: seq<Expectation>) {
    && expected.Keys == Image(ArtifactOf(), es)
    && (forall id :: id in expected ==> expected[id] in es && expected[id].body.artifactId == id)
    && (forall e :: e in es ==> e.body.artifactId in expected && expected[e.body.artifactId] == e)
  }

  method NormalizeExpectations(isSpace: char -> bool, es: seq<Expectation>)
    returns (r: Result<map<string, Expectation>, Problem>)
    ensures r.Success? <==> ExpectationsOk(isSpace, es)
    ensures r.Success? ==> Indexes(r.value, es)
    ensures r.Failure? ==> Justified(isSpace, es, r.error)
  {
    hide *;
    if es == [] { NothingExpected(isSpace, es); return Failure(NoExpectations); }
    var expected: map<string, Expectation> := map[];
    NothingIndexed(isSpace);
    assert es[..0] == [];
    var i := 0;
    while i < |es|
      invariant 0 <= i <= |es| && EachOk(isSpace, es[..i]) && DistinctKeys(ArtifactOf(), es[..i])
      invariant Indexes(expected, es[..i])
    {
      assert es[..i + 1] == es[..i] + [es[i]];
      IndexOne(isSpace, es[..i], expected, es[i]);
      var problem := ExpectationProblem(isSpace, es[i]);
      if problem.Some? {
        RefusedAt(isSpace, es, i, expected, problem.value);
        return Failure(problem.value);
      }
      if es[i].body.artifactId in expected {
        RefusedAt(isSpace, es, i, expected, DuplicateArtifact);
        return Failure(DuplicateArtifact);
      }
      expected := expected[es[i].body.artifactId := es[i]];
      i := i + 1;
    }
    assert es[..|es|] == es;
    ValuesAre(expected, es);
    if |set e | e in expected.Values :: e.body.runId| != |expected| {
      NotAccepted(isSpace, es, DuplicateRun);
      return Failure(DuplicateRun);
    }
    var unshared := FindUnshared(expected, es);
    if unshared.Some? {
      NotAccepted(isSpace, es, unshared.value);
      return Failure(unshared.value);
    }
    AllAccepted(isSpace, es);
    r := Success(expected);
  }

  lemma NothingExpected(isSpace: char -> bool, es: seq<Expectation>)
    requires es == []
    ensures !ExpectationsOk(isSpace, es) && Justified(isSpace, es, NoExpectations)
  {
  }

  lemma NothingIndexed(isSpace: char -> bool)
    ensures EachOk(isSpace, []) && DistinctKeys(ArtifactOf(), []) && Indexes(map[], [])
  {
  }

  method FindUnshared(expected: map<string, Expectation>, ghost es: seq<Expectation>) returns (problem: Option<Problem>)
    requires es != [] && forall e :: e in expected.Values <==> e in es
    ensures problem.None? <==> Sharing(es)
    ensures problem.Some? ==> FirstUnshared(es, problem.value)
  {
    hide Agree;
    var i := 0;
    while i < |SHARED|
      invariant 0 <= i <= |SHARED| && forall j :: 0 <= j < i ==> Agree(SHARED[j], es)
    {
      AgreeIsOneText(SHARED[i], expected, es);
      if |set e | e in expected.Values :: SharedText(SHARED[i])(e)| != 1 { return Some(NotShared(SHARED[i])); }
      i := i + 1;
    }
    problem := None;
  }

  lemma AgreeIsOneText(field: string, expected: map<string, Expectation>, es: seq<Expectation>)
    requires es != [] && forall e :: e in expected.Values <==> e in es
    ensures |set e | e in expected.Values :: SharedText(field)(e)| == 1 <==> Agree(field, es)
  {
    ImageOfValues(SharedText(field), expected, es);
    OneImage(SharedText(field), es);
  }

  lemma NotAccepted(isSpace: char -> bool, es: seq<Expectation>, problem: Problem)
    requires es != [] && EachOk(isSpace, es) && DistinctKeys(ArtifactOf(), es)
    requires if DistinctKeys(RunOf(), es) then FirstUnshared(es, problem) else problem == DuplicateRun
    ensures !ExpectationsOk(isSpace, es) && Justified(isSpace, es, problem)
  {
    hide EachOk, DistinctKeys, Agree;
  }

  lemma AllAccepted(isSpace: char -> bool, es: seq<Expectation>)
    requires es != [] && EachOk(isSpace, es) && DistinctKeys(ArtifactOf(), es) && DistinctKeys(RunOf(), es)
    requires Sharing(es)
    ensures ExpectationsOk(isSpace, es)
  {
  }

  lemma IndexOne(isSpace: char -> bool, es: seq<Expectation>, expected: map<string, Expectation>, e: Expectation)
    requires EachOk(isSpace, es) && DistinctKeys(ArtifactOf(), es) && Indexes(expected, es)
    ensures EachOk(isSpace, es + [e]) <==> ExpectationProblem(isSpace, e).None?
    ensures DistinctKeys(ArtifactOf(), es + [e]) <==> e.body.artifactId !in expected
    ensures e.body.artifactId !in expected ==> Indexes(expected[e.body.artifactId := e], es + [e])
  {
    hide ExpectationProblem;
    var all := es + [e];
    assert all[|es|] == e;
    assert forall x :: x in all <==> x in es || x == e;
    ImageSnoc(ArtifactOf(), es, e);
    DistinctSnoc(ArtifactOf(), es, e);
  }

  lemma DistinctSnoc<T, K>(key: T -> K, s: seq<T>, x: T)
    requires DistinctKeys(key, s)
    ensures DistinctKeys(key, s + [x]) <==> key(x) !in Image(key, s)
  {
    ImageSize(key, s);
    ImageSnoc(key, s, x);
    ImageSize(key, s + [x]);
  }

  lemma RefusedAt(isSpace: char -> bool, es: seq<Expectation>, i: nat, expected: map<string, Expectation>,
                  problem: Problem)
    requires i < |es| && EachOk(isSpace, es[..i]) && DistinctKeys(ArtifactOf(), es[..i]) && Indexes(expected, es[..i])
    requires if ExpectationProblem(isSpace, es[i]).Some? then ExpectationProblem(isSpace, es[i]) == Some(problem)
             else es[i].body.artifactId in expected && problem == DuplicateArtifact
    ensures !ExpectationsOk(isSpace, es) && Justified(isSpace, es, problem)
  {
    hide ExpectationProblem, DistinctKeys;
    assert es[..i + 1] == es[..i] + [es[i]];
    IndexOne(isSpace, es[..i], expected, es[i]);
    if DistinctKeys(ArtifactOf(), es) { PrefixIsDistinct(es, i + 1); }
    assert es[i] in es;
    assert FailsAt(isSpace, es, i, problem);
  }

  lemma PrefixIsDistinct(es: seq<Expectation>, n: nat)
    requires n <= |es| && DistinctKeys(ArtifactOf(), es)
    ensures DistinctKeys(ArtifactOf(), es[..n])
  {
  }

  /** The cardinalities the code compares say what they are meant to say. */
  lemma ValuesAre(expected: map<string, Expectation>, es: seq<Expectation>)
    requires es != [] && Indexes(expected, es) && DistinctKeys(ArtifactOf(), es)
    ensures |set e | e in expected.Values :: e.body.runId| == |expected| <==> DistinctKeys(RunOf(), es)
    ensures forall e :: e in expected.Values <==> e in es
  {
    ValuesAreMembers(expected, es);
    ImageOfValues(RunOf(), expected, es);
    assert (set e | e in expected.Values :: e.body.runId) == (set e | e in expected.Values :: RunOf()(e));
    ImageSize(RunOf(), es);
    ImageSize(ArtifactOf(), es);
    assert |expected| == |expected.Keys|;
  }

  lemma ValuesAreMembers(expected: map<string, Expectation>, es: seq<Expectation>)
    requires Indexes(expected, es)
    ensures forall e :: e in expected.Values <==> e in es
  {
  }

  lemma ImageOfValues<K>(key: Expectation -> K, expected: map<string, Expectation>, es: seq<Expectation>)
    requires forall e :: e in expected.Values <==> e in es
    ensures (set e | e in expected.Values :: key(e)) == Image(key, es)
  {
    forall e | e in expected.Values ensures key(e) in Image(key, es) {
      var i :| 0 <= i < |es| && es[i] == e;
    }
  }

  lemma OneImage<K>(key: Expectation -> K, es: seq<Expectation>)
    requires es != []
    ensures |Image(key, es)| == 1 <==> forall d, e :: d in es && e in es ==> key(d) == key(e)
  {
    assert key(es[0]) in Image(key, es);
    if |Image(key, es)| == 1 {
      forall d, e | d in es && e in es ensures key(d) == key(e) {
        var i :| 0 <= i < |es| && es[i] == d;
        var j :| 0 <= j < |es| && es[j] == e;
        assert key(es[i]) in Image(key, es) && key(es[j]) in Image(key, es);
        Singleton(Image(key, es), key(es[i]), key(es[j]));
      }
    }
    if forall d, e :: d in es && e in es ==> key(d) == key(e) {
      assert Image(key, es) == {key(es[0])};
    }
  }

  lemma Singleton<K>(s: set<K>, x: K, y: K)
    requires |s| == 1 && x in s && y in s
    ensures x == y
  {
    assert |s - {x}| == 0;
    assert y !in s - {x};
  }

  // ---------- records ----------

  function BodyOf(): Record -> Body { (r: Record) => r.body }

  function DesignatedBody(): Expectation -> Body { (e: Expectation) => e.body }

  function KeyOf(): Body -> Key { (b: Body) => (b.artifactId, b.runId) }

  function ArtifactId(): Body -> string { (b: Body) => b.artifactId }

  predicate RecordOk(isSpace: char -> bool, r: Record) {
    r.complete && r.schema == RECORD_SCHEMA && BodyOk(isSpace, r.body)
  }

  function Bodies(records: seq<Record>): seq<Body> { Map(BodyOf(), records) }

  function Designated(es: seq<Expectation>): seq<Body> { Map(DesignatedBody(), es) }

  /**
   The records and the designation are one-to-one: up to order, the records are the
   designated receipts, each exactly once, for this profile.
   */
  ghost predicate Bound(isSpace: char -> bool, records: seq<Record>, profile: string, es: seq<Expectation>) {
    && CanonicalText(isSpace, profile) && ExpectationsOk(isSpace, es)
    && (forall e :: e in es ==> e.profile == profile)
    && (forall r :: r in records ==> RecordOk(isSpace, r))
    && multiset(Bodies(records)) == multiset(Designated(es))
  }

  /** The receipts in canonical order. */
  function Canonical(bodies: seq<Body>): seq<Body> { Sort(KeyOf(), bodies) }

  predicate Designates(expected: map<string, Expectation>, profile: string, b: Body) {
    b.artifactId in expected && expected[b.artifactId].profile == profile && expected[b.artifactId].body == b
  }

  /** What the code checks once records and expectations are well formed. */
  ghost predicate Matches(bodies: seq<Body>, profile: string, expected: map<string, Expectation>) {
    && bodies != [] && DistinctKeys(KeyOf(), bodies) && Image(ArtifactId(), bodies) == expected.Keys
    && forall b :: b in bodies ==> Designates(expected, profile, b)
  }

  lemma DesignatedMembers(es: seq<Expectation>, b: Body)
    ensures b in Designated(es) <==> exists e :: e in es && e.body == b
  {
    var ds := Designated(es);
    if b in ds {
      var i :| 0 <= i < |ds| && ds[i] == b;
      assert es[i] in es;
    }
    if e :| e in es && e.body == b {
      var i :| 0 <= i < |es| && es[i] == e;
      assert ds[i] == b;
    }
  }

  lemma DesignatedIsDistinct(es: seq<Expectation>)
    requires DistinctKeys(ArtifactOf(), es)
    ensures DistinctKeys(ArtifactId(), Designated(es)) && DistinctKeys(KeyOf(), Designated(es))
  {
    var ds := Designated(es);
    forall i, j | 0 <= i < j < |ds| ensures ds[i].artifactId != ds[j].artifactId {
      assert ArtifactOf()(es[i]) != ArtifactOf()(es[j]);
    }
  }

  /** Same artifacts, distinct keys and equal provenance make a bijection. */
  lemma MatchesIsOneToOne(bodies: seq<Body>, profile: string, expected: map<string, Expectation>, es: seq<Expectation>)
    requires Indexes(expected, es) && DistinctKeys(ArtifactOf(), es) && Matches(bodies, profile, expected)
    ensures multiset(bodies) == multiset(Designated(es))
  {
    hide Designated;
    forall b ensures b in bodies <==> b in Designated(es) {
      DesignatedMembers(es, b);
      if b in bodies { assert expected[b.artifactId] in es; }
      if e :| e in es && e.body == b { ArtifactFound(bodies, profile, expected, e); }
    }
    DesignatedIsDistinct(es);
    SameMembersPermute(KeyOf(), bodies, Designated(es));
  }

  lemma ArtifactFound(bodies: seq<Body>, profile: string, expected: map<string, Expectation>, e: Expectation)
    requires Matches(bodies, profile, expected)
    requires e.body.artifactId in expected && expected[e.body.artifactId] == e
    ensures e.body in bodies
  {
    var i :| 0 <= i < |bodies| && ArtifactId()(bodies[i]) == e.body.artifactId;
    assert bodies[i] in bodies;
  }

  lemma OneToOneMatches(bodies: seq<Body>, profile: string, expected: map<string, Expectation>, es: seq<Expectation>)
    requires es != [] && Indexes(expected, es) && DistinctKeys(ArtifactOf(), es)
    requires (forall e :: e in es ==> e.profile == profile)
    requires multiset(bodies) == multiset(Designated(es))
    ensures Matches(bodies, profile, expected)
  {
    hide Designated, DistinctKeys, Image;
    DesignatedIsDistinct(es);
    PermutedIsDistinct(KeyOf(), Designated(es), bodies);
    SameImage(ArtifactId(), bodies, Designated(es));
    ArtifactsOfDesignated(es);
    forall b | b in bodies ensures Designates(expected, profile, b) {
      assert b in multiset(Designated(es));
      DesignatedMembers(es, b);
    }
    DesignatedMembers(es, es[0].body);
    assert es[0].body in multiset(bodies);
  }

  lemma ArtifactsOfDesignated(es: seq<Expectation>)
    ensures Image(ArtifactId(), Designated(es)) == Image(ArtifactOf(), es)
  {
    var ds := Designated(es);
    forall i | 0 <= i < |es| ensures ArtifactId()(ds[i]) == ArtifactOf()(es[i]) {
    }
    forall i | 0 <= i < |es| ensures ArtifactOf()(es[i]) in Image(ArtifactId(), ds) {
      assert ArtifactId()(ds[i]) in Image(ArtifactId(), ds);
    }
  }

  lemma SharedProfile(es: seq<Expectation>, profile: string, e: Expectation)
    requires Sharing(es) && e in es && e.profile == profile
    ensures forall x :: x in es ==> x.profile == profile
  {
    forall x | x in es ensures x.profile == profile {
      assert Agree(SHARED[0], es) && SharedText(SHARED[0])(x) == SharedText(SHARED[0])(e);
    }
  }

  ghost predicate RecordsOk(isSpace: char -> bool, records: seq<Record>) {
    forall r :: r in records ==> RecordOk(isSpace, r)
  }

  /** The checks amount to the bijection. */
  lemma ChecksAreTheBijection(isSpace: char -> bool, records: seq<Record>, profile: string, es: seq<Expectation>,
                              expected: map<string, Expectation>)
    requires CanonicalText(isSpace, profile) && ExpectationsOk(isSpace, es) && RecordsOk(isSpace, records)
    requires Indexes(expected, es)
    ensures Matches(Bodies(records), profile, expected) <==> Bound(isSpace, records, profile, es)
    ensures Bound(isSpace, records, profile, es) ==> Canonical(Bodies(records)) == Canonical(Designated(es))
  {
    hide Bodies, Designated, Matches, EachOk, RecordOk, DistinctKeys, Sharing, Indexes;
    if Matches(Bodies(records), profile, expected) {
      MatchesIsOneToOne(Bodies(records), profile, expected, es);
      var e := SomeExpectation(Bodies(records), profile, expected, es);
      SharedProfile(es, profile, e);
    }
    if Bound(isSpace, records, profile, es) {
      OneToOneMatches(Bodies(records), profile, expected, es);
      DesignatedIsDistinct(es);
      PermutedIsDistinct(KeyOf(), Designated(es), Bodies(records));
      SortIgnoresOrder(KeyOf(), Bodies(records), Designated(es));
    }
  }

  lemma SomeExpectation(bodies: seq<Body>, profile: string, expected: map<string, Expectation>, es: seq<Expectation>)
    returns (e: Expectation)
    requires Matches(bodies, profile, expected) && Indexes(expected, es)
    ensures e in es && e.profile == profile
  {
    assert bodies[0] in bodies;
    e := expected[bodies[0].artifactId];
  }

  lemma NotBound(isSpace: char -> bool, records: seq<Record>, profile: string, es: seq<Expectation>)
    requires !CanonicalText(isSpace, profile) || !ExpectationsOk(isSpace, es) || !RecordsOk(isSpace, records)
    ensures !Bound(isSpace, records, profile, es)
  {
  }

  method NormalizeRecords(isSpace: char -> bool, records: seq<Record>) returns (r: Result<seq<Body>, Problem>)
    ensures r == if RecordsOk(isSpace, records) then Success(Bodies(records)) else Failure(BadRecord)
  {
    hide RecordOk;
    var i := 0;
    while i < |records|
      invariant 0 <= i <= |records| && forall j :: 0 <= j < i ==> RecordOk(isSpace, records[j])
    {
      if !RecordOk(isSpace, records[i]) { assert records[i] in records; return Failure(BadRecord); }
      i := i + 1;
    }
    r := Success(Bodies(records));
  }

  method CheckMatches(bodies: seq<Body>, profile: string, expected: map<string, Expectation>)
    returns (problem: Option<Problem>)
    ensures problem.None? <==> Matches(bodies, profile, expected)
  {
    ImageSize(KeyOf(), bodies);
    hide DistinctKeys;
    assert Image(KeyOf(), bodies) == (set i | 0 <= i < |bodies| :: KeyOf()(bodies[i]));
    if bodies == [] { return Some(NoRecords); }
    if |Image(KeyOf(), bodies)| != |bodies| { return Some(DuplicateRecord); }
    if Image(ArtifactId(), bodies) != expected.Keys { return Some(ArtifactsDiffer); }
    var i := 0;
    while i < |bodies|
      invariant 0 <= i <= |bodies|
      invariant forall j :: 0 <= j < i ==>
                  Designates(expected, profile, bodies[j])
    {
      var b := bodies[i];
      assert b in bodies && ArtifactId()(b) in Image(ArtifactId(), bodies);
      if expected[b.artifactId].profile != profile { return Some(ProfileDiffers); }
      if expected[b.artifactId].body != b { return Some(ProvenanceDiffers); }
      i := i + 1;
    }
    problem := None;
  }

  /**
   The canonical receipts: accepted exactly when records and designation are one-to-one,
   and then the same whatever the order of the records or of the expectations.
   */
  method CanonicalSourceReceipts(isSpace: char -> bool, records: seq<Record>, profile: string, es: seq<Expectation>)
    returns (r: Result<seq<Body>, Problem>)
    ensures r.Success? <==> Bound(isSpace, records, profile, es)
    ensures r.Success? ==> r.value == Canonical(Designated(es)) == Canonical(Bodies(records))
  {
    hide *;
    if !CanonicalText(isSpace, profile) { NotBound(isSpace, records, profile, es); return Failure(BadProfile); }
    var normalized := NormalizeExpectations(isSpace, es);
    if normalized.Failure? { NotBound(isSpace, records, profile, es); return Failure(normalized.error); }
    var bodies := NormalizeRecords(isSpace, records);
    if bodies.Failure? { NotBound(isSpace, records, profile, es); return Failure(bodies.error); }
    ChecksAreTheBijection(isSpace, records, profile, es, normalized.value);
    var problem := CheckMatches(bodies.value, profile, normalized.value);
    if problem.Some? { return Failure(problem.value); }
    r := Success(Canonical(bodies.value));
  }

  // ---------- candidates ----------

  const V1 := "v1"
  const V2 := "v2"

  /** A reconciliation candidate; `rest` stands for the fields that binding leaves alone. */
  datatype Candidate = Candidate(
    schema: string, profile: string, evidence: seq<string>, receipts: Option<string>, seal: string, rest: string)

  /**
   The candidate library and the hash: which payloads it admits, the seal it computes, and
   the digest of the canonical text of receipts.
   */
  datatype Library = Library(admits: Candidate -> bool, sealOf: Candidate -> string, digest: seq<Body> -> string)

  function Evidence(records: seq<Record>): seq<string> { Map((r: Record) => r.body.evidenceSha256, records) }

  ghost predicate MembersMatch(c: Candidate, records: seq<Record>) {
    multiset(Evidence(records)) == multiset(c.evidence)
  }

  function Unsealed(c: Candidate, receipts: string): Candidate {
    c.(schema := V2, receipts := Some(receipts), seal := seq(64, _ => '0'))
  }

  function Upgraded(library: Library, c: Candidate, receipts: string): Candidate {
    Unsealed(c, receipts).(seal := library.sealOf(Unsealed(c, receipts)))
  }

  ghost predicate Builds(isSpace: char -> bool, library: Library, c: Candidate, records: seq<Record>,
                         es: seq<Expectation>, built: Candidate)
  {
    && c.schema == V1 && Bound(isSpace, records, c.profile, es) && MembersMatch(c, records)
    && built == Upgraded(library, c, library.digest(Canonical(Designated(es)))) && library.admits(built)
  }

  ghost predicate Validates(isSpace: char -> bool, library: Library, c: Candidate, records: seq<Record>,
                            es: seq<Expectation>)
  {
    && library.admits(c) && c.schema == V2 && Bound(isSpace, records, c.profile, es) && MembersMatch(c, records)
    && c.receipts == Some(library.digest(Canonical(Designated(es))))
  }

  method BuildReconciliationCandidateV2(isSpace: char -> bool, library: Library, c: Candidate, records: seq<Record>,
                                        es: seq<Expectation>)
    returns (r: Result<Candidate, Problem>)
    ensures r.Success? ==> Builds(isSpace, library, c, records, es, r.value)
    ensures r.Failure? ==> forall built :: !Builds(isSpace, library, c, records, es, built)
  {
    hide Bound, Canonical, Designated, Bodies, Evidence;
    if c.schema != V1 { return Failure(WrongSchema); }
    var receipts := CanonicalSourceReceipts(isSpace, records, c.profile, es);
    if receipts.Failure? { return Failure(receipts.error); }
    if multiset(Evidence(records)) != multiset(c.evidence) { return Failure(MembersDiffer); }
    var digest := library.digest(receipts.value);
    var payload := c.(schema := V2, receipts := Some(digest), seal := seq(64, _ => '0'));
    payload := payload.(seal := library.sealOf(payload));
    if !library.admits(payload) { return Failure(NotAdmitted); }
    r := Success(payload);
  }

  method ValidateReconciliationCandidateSources(isSpace: char -> bool, library: Library, c: Candidate,
                                                records: seq<Record>, es: seq<Expectation>)
    returns (r: Result<Candidate, Problem>)
    ensures r.Success? <==> Validates(isSpace, library, c, records, es)
    ensures r.Success? ==> r.value == c
  {
    hide Bound, Canonical, Designated, Bodies, Evidence;
    if !library.admits(c) { return Failure(NotAdmitted); }
    if c.schema != V2 { return Failure(WrongSchema); }
    var receipts := CanonicalSourceReceipts(isSpace, records, c.profile, es);
    if receipts.Failure? { return Failure(receipts.error); }
    if multiset(Evidence(records)) != multiset(c.evidence) { return Failure(MembersDiffer); }
    if c.receipts != Some(library.digest(receipts.value)) { return Failure(BindingMismatch); }
    r := Success(c);
  }

  // ---------- order independence and binding ----------

  lemma ReorderedExpectationsOk(isSpace: char -> bool, es: seq<Expectation>, fs: seq<Expectation>)
    requires multiset(es) == multiset(fs) && ExpectationsOk(isSpace, es)
    ensures ExpectationsOk(isSpace, fs)
    ensures multiset(Designated(es)) == multiset(Designated(fs))
    ensures Canonical(Designated(es)) == Canonical(Designated(fs))
  {
    hide ExpectationProblem, DistinctKeys, Map, SharedText;
    PermutedIsDistinct(ArtifactOf(), es, fs);
    PermutedIsDistinct(RunOf(), es, fs);
    NothingPermuted(es, fs);
    assert forall e :: e in fs ==> e in multiset(es);
    MapPermuted(DesignatedBody(), es, fs);
    DesignatedIsDistinct(es);
    DesignatedIsDistinct(fs);
    hide Sort;
    SortIgnoresOrder(KeyOf(), Designated(es), Designated(fs));
  }

  /** Acceptance and canonical order depend only on which records and expectations there are. */
  lemma BindingIgnoresOrder(isSpace: char -> bool, records: seq<Record>, others: seq<Record>, profile: string,
                            es: seq<Expectation>, fs: seq<Expectation>)
    requires multiset(records) == multiset(others) && multiset(es) == multiset(fs)
    requires Bound(isSpace, records, profile, es)
    ensures Bound(isSpace, others, profile, fs)
    ensures Canonical(Designated(es)) == Canonical(Designated(fs))
  {
    hide ExpectationsOk, RecordOk, Map, Sort, CanonicalText;
    ReorderedExpectationsOk(isSpace, es, fs);
    MapPermuted(BodyOf(), records, others);
    assert forall e :: e in fs ==> e in multiset(es);
    assert forall r :: r in others ==> r in multiset(records);
  }

  /** A candidate built as v2 validates against any reordering of its records and of the expectations. */
  lemma BuiltCandidateValidates(isSpace: char -> bool, library: Library, c: Candidate, records: seq<Record>,
                                others: seq<Record>,
                                es: seq<Expectation>, fs: seq<Expectation>, built: Candidate)
    requires Builds(isSpace, library, c, records, es, built)
    requires multiset(records) == multiset(others) && multiset(es) == multiset(fs)
    ensures Validates(isSpace, library, built, others, fs)
  {
    hide Bound, Canonical, Designated, Map;
    BindingIgnoresOrder(isSpace, records, others, c.profile, es, fs);
    MapPermuted((r: Record) => r.body.evidenceSha256, records, others);
  }

  /** With a digest that tells texts apart, only the receipts it was built from validate a candidate. */
  lemma OnlyItsOwnReceiptsValidate(isSpace: char -> bool, library: Library, c: Candidate, records: seq<Record>,
                                   others: seq<Record>,
                                   es: seq<Expectation>, fs: seq<Expectation>, built: Candidate)
    requires Builds(isSpace, library, c, records, es, built) && Validates(isSpace, library, built, others, fs)
    requires forall a, b :: library.digest(a) == library.digest(b) ==> a == b
    ensures multiset(Bodies(records)) == multiset(Bodies(others))
    ensures multiset(Designated(es)) == multiset(Designated(fs))
  {
    hide Bodies, Designated, Sort, ExpectationsOk, RecordOk;
    SortPermutes(KeyOf(), Designated(es));
    SortPermutes(KeyOf(), Designated(fs));
  }
}
