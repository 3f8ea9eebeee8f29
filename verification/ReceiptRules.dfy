/**
 Exactly which expectations, records and profiles are accepted
 (application/broker_reconciliation_candidate.py), told by the shape of their texts.
 */
module ReceiptRules {
  import opened Wrappers
  import opened Ordering
  import opened SourceReceipts

  // ---------- the shape of texts ----------

  /** Not empty, with no white space at either end. */
  ghost predicate Trimmed(isSpace: char -> bool, s: string) {
    && s != ""
    && (forall c: char, rest: string :: s == [c] + rest ==> !isSpace(c))
    && (forall front: string, c: char :: s == front + [c] ==> !isSpace(c))
  }

  lemma TrimmedExactly(isSpace: char -> bool, s: string)
    ensures CanonicalText(isSpace, s) <==> Trimmed(isSpace, s)
  {
    if s != "" {
      assert s == [s[0]] + s[1..];
      assert s == s[..|s| - 1] + [s[|s| - 1]];
    }
  }

  /** Exactly n lower-case hexadecimal digits. */
  ghost predicate Hex(isSpace: char -> bool, s: string, n: nat) {
    Trimmed(isSpace, s) && |s| == n && forall c :: c in s ==> '0' <= c <= '9' || 'a' <= c <= 'f'
  }

  lemma HexExactly(isSpace: char -> bool, s: string, n: nat)
    ensures HexText(isSpace, s, n) <==> Hex(isSpace, s, n)
  {
    TrimmedExactly(isSpace, s);
    hide Trimmed, CanonicalText;
    assert forall i :: 0 <= i < |s| ==> s[i] in s;
    forall c: char ensures c in "0123456789abcdef" <==> '0' <= c <= '9' || 'a' <= c <= 'f' {
      HexDigits(c);
    }
  }

  lemma HexDigits(c: char)
    ensures c in "0123456789abcdef" <==> '0' <= c <= '9' || 'a' <= c <= 'f'
  {
  }

  /** An owner and a name, joined by the only slash. */
  ghost predicate OwnerAndName(s: string, owner: string, name: string) {
    s == owner + "/" + name && owner != "" && name != "" && '/' !in owner && '/' !in name
  }

  ghost predicate Repository(isSpace: char -> bool, s: string) {
    Trimmed(isSpace, s) && exists owner, name :: OwnerAndName(s, owner, name)
  }

  lemma RepositoryExactly(isSpace: char -> bool, s: string)
    ensures RepositoryOk(isSpace, s) <==> Repository(isSpace, s)
  {
    TrimmedExactly(isSpace, s);
    hide Trimmed, CanonicalText;
    if i :| 0 < i < |s| - 1 && s[i] == '/' && '/' !in s[..i] && '/' !in s[i + 1..] {
      assert s == s[..i] + "/" + s[i + 1..];
      assert OwnerAndName(s, s[..i], s[i + 1..]);
    }
    if owner, name :| OwnerAndName(s, owner, name) {
      var i := |owner|;
      assert s[..i] == owner && s[i] == '/' && s[i + 1..] == name;
    }
  }

  /** A YAML file under the workflow directory, with no two dots in a row. */
  ghost predicate WorkflowPath(isSpace: char -> bool, s: string) {
    && Trimmed(isSpace, s) && (exists rest :: s == ".github/workflows/" + rest)
    && (exists stem :: s == stem + ".yml" || s == stem + ".yaml")
    && forall before: string, after: string :: s != before + ".." + after
  }

  lemma PrefixExactly(s: string, prefix: string)
    ensures StartsWith(s, prefix) <==> exists rest :: s == prefix + rest
  {
    if StartsWith(s, prefix) { assert s == prefix + s[|prefix|..]; }
  }

  lemma SuffixExactly(s: string, suffix: string)
    ensures EndsWith(s, suffix) <==> exists stem :: s == stem + suffix
  {
    if EndsWith(s, suffix) { assert s == s[..|s| - |suffix|] + suffix; }
    if stem :| s == stem + suffix { assert s[|stem|..] == suffix; }
  }

  lemma DotsExactly(s: string)
    ensures (forall i :: 0 <= i < |s| - 1 ==> !(s[i] == '.' && s[i + 1] == '.')) <==>
              forall before: string, after: string :: s != before + ".." + after
  {
    if i :| 0 <= i < |s| - 1 && s[i] == '.' && s[i + 1] == '.' {
      assert s == s[..i] + ".." + s[i + 2..];
    }
    if before: string, after: string :| s == before + ".." + after {
      assert s[|before|] == '.' && s[|before| + 1] == '.';
    }
  }

  lemma WorkflowPathExactly(isSpace: char -> bool, s: string)
    ensures WorkflowPathOk(isSpace, s) <==> WorkflowPath(isSpace, s)
  {
    TrimmedExactly(isSpace, s);
    PrefixExactly(s, ".github/workflows/");
    SuffixExactly(s, ".yml");
    SuffixExactly(s, ".yaml");
    DotsExactly(s);
    hide Trimmed, CanonicalText, StartsWith, EndsWith;
  }

  // ---------- bodies, expectations and records ----------

  ghost predicate GoodBody(isSpace: char -> bool, b: Body) {
    && Repository(isSpace, b.repository) && WorkflowPath(isSpace, b.workflowPath)
    && Hex(isSpace, b.headSha, 40) && Hex(isSpace, b.revisionCommit, 40)
    && Hex(isSpace, b.artifactSha256, 64) && Hex(isSpace, b.evidenceSha256, 64) && Hex(isSpace, b.schedulerSha256, 64)
    && forall s :: s in PlainTexts(b) ==> Trimmed(isSpace, s)
  }

  /** The texts with no shape of their own. */
  function PlainTexts(b: Body): seq<string> {
    [b.runId, b.runAttempt, b.artifactId, b.artifactName, b.serviceName, b.serviceRevision, b.deployRunId]
  }

  lemma PlainTextsExactly(isSpace: char -> bool, b: Body)
    ensures (forall s :: s in PlainTexts(b) ==> Trimmed(isSpace, s)) <==>
              && CanonicalText(isSpace, b.runId) && CanonicalText(isSpace, b.runAttempt)
              && CanonicalText(isSpace, b.artifactId) && CanonicalText(isSpace, b.artifactName)
              && CanonicalText(isSpace, b.serviceName) && CanonicalText(isSpace, b.serviceRevision)
              && CanonicalText(isSpace, b.deployRunId)
  {
    forall s ensures CanonicalText(isSpace, s) <==> Trimmed(isSpace, s) { TrimmedExactly(isSpace, s); }
    hide Trimmed, CanonicalText;
  }

  lemma BodyExactly(isSpace: char -> bool, b: Body)
    ensures BadField(isSpace, b).None? <==> GoodBody(isSpace, b)
    ensures BodyOk(isSpace, b) <==> GoodBody(isSpace, b)
  {
    NoBadFieldExactly(isSpace, b);
    PlainTextsExactly(isSpace, b);
    RepositoryExactly(isSpace, b.repository);
    WorkflowPathExactly(isSpace, b.workflowPath);
    HexExactly(isSpace, b.headSha, 40);
    HexExactly(isSpace, b.revisionCommit, 40);
    HexExactly(isSpace, b.artifactSha256, 64);
    HexExactly(isSpace, b.evidenceSha256, 64);
    HexExactly(isSpace, b.schedulerSha256, 64);
    hide Repository, WorkflowPath, Hex, Trimmed, RepositoryOk, WorkflowPathOk, HexText, CanonicalText, BadField;
  }

  ghost predicate GoodExpectation(isSpace: char -> bool, e: Expectation) {
    && e.workflowRef == "refs/heads/main" && e.conclusion == "success" && Trimmed(isSpace, e.profile)
    && GoodBody(isSpace, e.body)
    && e.body.artifactName == "ibkr-reconciliation-" + e.profile + "-" + e.body.runId
  }

  lemma ExpectationExactly(isSpace: char -> bool, e: Expectation)
    ensures var problem := ExpectationProblem(isSpace, e);
            var main, done := e.workflowRef == "refs/heads/main", e.conclusion == "success";
            var shaped := Trimmed(isSpace, e.profile) && GoodBody(isSpace, e.body);
            var named := e.body.artifactName == "ibkr-reconciliation-" + e.profile + "-" + e.body.runId;
            && (problem.None? <==> GoodExpectation(isSpace, e))
            && (problem == Some(WrongRef) <==> !main) && (problem == Some(WrongConclusion) <==> main && !done)
            && (problem == Some(WrongArtifactName) <==> main && done && shaped && !named)
            && (main && done && !shaped <==> problem.Some? && problem.value.BadExpectation?)
  {
    BodyExactly(isSpace, e.body);
    TrimmedExactly(isSpace, e.profile);
    hide BadField, GoodBody, BodyOk, Trimmed, CanonicalText;
  }

  /** What designated receipts share. */
  ghost predicate SameOrigin(d: Expectation, e: Expectation) {
    && d.profile == e.profile && d.body.repository == e.body.repository && d.body.workflowPath == e.body.workflowPath
    && d.body.headSha == e.body.headSha && d.body.serviceName == e.body.serviceName
    && d.body.serviceRevision == e.body.serviceRevision && d.body.revisionCommit == e.body.revisionCommit
  }

  lemma SharedTexts(d: Expectation, e: Expectation)
    ensures SameOrigin(d, e) <==> forall i :: 0 <= i < |SHARED| ==> SharedText(SHARED[i])(d) == SharedText(SHARED[i])(e)
  {
    assert SharedText(SHARED[0])(d) == d.profile && SharedText(SHARED[1])(d) == d.body.repository;
    assert SharedText(SHARED[2])(d) == d.body.workflowPath && SharedText(SHARED[3])(d) == d.body.headSha;
    assert SharedText(SHARED[4])(d) == d.body.serviceName && SharedText(SHARED[5])(d) == d.body.serviceRevision;
    assert SharedText(SHARED[6])(d) == d.body.revisionCommit;
    assert SharedText(SHARED[0])(e) == e.profile && SharedText(SHARED[1])(e) == e.body.repository;
    assert SharedText(SHARED[2])(e) == e.body.workflowPath && SharedText(SHARED[3])(e) == e.body.headSha;
    assert SharedText(SHARED[4])(e) == e.body.serviceName && SharedText(SHARED[5])(e) == e.body.serviceRevision;
    assert SharedText(SHARED[6])(e) == e.body.revisionCommit;
  }

  lemma SharingExactly(es: seq<Expectation>)
    ensures Sharing(es) <==> forall d, e :: d in es && e in es ==> SameOrigin(d, e)
  {
    forall d, e
      ensures SameOrigin(d, e) <==>
                forall i :: 0 <= i < |SHARED| ==> SharedText(SHARED[i])(d) == SharedText(SHARED[i])(e)
    {
      SharedTexts(d, e);
    }
    hide SameOrigin, SharedText;
  }

  /** Exactly which designations are accepted. */
  lemma DesignationIsExact(isSpace: char -> bool, es: seq<Expectation>)
    ensures ExpectationsOk(isSpace, es) <==>
              && es != [] && (forall e :: e in es ==> GoodExpectation(isSpace, e))
              && (forall i, j :: 0 <= i < j < |es| ==> es[i].body.artifactId != es[j].body.artifactId)
              && (forall i, j :: 0 <= i < j < |es| ==> es[i].body.runId != es[j].body.runId)
              && forall d, e :: d in es && e in es ==> SameOrigin(d, e)
  {
    SharingExactly(es);
    forall e ensures ExpectationProblem(isSpace, e).None? <==> GoodExpectation(isSpace, e) {
      ExpectationExactly(isSpace, e);
    }
    DistinctArtifacts(es);
    DistinctRuns(es);
    hide GoodExpectation, ExpectationProblem, DistinctKeys, Sharing, SameOrigin;
  }

  lemma DistinctArtifacts(es: seq<Expectation>)
    ensures DistinctKeys(ArtifactOf(), es) <==>
            forall i, j :: 0 <= i < j < |es| ==> es[i].body.artifactId != es[j].body.artifactId
  {
    assert forall i :: 0 <= i < |es| ==> ArtifactOf()(es[i]) == es[i].body.artifactId;
  }

  lemma DistinctRuns(es: seq<Expectation>)
    ensures DistinctKeys(RunOf(), es) <==>
            forall i, j :: 0 <= i < j < |es| ==> es[i].body.runId != es[j].body.runId
  {
    assert forall i :: 0 <= i < |es| ==> RunOf()(es[i]) == es[i].body.runId;
  }

  /** Which records are well formed. */
  lemma RecordExactly(isSpace: char -> bool, r: Record)
    ensures RecordOk(isSpace, r) <==>
              && r.complete && r.schema == "ibkr_reconciliation_source_receipt_record.v1"
              && GoodBody(isSpace, r.body)
  {
    BodyExactly(isSpace, r.body);
    hide GoodBody, BodyOk;
  }

  /** The canonical order: by artifact and then by run, as texts, with every receipt of the input once. */
  lemma CanonicalOrderIsExact(bodies: seq<Body>)
    requires DistinctKeys(KeyOf(), bodies)
    ensures var sorted := Canonical(bodies);
            && multiset(sorted) == multiset(bodies)
            && forall i, j :: 0 <= i < j < |sorted| ==>
                 TextLess(sorted[i].artifactId, sorted[j].artifactId)
                 || (sorted[i].artifactId == sorted[j].artifactId && TextLess(sorted[i].runId, sorted[j].runId))
  {
    SortPermutes(KeyOf(), bodies);
    SortSorts(KeyOf(), bodies);
    hide Sort, TextLess;
    var sorted := Canonical(bodies);
    forall i, j | 0 <= i < j < |sorted|
      ensures TextLess(sorted[i].artifactId, sorted[j].artifactId)
              || (sorted[i].artifactId == sorted[j].artifactId && TextLess(sorted[i].runId, sorted[j].runId))
    {
      assert Before(KeyOf()(sorted[i]), KeyOf()(sorted[j]));
    }
  }

  /** What the multisets compare: the bodies, in the order of their records and expectations. */
  lemma BodiesExactly(records: seq<Record>, es: seq<Expectation>)
    ensures |Bodies(records)| == |records| && |Designated(es)| == |es| && |Evidence(records)| == |records|
    ensures forall i :: 0 <= i < |records| ==> Bodies(records)[i] == records[i].body
    ensures forall i :: 0 <= i < |records| ==> Evidence(records)[i] == records[i].body.evidenceSha256
    ensures forall i :: 0 <= i < |es| ==> Designated(es)[i] == es[i].body
  {
  }

  /** An upgrade changes the schema, the receipts and the seal, which seals all else with itself blanked. */
  lemma UpgradeIsExact(library: Library, c: Candidate, receipts: string)
    ensures var u := Upgraded(library, c, receipts);
            && u.schema == "v2" && u.receipts == Some(receipts)
            && u.profile == c.profile && u.evidence == c.evidence && u.rest == c.rest
            && forall blank: string :: |blank| == 64 && (forall i :: 0 <= i < 64 ==> blank[i] == '0') ==>
                 u.seal == library.sealOf(u.(seal := blank))
  {
    var zeros: string := seq(64, _ => '0');
    forall blank: string | |blank| == 64 && (forall i :: 0 <= i < 64 ==> blank[i] == '0') ensures blank == zeros {
    }
    var u := Upgraded(library, c, receipts);
    assert forall blank: string :: u.(seal := blank) == Unsealed(c, receipts).(seal := blank);
  }
}
