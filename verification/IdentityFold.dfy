/**
 Folding rows by native identity: the loop shared by the execution and the
 external-flow projections.  A row is skipped, refuses the whole projection, or
 contributes a value under its identity; two different values under one identity
 refuse the projection, and so do too many identities.
 */
module IdentityFold {
  import opened Ordering

  datatype Reading<R> = Skip | Refuse(reason: string) | Keep(id: string, value: R)

  datatype Projection<R> = Unavailable(reason: string) | Available(entries: seq<(string, R)>)

  /** The identities contributed, in no order. */
  function Ids<R>(rs: seq<Reading<R>>): set<string> {
    set i | 0 <= i < |rs| && rs[i].Keep? :: rs[i].id
  }

  ghost predicate NoRefusal<R>(rs: seq<Reading<R>>) {
    forall r :: r in rs ==> !r.Refuse?
  }

  ghost predicate Consistent<R>(rs: seq<Reading<R>>) {
    forall r, q :: r in rs && q in rs && r.Keep? && q.Keep? && r.id == q.id ==> r.value == q.value
  }

  ghost predicate Acceptable<R>(rs: seq<Reading<R>>, limit: nat) {
    NoRefusal(rs) && Consistent(rs) && |Ids(rs)| <= limit
  }

  function IdsOf<R>(entries: seq<(string, R)>): set<string> {
    set i | 0 <= i < |entries| :: entries[i].0
  }

  /** Each identity with its first value, in order of first appearance. */
  function FirstOccurrences<R>(rs: seq<Reading<R>>): seq<(string, R)> {
    if rs == [] then []
    else
      var front := FirstOccurrences(rs[..|rs| - 1]);
      var r := rs[|rs| - 1];
      if r.Keep? && r.id !in IdsOf(front) then front + [(r.id, r.value)] else front
  }

  function IdOf<R>(): ((string, R)) -> string { (e: (string, R)) => e.0 }

  ghost predicate DistinctIds<R>(entries: seq<(string, R)>) { DistinctKeys(IdOf(), entries) }

  lemma IdsSnoc<R>(rs: seq<Reading<R>>, r: Reading<R>)
    ensures Ids(rs + [r]) == Ids(rs) + (if r.Keep? then {r.id} else {})
  {
    var all := rs + [r];
    forall id | id in Ids(rs) ensures id in Ids(all) {
      var i :| 0 <= i < |rs| && rs[i].Keep? && rs[i].id == id;
      assert all[i] == rs[i];
    }
    if r.Keep? { assert all[|rs|] == r; }
  }

  lemma IdsOfSnoc<R>(entries: seq<(string, R)>, e: (string, R))
    ensures IdsOf(entries + [e]) == IdsOf(entries) + {e.0}
  {
    var all := entries + [e];
    forall id | id in IdsOf(entries) ensures id in IdsOf(all) {
      var i :| 0 <= i < |entries| && entries[i].0 == id;
      assert all[i] == entries[i];
    }
    assert all[|entries|] == e;
  }

  /** What the first occurrences are: distinct identities, all of them, each with a value that was read. */
  lemma {:induction false} FirstOccurrencesSpec<R>(rs: seq<Reading<R>>)
    ensures DistinctIds(FirstOccurrences(rs)) && IdsOf(FirstOccurrences(rs)) == Ids(rs)
    ensures forall e :: e in FirstOccurrences(rs) ==> Keep(e.0, e.1) in rs
  {
    if rs != [] {
      var front, r := rs[..|rs| - 1], rs[|rs| - 1];
      FirstOccurrencesSpec(front);
      assert rs == front + [r];
      IdsSnoc(front, r);
      if r.Keep? { IdsOfSnoc(FirstOccurrences(front), (r.id, r.value)); }
    }
  }

  /** With consistent values, an entry is there exactly when it was read. */
  lemma EntriesAreReadings<R>(rs: seq<Reading<R>>, id: string, value: R)
    requires Consistent(rs)
    ensures (id, value) in FirstOccurrences(rs) <==> Keep(id, value) in rs
  {
    FirstOccurrencesSpec(rs);
    if Keep(id, value) in rs {
      var k :| 0 <= k < |rs| && rs[k] == Keep(id, value);
      assert id in Ids(rs);
      var entries := FirstOccurrences(rs);
      var i :| 0 <= i < |entries| && entries[i].0 == id;
      assert entries[i] in entries && Keep(entries[i].0, entries[i].1) in rs;
    }
  }

  /**
   Order and exact repeats of readings do not matter: the same readings, in any order
   and any number, are acceptable or not alike, and give the same entries.
   */
  lemma OrderAndRepeatsDoNotMatter<R>(rs: seq<Reading<R>>, qs: seq<Reading<R>>, limit: nat)
    requires forall r :: r in rs <==> r in qs
    ensures Acceptable(rs, limit) <==> Acceptable(qs, limit)
    ensures Consistent(rs) ==> multiset(FirstOccurrences(rs)) == multiset(FirstOccurrences(qs))
  {
    SameIds(rs, qs);
    SameIds(qs, rs);
    assert Ids(rs) == Ids(qs);
    if Consistent(rs) { SameEntries(rs, qs); }
  }

  lemma SameEntries<R>(rs: seq<Reading<R>>, qs: seq<Reading<R>>)
    requires forall r :: r in rs <==> r in qs
    requires Consistent(rs) && Consistent(qs)
    ensures multiset(FirstOccurrences(rs)) == multiset(FirstOccurrences(qs))
  {
    hide FirstOccurrences, Consistent, Ids, IdsOf;
    var a, b := FirstOccurrences(rs), FirstOccurrences(qs);
    FirstOccurrencesSpec(rs);
    FirstOccurrencesSpec(qs);
    forall e: (string, R) ensures multiset(a)[e] == multiset(b)[e] {
      EntriesAreReadings(rs, e.0, e.1);
      EntriesAreReadings(qs, e.0, e.1);
      DistinctCount(IdOf(), a, e);
      DistinctCount(IdOf(), b, e);
      assert e == (e.0, e.1);
    }
  }

  lemma SameIds<R>(rs: seq<Reading<R>>, qs: seq<Reading<R>>)
    requires forall r :: r in rs ==> r in qs
    ensures Ids(rs) <= Ids(qs)
  {
    forall id | id in Ids(rs) ensures id in Ids(qs) {
      var i :| 0 <= i < |rs| && rs[i].Keep? && rs[i].id == id;
      assert rs[i] in rs;
      var j :| 0 <= j < |qs| && qs[j] == rs[i];
    }
  }

  /** What a projection says about its readings. */
  ghost predicate Explains<R>(rs: seq<Reading<R>>, limit: nat, p: Projection<R>) {
    match p
    case Available(entries) => Acceptable(rs, limit) && entries == FirstOccurrences(rs)
    case Unavailable(reason) => !Acceptable(rs, limit)
  }

  lemma IdsOfPrefix<R>(rs: seq<Reading<R>>, n: nat, limit: nat)
    requires n <= |rs| && |Ids(rs[..n])| > limit
    ensures |Ids(rs)| > limit
  {
    SameIds(rs[..n], rs);
    SubsetSize(Ids(rs[..n]), Ids(rs));
  }

  /** The state of the fold after the readings `rs`. */
  ghost predicate Folded<R>(rs: seq<Reading<R>>, limit: nat, known: map<string, R>, entries: seq<(string, R)>) {
    && NoRefusal(rs) && Consistent(rs)
    && known.Keys == Ids(rs) && |known| <= limit
    && (forall id :: id in known ==> Keep(id, known[id]) in rs)
    && entries == FirstOccurrences(rs)
  }

  lemma KnownValues<R>(rs: seq<Reading<R>>, limit: nat, known: map<string, R>, entries: seq<(string, R)>, id: string,
                       value: R)
    requires Folded(rs, limit, known, entries) && Keep(id, value) in rs
    ensures id in known && known[id] == value
  {
    var i :| 0 <= i < |rs| && rs[i] == Keep(id, value);
    assert id in Ids(rs);
  }

  lemma StillConsistent<R>(rs: seq<Reading<R>>, limit: nat, known: map<string, R>, entries: seq<(string, R)>,
                           r: Reading<R>)
    requires Folded(rs, limit, known, entries)
    requires r.Skip? || (r.Keep? && (r.id !in known || known[r.id] == r.value))
    ensures NoRefusal(rs + [r]) && Consistent(rs + [r])
  {
    var all := rs + [r];
    assert forall q :: q in all <==> q in rs || q == r;
    forall q | q in rs && q.Keep? && r.Keep? && q.id == r.id ensures q.value == r.value {
      KnownValues(rs, limit, known, entries, q.id, q.value);
    }
  }

  function KnownAfter<R>(known: map<string, R>, r: Reading<R>): map<string, R> {
    if r.Keep? then known[r.id := r.value] else known
  }

  function EntriesAfter<R>(known: map<string, R>, entries: seq<(string, R)>, r: Reading<R>): seq<(string, R)> {
    if r.Keep? && r.id !in known then entries + [(r.id, r.value)] else entries
  }

  lemma TakeOne<R>(rs: seq<Reading<R>>, limit: nat, known: map<string, R>, entries: seq<(string, R)>, r: Reading<R>)
    requires Folded(rs, limit, known, entries)
    requires r.Skip? || (r.Keep? && (r.id !in known || known[r.id] == r.value))
    ensures KnownAfter(known, r).Keys == Ids(rs + [r])
    ensures |KnownAfter(known, r)| <= limit ==>
              Folded(rs + [r], limit, KnownAfter(known, r), EntriesAfter(known, entries, r))
  {
    hide NoRefusal, Consistent, FirstOccurrences, Ids;
    StillConsistent(rs, limit, known, entries, r);
    assert EntriesAfter(known, entries, r) == FirstOccurrences(rs + [r]) by { EntriesTake(rs, r); }
    assert KnownAfter(known, r).Keys == Ids(rs + [r]) by { IdsSnoc(rs, r); }
    KnownAreRead(rs, known, r);
  }

  lemma KnownAreRead<R>(rs: seq<Reading<R>>, known: map<string, R>, r: Reading<R>)
    requires forall id :: id in known ==> Keep(id, known[id]) in rs
    ensures forall id :: id in KnownAfter(known, r) ==> Keep(id, KnownAfter(known, r)[id]) in rs + [r]
  {
    var all := rs + [r];
    var known' := KnownAfter(known, r);
    forall id | id in known' ensures Keep(id, known'[id]) in all {
      if id in known && known'[id] == known[id] { InFront(rs, r, Keep(id, known[id])); } else { assert all[|rs|] == r; }
    }
  }

  lemma InFront<R>(rs: seq<Reading<R>>, r: Reading<R>, q: Reading<R>)
    requires q in rs
    ensures q in rs + [r]
  {
  }

  lemma EntriesTake<R>(rs: seq<Reading<R>>, r: Reading<R>)
    ensures var front := FirstOccurrences(rs);
            FirstOccurrences(rs + [r]) == if r.Keep? && r.id !in Ids(rs) then front + [(r.id, r.value)] else front
  {
    FirstOccurrencesSpec(rs);
    assert (rs + [r])[..|rs + [r]| - 1] == rs;
  }

  lemma PrefixOf<R>(rs: seq<Reading<R>>, i: nat)
    requires i < |rs|
    ensures rs[..i + 1] == rs[..i] + [rs[i]]
    ensures rs[i] in rs && forall q :: q in rs[..i] ==> q in rs
  {
  }

  /** Why the fold may stop early. */
  lemma StopsRightly<R>(rs: seq<Reading<R>>, i: nat, limit: nat, known: map<string, R>, entries: seq<(string, R)>)
    requires i < |rs| && Folded(rs[..i], limit, known, entries)
    ensures rs[i].Refuse? ==> !NoRefusal(rs)
    ensures rs[i].Keep? && rs[i].id in known && known[rs[i].id] != rs[i].value ==> !Consistent(rs)
    ensures |Ids(rs[..i + 1])| > limit ==> |Ids(rs)| > limit
  {
    PrefixOf(rs, i);
    if |Ids(rs[..i + 1])| > limit { IdsOfPrefix(rs, i + 1, limit); }
    if rs[i].Keep? && rs[i].id in known { assert Keep(rs[i].id, known[rs[i].id]) in rs; }
  }

  /** The reading at which a fold stops, and why: its prefix was still acceptable. */
  ghost predicate StopsAt<R>(rs: seq<Reading<R>>, i: nat, limit: nat, reason: string, conflict: string, tooMany: string)
  {
    && i < |rs| && Acceptable(rs[..i], limit) && !rs[i].Skip?
    && reason == (if rs[i].Refuse? then rs[i].reason
                  else if !Consistent(rs[..i + 1]) then conflict
                  else tooMany)
  }

  lemma StopIsExplained<R>(rs: seq<Reading<R>>, i: nat, limit: nat, known: map<string, R>, entries: seq<(string, R)>,
                           reason: string, conflict: string, tooMany: string)
    requires i < |rs| && Folded(rs[..i], limit, known, entries) && !rs[i].Skip?
    requires var r := rs[i];
             if r.Refuse? then reason == r.reason
             else if r.id in known && known[r.id] != r.value then reason == conflict
             else reason == tooMany && |Ids(rs[..i + 1])| > limit
    ensures StopsAt(rs, i, limit, reason, conflict, tooMany) && !Acceptable(rs, limit)
  {
    hide Folded, NoRefusal, FirstOccurrences;
    var r := rs[i];
    assert rs[..i + 1][..i] == rs[..i];
    StopsRightly(rs, i, limit, known, entries);
    FoldedIsAcceptable(rs[..i], limit, known, entries);
    if r.Keep? {
      if r.id in known && known[r.id] != r.value {
        StopsRightly(rs[..i + 1], i, limit, known, entries);
      } else {
        StillConsistent(rs[..i], limit, known, entries, r);
        PrefixOf(rs, i);
      }
    }
  }

  /** The fold itself: one pass, stopping at the first refusal, conflict, or identity over the limit. */
  method Fold<R(==)>(rs: seq<Reading<R>>, limit: nat, conflict: string, tooMany: string) returns (p: Projection<R>)
    ensures Explains(rs, limit, p)
    ensures p.Unavailable? ==> exists i :: StopsAt(rs, i, limit, p.reason, conflict, tooMany)
  {
    hide *;
    var known: map<string, R> := map[];
    var entries: seq<(string, R)> := [];
    NothingFolded<R>(limit);
    assert rs[..0] == [];
    var i := 0;
    while i < |rs|
      invariant 0 <= i <= |rs| && Folded(rs[..i], limit, known, entries)
    {
      var r := rs[i];
      if r.Refuse? {
        StopIsExplained(rs, i, limit, known, entries, r.reason, conflict, tooMany);
        p := Unavailable(r.reason);
        UnavailableIsExplained(rs, limit, p);
        return;
      }
      if r.Keep? && r.id in known && known[r.id] != r.value {
        StopIsExplained(rs, i, limit, known, entries, conflict, conflict, tooMany);
        p := Unavailable(conflict);
        UnavailableIsExplained(rs, limit, p);
        return;
      }
      assert rs[..i + 1] == rs[..i] + [r];
      TakeOne(rs[..i], limit, known, entries, r);
      Updates(known, entries, r);
      ghost var was, before := known, entries;
      if r.Keep? {
        if r.id !in known { entries := entries + [(r.id, r.value)]; }
        known := known[r.id := r.value];
        assert |known| == |known.Keys|;
        if |known| > limit {
          StopIsExplained(rs, i, limit, was, before, tooMany, conflict, tooMany);
          p := Unavailable(tooMany);
          UnavailableIsExplained(rs, limit, p);
          return;
        }
      } else {
        FoldedWithinLimit(rs[..i], limit, known, entries);
      }
      i := i + 1;
    }
    assert rs[..|rs|] == rs;
    FoldedIsAcceptable(rs, limit, known, entries);
    p := Available(entries);
    AvailableIsExplained(rs, limit, p);
  }

  lemma Updates<R>(known: map<string, R>, entries: seq<(string, R)>, r: Reading<R>)
    ensures KnownAfter(known, r) == if r.Keep? then known[r.id := r.value] else known
    ensures EntriesAfter(known, entries, r)
         == if r.Keep? && r.id !in known then entries + [(r.id, r.value)] else entries
  {
  }

  lemma UnavailableIsExplained<R>(rs: seq<Reading<R>>, limit: nat, p: Projection<R>)
    requires !Acceptable(rs, limit) && p.Unavailable?
    ensures Explains(rs, limit, p)
  {
  }

  lemma AvailableIsExplained<R>(rs: seq<Reading<R>>, limit: nat, p: Projection<R>)
    requires p.Available? && Acceptable(rs, limit) && p.entries == FirstOccurrences(rs)
    ensures Explains(rs, limit, p)
  {
  }

  lemma NothingFolded<R>(limit: nat)
    ensures Folded<R>([], limit, map[], [])
  {
  }

  lemma FoldedWithinLimit<R>(rs: seq<Reading<R>>, limit: nat, known: map<string, R>, entries: seq<(string, R)>)
    requires Folded(rs, limit, known, entries)
    ensures |known| <= limit
  {
  }

  lemma FoldedIsAcceptable<R>(rs: seq<Reading<R>>, limit: nat, known: map<string, R>, entries: seq<(string, R)>)
    requires Folded(rs, limit, known, entries)
    ensures Acceptable(rs, limit) && entries == FirstOccurrences(rs)
  {
    assert |known| == |known.Keys|;
  }
}
