/**
 * CandidateService.applySorting: a stable sort (Java's list sort) under a comparator chosen
 * by the lower-cased `sortBy` key, negated unless the direction is "ASC" ignoring case.
 *
 * Only the sign of a comparison matters to a sort, so comparisons are -1, 0 or 1.  The
 * comparator dereferences the key of both elements it compares and a sort of two or more
 * elements compares every element at least once, so one candidate with a null key makes the
 * whole sort throw NullPointerException; a list of fewer than two is returned untouched.
 */
module CandidateSort {
  import opened Wrappers
  import opened Text
  import opened Candidates
  import opened CandidateFilter

  datatype SortKey = ByFirstName | ByLastName | ByEmail | ByJobProfile | ByJobLocation | ByStatus | ByUpdatedAt | ByCreatedAt

  /** The `switch (sortBy.toLowerCase())`; any unknown key falls back to `createdAt`. */
  function SortKeyOf(sortBy: string): (k: SortKey)
    ensures k != ByCreatedAt ==> Lower(sortBy) in {"firstname", "lastname", "email", "jobprofile", "joblocation", "status", "updatedat"}
  {
    var key := Lower(sortBy);
    if key == "firstname" then ByFirstName
    else if key == "lastname" then ByLastName
    else if key == "email" then ByEmail
    else if key == "jobprofile" then ByJobProfile
    else if key == "joblocation" then ByJobLocation
    else if key == "status" then ByStatus
    else if key == "updatedat" then ByUpdatedAt
    else ByCreatedAt
  }

  /** The comparator can read the key of `c` without a null dereference. */
  predicate HasKey(k: SortKey, c: Candidate) {
    match k
    case ByFirstName => c.firstName.Some?
    case ByLastName => c.lastName.Some?
    case ByEmail => c.email.Some?
    case ByJobProfile => c.jobProfile.Some?
    case ByJobLocation => c.jobLocation.Some?
    case ByStatus => c.status.Some?
    case ByUpdatedAt => true
    case ByCreatedAt => true
  }

  predicate AllHaveKey(k: SortKey, cs: seq<Candidate>) {
    forall i :: 0 <= i < |cs| ==> HasKey(k, cs[i])
  }

  function Sign(x: int): int {
    if x < 0 then -1 else if x > 0 then 1 else 0
  }

  /**
   * The sign of the ascending comparison of `a` and `b` under key `k`.  It is 0 where a key
   * is null; no sort is modelled on such a list, since the comparator throws there.
   */
  function CompareBy(k: SortKey, a: Candidate, b: Candidate): int {
    if !HasKey(k, a) || !HasKey(k, b) then 0
    else match k
      case ByFirstName => CompareIgnoreCase(a.firstName.value, b.firstName.value)
      case ByLastName => CompareIgnoreCase(a.lastName.value, b.lastName.value)
      case ByEmail => CompareIgnoreCase(a.email.value, b.email.value)
      case ByJobProfile => Sign(JobProfileOrdinal(a.jobProfile.value) - JobProfileOrdinal(b.jobProfile.value))
      case ByJobLocation => CompareIgnoreCase(a.jobLocation.value, b.jobLocation.value)
      case ByStatus => Sign(CandidateStatusOrdinal(a.status.value) - CandidateStatusOrdinal(b.status.value))
      case ByUpdatedAt => Sign(a.updatedAt - b.updatedAt)
      case ByCreatedAt => Sign(a.createdAt - b.createdAt)
  }

  /** `ascending ? comparison : -comparison`. */
  function Directed(k: SortKey, ascending: bool, a: Candidate, b: Candidate): int {
    if ascending then CompareBy(k, a, b) else -CompareBy(k, a, b)
  }

  lemma DirectedAntisymmetric(k: SortKey, ascending: bool, a: Candidate, b: Candidate)
    ensures Directed(k, ascending, a, b) == -Directed(k, ascending, b, a)
  {
    if HasKey(k, a) && HasKey(k, b) {
      match k
      case ByFirstName => LexCompareAntisymmetric(Lower(a.firstName.value), Lower(b.firstName.value));
      case ByLastName => LexCompareAntisymmetric(Lower(a.lastName.value), Lower(b.lastName.value));
      case ByEmail => LexCompareAntisymmetric(Lower(a.email.value), Lower(b.email.value));
      case ByJobLocation => LexCompareAntisymmetric(Lower(a.jobLocation.value), Lower(b.jobLocation.value));
      case _ =>
    }
  }

  /** Two candidates tie exactly when their keys are equal, the string keys ignoring case. */
  lemma CompareByZero(k: SortKey, a: Candidate, b: Candidate)
    requires HasKey(k, a) && HasKey(k, b)
    ensures k == ByFirstName ==> (CompareBy(k, a, b) == 0 <==> Lower(a.firstName.value) == Lower(b.firstName.value))
    ensures k == ByLastName ==> (CompareBy(k, a, b) == 0 <==> Lower(a.lastName.value) == Lower(b.lastName.value))
    ensures k == ByEmail ==> (CompareBy(k, a, b) == 0 <==> Lower(a.email.value) == Lower(b.email.value))
    ensures k == ByJobLocation ==> (CompareBy(k, a, b) == 0 <==> Lower(a.jobLocation.value) == Lower(b.jobLocation.value))
    ensures k == ByJobProfile ==> (CompareBy(k, a, b) == 0 <==> a.jobProfile == b.jobProfile)
    ensures k == ByStatus ==> (CompareBy(k, a, b) == 0 <==> a.status == b.status)
    ensures k == ByUpdatedAt ==> (CompareBy(k, a, b) == 0 <==> a.updatedAt == b.updatedAt)
    ensures k == ByCreatedAt ==> (CompareBy(k, a, b) == 0 <==> a.createdAt == b.createdAt)
  {
    match k
    case ByFirstName => LexCompareZero(Lower(a.firstName.value), Lower(b.firstName.value));
    case ByLastName => LexCompareZero(Lower(a.lastName.value), Lower(b.lastName.value));
    case ByEmail => LexCompareZero(Lower(a.email.value), Lower(b.email.value));
    case ByJobLocation => LexCompareZero(Lower(a.jobLocation.value), Lower(b.jobLocation.value));
    case _ =>
  }

  lemma DirectedTransitive(k: SortKey, ascending: bool, a: Candidate, b: Candidate, c: Candidate)
    requires HasKey(k, a) && HasKey(k, b) && HasKey(k, c)
    requires Directed(k, ascending, a, b) <= 0 && Directed(k, ascending, b, c) <= 0
    ensures Directed(k, ascending, a, c) <= 0
  {
    if ascending {
      StringKeysTransitive(k, a, b, c);
    } else {
      DirectedAntisymmetric(k, true, a, b);
      DirectedAntisymmetric(k, true, b, c);
      DirectedAntisymmetric(k, true, a, c);
      StringKeysTransitive(k, c, b, a);
    }
  }

  lemma StringKeysTransitive(k: SortKey, a: Candidate, b: Candidate, c: Candidate)
    requires HasKey(k, a) && HasKey(k, b) && HasKey(k, c)
    requires CompareBy(k, a, b) <= 0 && CompareBy(k, b, c) <= 0
    ensures CompareBy(k, a, c) <= 0
  {
    match k
    case ByFirstName => LexCompareTransitive(Lower(a.firstName.value), Lower(b.firstName.value), Lower(c.firstName.value));
    case ByLastName => LexCompareTransitive(Lower(a.lastName.value), Lower(b.lastName.value), Lower(c.lastName.value));
    case ByEmail => LexCompareTransitive(Lower(a.email.value), Lower(b.email.value), Lower(c.email.value));
    case ByJobLocation => LexCompareTransitive(Lower(a.jobLocation.value), Lower(b.jobLocation.value), Lower(c.jobLocation.value));
    case _ =>
  }

  /** Every earlier element compares at most equal to every later one. */
  predicate SortedBy(k: SortKey, ascending: bool, s: seq<Candidate>) {
    forall i, j :: 0 <= i < j < |s| ==> Directed(k, ascending, s[i], s[j]) <= 0
  }

  /** Insert `x` after every element that does not compare greater than it (keeps the sort stable). */
  function Insert(k: SortKey, ascending: bool, x: Candidate, s: seq<Candidate>): (r: seq<Candidate>)
    ensures multiset(r) == multiset(s) + multiset{x} && |r| == |s| + 1
  {
    if s == [] then [x]
    else if Directed(k, ascending, x, s[0]) < 0 then [x] + s
    else
      var rest := Insert(k, ascending, x, s[1..]);
      assert s == [s[0]] + s[1..];
      [s[0]] + rest
  }

  /** `b` compares at most equal to every element of `s`. */
  predicate LowerBound(k: SortKey, ascending: bool, b: Candidate, s: seq<Candidate>) {
    forall j :: 0 <= j < |s| ==> Directed(k, ascending, b, s[j]) <= 0
  }

  lemma SortedCons(k: SortKey, ascending: bool, b: Candidate, s: seq<Candidate>)
    requires SortedBy(k, ascending, s) && LowerBound(k, ascending, b, s)
    ensures SortedBy(k, ascending, [b] + s)
  {
    var r := [b] + s;
    assert forall j :: 1 <= j < |r| ==> r[j] == s[j - 1];
  }

  lemma BelowHeadIsBound(k: SortKey, ascending: bool, x: Candidate, s: seq<Candidate>)
    requires HasKey(k, x) && AllHaveKey(k, s) && s != []
    requires SortedBy(k, ascending, s) && Directed(k, ascending, x, s[0]) <= 0
    ensures LowerBound(k, ascending, x, s)
  {
    forall j | 0 < j < |s|
      ensures Directed(k, ascending, x, s[j]) <= 0
    {
      DirectedTransitive(k, ascending, x, s[0], s[j]);
    }
  }

  lemma {:induction false} InsertKeepsBound(k: SortKey, ascending: bool, b: Candidate, x: Candidate, s: seq<Candidate>)
    requires LowerBound(k, ascending, b, s) && Directed(k, ascending, b, x) <= 0
    ensures LowerBound(k, ascending, b, Insert(k, ascending, x, s))
    decreases |s|
  {
    if s == [] {
    } else if Directed(k, ascending, x, s[0]) < 0 {
      var r := [x] + s;
      assert Insert(k, ascending, x, s) == r;
      forall j | 0 <= j < |r|
        ensures Directed(k, ascending, b, r[j]) <= 0
      {
        if j > 0 {
          assert r[j] == s[j - 1];
        }
      }
    } else {
      var tail := s[1..];
      assert LowerBound(k, ascending, b, tail) by {
        forall j | 0 <= j < |tail|
          ensures Directed(k, ascending, b, tail[j]) <= 0
        {
          assert tail[j] == s[j + 1];
        }
      }
      InsertKeepsBound(k, ascending, b, x, tail);
      var rest := Insert(k, ascending, x, tail);
      var r := [s[0]] + rest;
      assert Insert(k, ascending, x, s) == r;
      forall j | 0 <= j < |r|
        ensures Directed(k, ascending, b, r[j]) <= 0
      {
        if j > 0 {
          assert r[j] == rest[j - 1];
        }
      }
    }
  }

  lemma {:induction false} InsertSorted(k: SortKey, ascending: bool, x: Candidate, s: seq<Candidate>)
    requires HasKey(k, x) && AllHaveKey(k, s) && SortedBy(k, ascending, s)
    ensures SortedBy(k, ascending, Insert(k, ascending, x, s))
    decreases |s|
  {
    if s == [] {
    } else if Directed(k, ascending, x, s[0]) < 0 {
      BelowHeadIsBound(k, ascending, x, s);
      SortedCons(k, ascending, x, s);
    } else {
      var tail := s[1..];
      assert SortedBy(k, ascending, tail) by {
        assert forall j :: 0 <= j < |tail| ==> tail[j] == s[j + 1];
      }
      assert LowerBound(k, ascending, s[0], tail) by {
        assert forall j :: 0 <= j < |tail| ==> tail[j] == s[j + 1];
      }
      InsertSorted(k, ascending, x, tail);
      DirectedAntisymmetric(k, ascending, x, s[0]);
      InsertKeepsBound(k, ascending, s[0], x, tail);
      SortedCons(k, ascending, s[0], Insert(k, ascending, x, tail));
    }
  }

  /** The model of the stable sort: insertion of each element in turn. */
  function Sort(k: SortKey, ascending: bool, s: seq<Candidate>): (r: seq<Candidate>)
    ensures multiset(r) == multiset(s) && |r| == |s|
  {
    if s == [] then []
    else
      var init := s[..|s| - 1];
      assert s == init + [s[|s| - 1]];
      Insert(k, ascending, s[|s| - 1], Sort(k, ascending, init))
  }

  /** Having a key is a property of the elements, so a permutation keeps it. */
  lemma PermutationHasKey(k: SortKey, a: seq<Candidate>, b: seq<Candidate>)
    requires multiset(a) == multiset(b) && AllHaveKey(k, a)
    ensures AllHaveKey(k, b)
  {
    forall i | 0 <= i < |b|
      ensures HasKey(k, b[i])
    {
      assert b[i] in multiset(a);
      var j :| 0 <= j < |a| && a[j] == b[i];
    }
  }

  lemma {:induction false} SortSorted(k: SortKey, ascending: bool, s: seq<Candidate>)
    requires AllHaveKey(k, s)
    ensures SortedBy(k, ascending, Sort(k, ascending, s))
    decreases |s|
  {
    if s != [] {
      SortSorted(k, ascending, s[..|s| - 1]);
      PermutationHasKey(k, s[..|s| - 1], Sort(k, ascending, s[..|s| - 1]));
      InsertSorted(k, ascending, s[|s| - 1], Sort(k, ascending, s[..|s| - 1]));
    }
  }

  /** `applySorting(candidates, sortBy, sortDirection)`. */
  function ApplySorting(cs: seq<Candidate>, sortBy: string, sortDirection: string): Result<seq<Candidate>, string> {
    var k := SortKeyOf(sortBy);
    if |cs| < 2 then Success(cs)
    else if !AllHaveKey(k, cs) then Failure(NullPointer)
    else Success(Sort(k, EqualsIgnoreCase("ASC", sortDirection), cs))
  }

  /**
   * The sort returns a permutation of its input ordered by the chosen key, ascending exactly
   * when the direction is "ASC" ignoring case; it throws only when two or more candidates are
   * sorted and one has a null key.
   */
  lemma ApplySortingMeaning(cs: seq<Candidate>, sortBy: string, sortDirection: string)
    ensures ApplySorting(cs, sortBy, sortDirection).Failure? <==> |cs| >= 2 && !AllHaveKey(SortKeyOf(sortBy), cs)
    ensures var r := ApplySorting(cs, sortBy, sortDirection);
      r.Success? ==>
        multiset(r.value) == multiset(cs) &&
        (|cs| < 2 ==> r.value == cs) &&
        (|cs| >= 2 ==> AllHaveKey(SortKeyOf(sortBy), r.value) &&
                       SortedBy(SortKeyOf(sortBy), EqualsIgnoreCase("ASC", sortDirection), r.value))
  {
    var k := SortKeyOf(sortBy);
    if |cs| >= 2 && AllHaveKey(k, cs) {
      SortSorted(k, EqualsIgnoreCase("ASC", sortDirection), cs);
      PermutationHasKey(k, cs, Sort(k, EqualsIgnoreCase("ASC", sortDirection), cs));
    }
  }
}
