/**
 * CandidateService.matchesSearchCriteria and matchesInterviewRoundCriteria.
 *
 * Each filter applies only when its request field is set (non-null, and non-empty for strings
 * and lists).  The filters run in the source's order and the first one that fails decides;
 * dereferencing a null candidate or round field throws NullPointerException, which aborts the
 * whole search, so every check yields a `Check`: accepted, rejected, or the exception.
 */
module CandidateFilter {
  import opened Wrappers
  import opened Text
  import opened Candidates
  import opened CandidateRequests

  const NullPointer := "NullPointerException"

  type Check = Result<bool, string>

  /** `if (!first) return false; ...rest`: the first check that does not accept decides. */
  function AndThen(first: Check, rest: Check): (r: Check)
    ensures r == Success(true) <==> first == Success(true) && rest == Success(true)
  {
    if first == Success(true) then rest else first
  }

  /** `a || b` on checks: `b` is evaluated only when `a` is false. */
  function OrElse(first: Check, rest: Check): (r: Check)
    ensures r == Success(true) <==> first == Success(true) || (first == Success(false) && rest == Success(true))
  {
    if first == Success(false) then rest else first
  }

  /** A string filter is set when it is non-null and non-empty. */
  predicate TextSet(filter: Option<string>) {
    filter.Some? && filter.value != []
  }

  predicate ListSet<T>(filter: Option<seq<T>>) {
    filter.Some? && filter.value != []
  }

  /** `field.toLowerCase().contains(filter.toLowerCase())` on a possibly-null field. */
  function ContainsCheck(field: Option<string>, filter: string): (r: Check)
    ensures r == Success(true) <==> field.Some? && ContainsIgnoreCase(field.value, filter)
    ensures r.Failure? <==> field.None?
  {
    if field.None? then Failure(NullPointer) else Success(ContainsIgnoreCase(field.value, filter))
  }

  /** The email, first name, last name and location filters: case-insensitive substring. */
  function TextFilter(filter: Option<string>, field: Option<string>): (r: Check)
    ensures !TextSet(filter) ==> r == Success(true)
    ensures TextSet(filter) ==> r == ContainsCheck(field, filter.value)
  {
    if !TextSet(filter) then Success(true) else ContainsCheck(field, filter.value)
  }

  /** The single-value enum filters: `!field.equals(filter)`, which throws on a null field. */
  function EqualsFilter<T(==)>(filter: Option<T>, field: Option<T>): (r: Check)
    ensures filter.None? ==> r == Success(true)
    ensures r == Success(true) <==> filter.None? || field == filter
    ensures r.Failure? <==> filter.Some? && field.None?
  {
    if filter.None? then Success(true)
    else if field.None? then Failure(NullPointer)
    else Success(field == filter)
  }

  /** The list filters on enums: `!filter.contains(field)`; a null field is looked up, not dereferenced. */
  function MemberFilter<T(==)>(filter: Option<seq<Option<T>>>, field: Option<T>): (r: Check)
    ensures r == Success(true) <==> !ListSet(filter) || field in filter.value
    ensures r.Success?
  {
    if !ListSet(filter) then Success(true) else Success(field in filter.value)
  }

  /** `locations.stream().anyMatch(l -> field.toLowerCase().contains(l.toLowerCase()))`. */
  function AnyLocation(field: Option<string>, locations: seq<Option<string>>): (r: Check)
    ensures r == Success(true) ==> exists i :: 0 <= i < |locations| && locations[i].Some? &&
                                       field.Some? && ContainsIgnoreCase(field.value, locations[i].value)
    ensures (field.Some? && forall i :: 0 <= i < |locations| ==> locations[i].Some?) ==>
              r.Success? && (r.value <==> exists i :: 0 <= i < |locations| && ContainsIgnoreCase(field.value, locations[i].value))
  {
    if locations == [] then Success(false)
    else if field.None? || locations[0].None? then Failure(NullPointer)
    else if ContainsIgnoreCase(field.value, locations[0].value) then Success(true)
    else
      var r := AnyLocation(field, locations[1..]);
      assert forall i :: 1 <= i < |locations| ==> locations[i] == locations[1..][i - 1];
      r
  }

  function LocationsFilter(filter: Option<seq<Option<string>>>, field: Option<string>): (r: Check)
    ensures !ListSet(filter) ==> r == Success(true)
  {
    if !ListSet(filter) then Success(true) else AnyLocation(field, filter.value)
  }

  /** The location match throws only on a null job location or a null element of the list. */
  lemma {:induction false} AnyLocationFailure(field: Option<string>, locations: seq<Option<string>>)
    requires AnyLocation(field, locations).Failure?
    ensures field.None? || exists i :: 0 <= i < |locations| && locations[i].None?
    decreases |locations|
  {
    if field.Some? && locations[0].Some? {
      AnyLocationFailure(field, locations[1..]);
      var i :| 0 <= i < |locations[1..]| && locations[1..][i].None?;
      assert locations[i + 1].None?;
    }
  }

  /** A lower date bound: only a value strictly before the bound is rejected. */
  predicate NotBefore(bound: Option<Time>, t: Time) {
    bound.None? || !(t < bound.value)
  }

  /** An upper date bound: only a value strictly after the bound is rejected. */
  predicate NotAfter(bound: Option<Time>, t: Time) {
    bound.None? || !(t > bound.value)
  }

  /** The scheduled-date bounds of a round: ignored altogether when the round is unscheduled. */
  predicate ScheduledWithin(scheduledAt: Option<Time>, after: Option<Time>, before: Option<Time>) {
    scheduledAt.None? || (NotBefore(after, scheduledAt.value) && NotAfter(before, scheduledAt.value))
  }

  /** `matchesInterviewRoundCriteria`. */
  function RoundMatches(round: InterviewRound, r: CandidateSearchRequest): Check {
    AndThen(EqualsFilter(r.interviewType, round.interviewType),
    AndThen(EqualsFilter(r.interviewStatus, round.status),
    AndThen(EqualsFilter(r.interviewLevel, round.level),
            Success(ScheduledWithin(round.scheduledAt, r.scheduledAfter, r.scheduledBefore)))))
  }

  /** A round meets the criteria iff each set criterion holds of it; its null fields throw when tested. */
  lemma RoundMatchesMeaning(round: InterviewRound, r: CandidateSearchRequest)
    ensures RoundMatches(round, r) == Success(true) <==>
      (r.interviewType.None? || round.interviewType == r.interviewType) &&
      (r.interviewStatus.None? || round.status == r.interviewStatus) &&
      (r.interviewLevel.None? || round.level == r.interviewLevel) &&
      ScheduledWithin(round.scheduledAt, r.scheduledAfter, r.scheduledBefore)
    ensures round.scheduledAt.None? ==>
      RoundMatches(round, r) == RoundMatches(round, r.(scheduledAfter := None, scheduledBefore := None))
  {
  }

  predicate RoundCriteriaSet(r: CandidateSearchRequest) {
    r.interviewType.Some? || r.interviewStatus.Some? || r.interviewLevel.Some? ||
    r.scheduledAfter.Some? || r.scheduledBefore.Some?
  }

  /** A round field that a set criterion dereferences is null. */
  predicate RoundFieldNull(round: InterviewRound, r: CandidateSearchRequest) {
    (r.interviewType.Some? && round.interviewType.None?) ||
    (r.interviewStatus.Some? && round.status.None?) ||
    (r.interviewLevel.Some? && round.level.None?)
  }

  /** `rounds.stream().anyMatch(round -> matchesInterviewRoundCriteria(round, r))`, stopping at the first match or exception. */
  function AnyRound(rounds: seq<InterviewRound>, r: CandidateSearchRequest): (res: Check)
  {
    if rounds == [] then Success(false)
    else OrElse(RoundMatches(rounds[0], r), AnyRound(rounds[1..], r))
  }

  /** The round filter accepts iff some single round meets every round criterion (when no round throws). */
  lemma {:induction false} AnyRoundMeaning(rounds: seq<InterviewRound>, r: CandidateSearchRequest)
    ensures AnyRound(rounds, r) == Success(true) ==> exists i :: 0 <= i < |rounds| && RoundMatches(rounds[i], r) == Success(true)
    ensures (forall i :: 0 <= i < |rounds| ==> RoundMatches(rounds[i], r).Success?) ==>
              AnyRound(rounds, r) == Success(exists i :: 0 <= i < |rounds| && RoundMatches(rounds[i], r) == Success(true))
    decreases |rounds|
  {
    if rounds != [] {
      AnyRoundMeaning(rounds[1..], r);
      assert forall i :: 1 <= i < |rounds| ==> rounds[i] == rounds[1..][i - 1];
    }
  }

  /** The round match throws only on a round whose type, status or level is null while that criterion is set. */
  lemma {:induction false} AnyRoundFailure(rounds: seq<InterviewRound>, r: CandidateSearchRequest)
    requires AnyRound(rounds, r).Failure?
    ensures exists i :: 0 <= i < |rounds| && RoundFieldNull(rounds[i], r)
    decreases |rounds|
  {
    if RoundMatches(rounds[0], r).Failure? {
      assert RoundFieldNull(rounds[0], r);
    } else {
      AnyRoundFailure(rounds[1..], r);
      var i :| 0 <= i < |rounds[1..]| && RoundFieldNull(rounds[1..][i], r);
      assert rounds[i + 1] == rounds[1..][i];
    }
  }

  function RoundFilter(r: CandidateSearchRequest, rounds: seq<InterviewRound>): Check {
    if RoundCriteriaSet(r) then AnyRound(rounds, r) else Success(true)
  }

  /** The free-text search: first name, then last name, then email, each lower-cased. */
  function TextSearch(text: Option<string>, c: Candidate): Check {
    if !TextSet(text) then Success(true)
    else OrElse(ContainsCheck(c.firstName, text.value),
         OrElse(ContainsCheck(c.lastName, text.value), ContainsCheck(c.email, text.value)))
  }

  /** `matchesSearchCriteria`, check by check in the source's order. */
  function Matches(c: Candidate, r: CandidateSearchRequest): Check {
    AndThen(TextFilter(r.email, c.email),
    AndThen(TextFilter(r.firstName, c.firstName),
    AndThen(TextFilter(r.lastName, c.lastName),
    AndThen(EqualsFilter(r.jobProfile, c.jobProfile),
    AndThen(MemberFilter(r.jobProfiles, c.jobProfile),
    AndThen(TextFilter(r.jobLocation, c.jobLocation),
    AndThen(LocationsFilter(r.jobLocations, c.jobLocation),
    AndThen(EqualsFilter(r.status, c.status),
    AndThen(MemberFilter(r.statuses, c.status),
    AndThen(Success(NotBefore(r.createdAfter, c.createdAt)),
    AndThen(Success(NotAfter(r.createdBefore, c.createdAt)),
    AndThen(Success(NotBefore(r.updatedAfter, c.updatedAt)),
    AndThen(Success(NotAfter(r.updatedBefore, c.updatedAt)),
    AndThen(RoundFilter(r, c.interviewRounds),
            TextSearch(r.searchText, c)))))))))))))))
  }

  /** The empty request accepts every candidate. */
  lemma EmptyRequestAcceptsAll(c: Candidate)
    ensures Matches(c, EmptySearchRequest) == Success(true)
  {
  }

  /** An accepted candidate meets every filter that is set. */
  lemma AcceptedMeetsFilters(c: Candidate, r: CandidateSearchRequest)
    requires Matches(c, r) == Success(true)
    ensures TextSet(r.email) ==> c.email.Some? && ContainsIgnoreCase(c.email.value, r.email.value)
    ensures TextSet(r.firstName) ==> c.firstName.Some? && ContainsIgnoreCase(c.firstName.value, r.firstName.value)
    ensures TextSet(r.lastName) ==> c.lastName.Some? && ContainsIgnoreCase(c.lastName.value, r.lastName.value)
    ensures r.jobProfile.Some? ==> c.jobProfile == r.jobProfile
    ensures ListSet(r.jobProfiles) ==> c.jobProfile in r.jobProfiles.value
    ensures TextSet(r.jobLocation) ==> c.jobLocation.Some? && ContainsIgnoreCase(c.jobLocation.value, r.jobLocation.value)
    ensures ListSet(r.jobLocations) ==>
              (exists i :: 0 <= i < |r.jobLocations.value| && r.jobLocations.value[i].Some? && c.jobLocation.Some? &&
                           ContainsIgnoreCase(c.jobLocation.value, r.jobLocations.value[i].value))
    ensures r.status.Some? ==> c.status == r.status
    ensures ListSet(r.statuses) ==> c.status in r.statuses.value
    ensures NotBefore(r.createdAfter, c.createdAt) && NotAfter(r.createdBefore, c.createdAt)
    ensures NotBefore(r.updatedAfter, c.updatedAt) && NotAfter(r.updatedBefore, c.updatedAt)
    ensures RoundCriteriaSet(r) ==> exists i :: 0 <= i < |c.interviewRounds| && RoundMatches(c.interviewRounds[i], r) == Success(true)
    ensures TextSet(r.searchText) ==>
              (c.firstName.Some? && ContainsIgnoreCase(c.firstName.value, r.searchText.value)) ||
              (c.lastName.Some? && ContainsIgnoreCase(c.lastName.value, r.searchText.value)) ||
              (c.email.Some? && ContainsIgnoreCase(c.email.value, r.searchText.value))
  {
    AnyRoundMeaning(c.interviewRounds, r);
  }

  /** The date bounds are inclusive: a candidate stamped exactly at every bound is accepted. */
  lemma DateBoundsInclusive(c: Candidate)
    ensures Matches(c, EmptySearchRequest.(createdAfter := Some(c.createdAt), createdBefore := Some(c.createdAt),
                                           updatedAfter := Some(c.updatedAt), updatedBefore := Some(c.updatedAt)))
            == Success(true)
  {
  }

  /** An exception can only come from a filter that dereferences a null field. */
  lemma FailureNeedsNull(c: Candidate, r: CandidateSearchRequest)
    requires Matches(c, r).Failure?
    ensures (TextSet(r.email) && c.email.None?) || (TextSet(r.firstName) && c.firstName.None?) ||
            (TextSet(r.lastName) && c.lastName.None?) || (r.jobProfile.Some? && c.jobProfile.None?) ||
            (TextSet(r.jobLocation) && c.jobLocation.None?) ||
            (ListSet(r.jobLocations) && (c.jobLocation.None? ||
              exists i :: 0 <= i < |r.jobLocations.value| && r.jobLocations.value[i].None?)) ||
            (r.status.Some? && c.status.None?) ||
            (exists i :: 0 <= i < |c.interviewRounds| && RoundFieldNull(c.interviewRounds[i], r)) ||
            (TextSet(r.searchText) && (c.firstName.None? || c.lastName.None? || c.email.None?))
  {
    if ListSet(r.jobLocations) && AnyLocation(c.jobLocation, r.jobLocations.value).Failure? {
      AnyLocationFailure(c.jobLocation, r.jobLocations.value);
    }
    if RoundCriteriaSet(r) && AnyRound(c.interviewRounds, r).Failure? {
      AnyRoundFailure(c.interviewRounds, r);
    }
  }
}
