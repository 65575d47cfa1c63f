/**
 * The parts of CandidateController with behaviour of their own: the status counts of the
 * stats endpoint, the defaults of the search endpoint, and the validation of the `"status"`
 * field in the two round-status endpoints before they reach CandidateService.
 */
module CandidateApi {
  import opened Wrappers
  import opened JavaInt
  import opened Candidates
  import opened CandidateDtos
  import opened CandidateRequests
  import opened CandidateSearch
  import opened CandidateStore

  /** The body of `getCandidateStats`. */
  datatype CandidateStats = CandidateStats(
    totalCandidates: nat,
    toBeStarted: nat,
    inProgress: nat,
    selected: nat,
    rejected: nat)

  /** `stream().filter(c -> c.getStatus() == status).count()`. */
  function CountStatus(ds: seq<CandidateDto>, status: Option<CandidateStatus>): (n: nat)
    ensures n <= |ds|
  {
    if ds == [] then 0 else (if ds[0].status == status then 1 else 0) + CountStatus(ds[1..], status)
  }

  function Stats(ds: seq<CandidateDto>): CandidateStats {
    CandidateStats(|ds|, CountStatus(ds, Some(CandidateToBeStarted)), CountStatus(ds, Some(CandidateInProgress)),
                   CountStatus(ds, Some(CandidateSelected)), CountStatus(ds, Some(CandidateRejected)))
  }

  /** Every candidate has one of the four statuses or none, so the counts and the null-status count add up to the total. */
  lemma {:induction false} StatusCountsAddUp(ds: seq<CandidateDto>)
    ensures var s := Stats(ds);
      s.toBeStarted + s.inProgress + s.selected + s.rejected + CountStatus(ds, None) == s.totalCandidates
    decreases |ds|
  {
    if ds != [] {
      StatusCountsAddUp(ds[1..]);
      var rest := Stats(ds[1..]);
      var s := Stats(ds);
      match ds[0].status
      case None =>
        assert s == rest.(totalCandidates := |ds|);
      case Some(CandidateToBeStarted) =>
        assert s == rest.(totalCandidates := |ds|, toBeStarted := rest.toBeStarted + 1);
      case Some(CandidateInProgress) =>
        assert s == rest.(totalCandidates := |ds|, inProgress := rest.inProgress + 1);
      case Some(CandidateSelected) =>
        assert s == rest.(totalCandidates := |ds|, selected := rest.selected + 1);
      case Some(CandidateRejected) =>
        assert s == rest.(totalCandidates := |ds|, rejected := rest.rejected + 1);
    }
  }

  /** With no null status the four counts sum to the total. */
  lemma NoNullStatusSumsToTotal(ds: seq<CandidateDto>)
    requires forall i :: 0 <= i < |ds| ==> ds[i].status.Some?
    ensures var s := Stats(ds); s.toBeStarted + s.inProgress + s.selected + s.rejected == s.totalCandidates
  {
    StatusCountsAddUp(ds);
    NoneCountZero(ds);
  }

  lemma {:induction false} NoneCountZero(ds: seq<CandidateDto>)
    requires forall i :: 0 <= i < |ds| ==> ds[i].status.Some?
    ensures CountStatus(ds, None) == 0
    decreases |ds|
  {
    if ds != [] {
      assert forall i :: 1 <= i < |ds| ==> ds[1..][i - 1] == ds[i];
      NoneCountZero(ds[1..]);
    }
  }

  /** Counting over a concatenation is the sum of the counts. */
  lemma {:induction false} CountStatusAppend(a: seq<CandidateDto>, b: seq<CandidateDto>, status: Option<CandidateStatus>)
    ensures CountStatus(a + b, status) == CountStatus(a, status) + CountStatus(b, status)
    decreases |a|
  {
    if a == [] {
      assert a + b == b;
    } else {
      assert (a + b)[0] == a[0];
      assert (a + b)[1..] == a[1..] + b;
      CountStatusAppend(a[1..], b, status);
    }
  }

  /** Taking out the element at `k` takes out its contribution. */
  lemma CountStatusRemove(b: seq<CandidateDto>, k: nat, status: Option<CandidateStatus>)
    requires k < |b|
    ensures CountStatus(b, status) == (if b[k].status == status then 1 else 0) + CountStatus(b[..k] + b[k + 1..], status)
  {
    assert b == b[..k] + ([b[k]] + b[k + 1..]);
    CountStatusAppend(b[..k], [b[k]] + b[k + 1..], status);
    CountStatusAppend([b[k]], b[k + 1..], status);
    CountStatusAppend(b[..k], b[k + 1..], status);
  }

  lemma MultisetRemove(b: seq<CandidateDto>, k: nat)
    requires k < |b|
    ensures multiset(b) == multiset{b[k]} + multiset(b[..k] + b[k + 1..])
  {
    assert b == b[..k] + [b[k]] + b[k + 1..];
  }

  /** The counts do not depend on the order in which `findAll()` lists the candidates. */
  lemma {:induction false} CountStatusPermutation(a: seq<CandidateDto>, b: seq<CandidateDto>, status: Option<CandidateStatus>)
    requires multiset(a) == multiset(b)
    ensures CountStatus(a, status) == CountStatus(b, status)
    decreases |a|
  {
    if a == [] {
      assert |b| == |multiset(b)| == 0;
    } else {
      assert a[0] in multiset(b);
      var k :| 0 <= k < |b| && b[k] == a[0];
      var rest := b[..k] + b[k + 1..];
      MultisetRemove(a, 0);
      MultisetRemove(b, k);
      assert a[..0] + a[1..] == a[1..];
      assert multiset{a[0]} + multiset(a[1..]) == multiset{a[0]} + multiset(rest);
      assert forall y :: multiset(a[1..])[y] == (multiset{a[0]} + multiset(a[1..]))[y] - multiset{a[0]}[y];
      assert multiset(a[1..]) == multiset(rest);
      CountStatusPermutation(a[1..], rest, status);
      CountStatusRemove(b, k, status);
    }
  }

  /** So the whole stats body is independent of that order. */
  lemma StatsOrderIndependent(a: seq<CandidateDto>, b: seq<CandidateDto>)
    requires multiset(a) == multiset(b)
    ensures Stats(a) == Stats(b)
  {
    assert |a| == |multiset(a)| == |b|;
    CountStatusPermutation(a, b, Some(CandidateToBeStarted));
    CountStatusPermutation(a, b, Some(CandidateInProgress));
    CountStatusPermutation(a, b, Some(CandidateSelected));
    CountStatusPermutation(a, b, Some(CandidateRejected));
  }

  /** The arguments `searchCandidates` passes on, after request-parameter defaults. */
  datatype SearchArgs = SearchArgs(request: CandidateSearchRequest, page: int, size: int, sortBy: string, sortDirection: string)

  /**
   * `@RequestParam(defaultValue = ...)` for absent parameters, and an empty
   * CandidateSearchRequest for an absent body.
   */
  function ResolveSearch(page: Option<int>, size: Option<int>, sortBy: Option<string>, sortDirection: Option<string>,
                         body: Option<CandidateSearchRequest>): SearchArgs {
    SearchArgs(body.GetOr(EmptySearchRequest), page.GetOr(0), size.GetOr(20), sortBy.GetOr("createdAt"), sortDirection.GetOr("DESC"))
  }

  /**
   * A search with no parameters and no body is the first page of 20 candidates out of all of
   * them, with no previous page.
   */
  lemma DefaultSearchIsFirstPage(all: seq<Candidate>)
    requires 20 <= |all| <= MaxInt
    ensures var a := ResolveSearch(None, None, None, None, None);
      IsInt(a.page) && IsInt(a.size) &&
      var res := SearchSpec(all, a.request, a.page, a.size, a.sortBy, a.sortDirection);
      res.Success? && res.value.totalElements == |all| && |res.value.candidates| == 20 && !res.value.hasPrevious
  {
    EmptyFilterFirstPage(all, 20, "DESC");
  }

  /** A passed-in body as well as passed-in parameters reach the service unchanged. */
  lemma GivenArgumentsPassThrough(page: int, size: int, sortBy: string, sortDirection: string, body: CandidateSearchRequest)
    ensures ResolveSearch(Some(page), Some(size), Some(sortBy), Some(sortDirection), Some(body)) ==
      SearchArgs(body, page, size, sortBy, sortDirection)
  {
  }

  /** The reply of a round-status endpoint. */
  datatype Reply = Ok(candidate: CandidateDto) | BadRequest(error: string)

  const StatusRequired := "Status is required"
  const InvalidStatus := "Invalid status value"

  /** `Map.get`: null for a missing key as for a key mapped to null. */
  function Lookup(m: map<string, Option<string>>, key: string): Option<string> {
    if key in m then m[key] else None
  }

  /** `statusUpdate.get("status")`, then `InterviewStatus.valueOf`. */
  function ParseStatusUpdate(statusUpdate: map<string, Option<string>>): (r: Result<InterviewStatus, string>)
    ensures r.Failure? ==> r.error in {StatusRequired, InvalidStatus}
    ensures r.Failure? && r.error == StatusRequired <==> Lookup(statusUpdate, "status").None?
    ensures r.Success? <==> Lookup(statusUpdate, "status").Some? && ParseInterviewStatus(Lookup(statusUpdate, "status").value).Some?
    ensures r.Success? ==> InterviewStatusName(r.value) == Lookup(statusUpdate, "status").value
  {
    match Lookup(statusUpdate, "status")
    case None => Failure(StatusRequired)
    case Some(text) =>
      match ParseInterviewStatus(text)
      case None => Failure(InvalidStatus)
      case Some(s) => Success(s)
  }

  /**
   * The service's outcome as a reply: the DTO, or its exception message; an
   * IllegalArgumentException from below is reported as an invalid status too.
   */
  function ServiceReply(outcome: Result<CandidateDto, string>): (r: Reply)
    ensures outcome.Success? ==> r == Ok(outcome.value)
    ensures outcome.Failure? ==> r == BadRequest(if outcome.error == IllegalArgument then InvalidStatus else outcome.error)
  {
    match outcome
    case Success(d) => Ok(d)
    case Failure(e) => BadRequest(if e == IllegalArgument then InvalidStatus else e)
  }

  class CandidateController {
    const service: CandidateService

    constructor (service: CandidateService)
      ensures this.service == service
    {
      this.service := service;
    }

    /**
     * PUT /candidates/{candidateId}/interview-rounds/{interviewId}/status.  Without a usable
     * status the service is never called and the store is untouched.
     */
    method UpdateInterviewRoundStatus(candidateId: string, interviewId: string, statusUpdate: map<string, Option<string>>, now: Time)
      returns (r: Reply)
      requires service.Valid()
      modifies service
      ensures service.Valid()
      ensures var parsed := ParseStatusUpdate(statusUpdate);
        (parsed.Failure? ==> r == BadRequest(parsed.error) && service.repo == old(service.repo)) &&
        (parsed.Success? ==>
           var spec := RoundStatusSpec(old(service.repo), candidateId, Some(interviewId), Some(parsed.value), now);
           r == ServiceReply(Outcome(spec)) && service.repo == After(old(service.repo), candidateId, spec))
    {
      var parsed := ParseStatusUpdate(statusUpdate);
      if parsed.Failure? {
        return BadRequest(parsed.error);
      }
      var outcome := service.UpdateInterviewRoundStatus(candidateId, Some(interviewId), Some(parsed.value), now);
      r := ServiceReply(outcome);
    }

    /** PUT /candidates/{candidateId}/rounds/{roundIndex}/status, validated the same way. */
    method UpdateInterviewRoundStatusByIndex(candidateId: string, roundIndex: int, statusUpdate: map<string, Option<string>>, now: Time)
      returns (r: Reply)
      requires service.Valid() && IsInt(roundIndex)
      modifies service
      ensures service.Valid()
      ensures var parsed := ParseStatusUpdate(statusUpdate);
        (parsed.Failure? ==> r == BadRequest(parsed.error) && service.repo == old(service.repo)) &&
        (parsed.Success? ==>
           var spec := RoundStatusByIndexSpec(old(service.repo), candidateId, roundIndex, Some(parsed.value), now);
           r == ServiceReply(Outcome(spec)) && service.repo == After(old(service.repo), candidateId, spec))
    {
      var parsed := ParseStatusUpdate(statusUpdate);
      if parsed.Failure? {
        return BadRequest(parsed.error);
      }
      var outcome := service.UpdateInterviewRoundStatusByIndex(candidateId, roundIndex, Some(parsed.value), now);
      r := ServiceReply(outcome);
    }

    /** GET /candidates/stats over `getAllCandidates()`. */
    method GetCandidateStats() returns (s: CandidateStats)
      requires service.Valid()
      ensures s.totalCandidates == |service.repo|
      ensures s.toBeStarted + s.inProgress + s.selected + s.rejected <= s.totalCandidates
      ensures exists ds :: |ds| == |service.repo| && Stats(ds) == s &&
                (forall d :: d in ds <==> exists id :: id in service.repo && d == FromCandidate(service.repo[id]))
    {
      var ds := service.GetAllCandidates();
      s := Stats(ds);
      StatusCountsAddUp(ds);
    }
  }
}
