/**
 * The candidate DTOs: InterviewRoundDto and its two conversions, CandidateDto.fromCandidate,
 * and the page arithmetic of CandidateSearchResponse.of.
 */
module CandidateDtos {
  import opened Wrappers
  import opened JavaInt
  import opened Candidates

  datatype InterviewRoundDto = InterviewRoundDto(
    interviewType: Option<InterviewType>,
    scheduledAt: Option<Time>,
    status: Option<InterviewStatus>,
    interviewId: Option<string>,
    level: Option<InterviewLevel>,
    startedAt: Option<Time>,
    completedAt: Option<Time>)

  /** `InterviewRoundDto.fromInterviewRound`: all seven fields copied. */
  function FromInterviewRound(r: InterviewRound): (d: InterviewRoundDto)
    ensures d.interviewType == r.interviewType && d.scheduledAt == r.scheduledAt && d.status == r.status
    ensures d.interviewId == r.interviewId && d.level == r.level
    ensures d.startedAt == r.startedAt && d.completedAt == r.completedAt
  {
    InterviewRoundDto(r.interviewType, r.scheduledAt, r.status, r.interviewId, r.level, r.startedAt, r.completedAt)
  }

  /**
   * `toInterviewRound`: starts from `new InterviewRound()` and overwrites every field, so a
   * null status in the DTO replaces the TO_BE_STARTED default by null.
   */
  function ToInterviewRound(d: InterviewRoundDto): (r: InterviewRound)
    ensures d.status == None ==> r.status == None
  {
    NewInterviewRound()
      .(interviewType := d.interviewType, scheduledAt := d.scheduledAt, status := d.status,
        interviewId := d.interviewId, level := d.level, startedAt := d.startedAt, completedAt := d.completedAt)
  }

  /** `toInterviewRound(fromInterviewRound(r))` is `r`. */
  lemma RoundToDtoAndBack(r: InterviewRound)
    ensures ToInterviewRound(FromInterviewRound(r)) == r
  {
  }

  /** `fromInterviewRound(toInterviewRound(d))` is `d`. */
  lemma DtoToRoundAndBack(d: InterviewRoundDto)
    ensures FromInterviewRound(ToInterviewRound(d)) == d
  {
  }

  /** `list.stream().map(InterviewRoundDto::toInterviewRound).collect(toList())`. */
  function ToInterviewRounds(ds: seq<InterviewRoundDto>): (rs: seq<InterviewRound>)
    ensures |rs| == |ds| && forall i :: 0 <= i < |ds| ==> FromInterviewRound(rs[i]) == ds[i]
  {
    seq(|ds|, i requires 0 <= i < |ds| => ToInterviewRound(ds[i]))
  }

  function FromInterviewRounds(rs: seq<InterviewRound>): (ds: seq<InterviewRoundDto>)
    ensures |ds| == |rs| && forall i :: 0 <= i < |rs| ==> ToInterviewRound(ds[i]) == rs[i]
  {
    seq(|rs|, i requires 0 <= i < |rs| => FromInterviewRound(rs[i]))
  }

  /** Converting a list of DTOs to rounds and back gives the same list, and the other way round. */
  lemma {:induction false} RoundListsRoundTrip(ds: seq<InterviewRoundDto>, rs: seq<InterviewRound>)
    ensures FromInterviewRounds(ToInterviewRounds(ds)) == ds
    ensures ToInterviewRounds(FromInterviewRounds(rs)) == rs
  {
    var a := FromInterviewRounds(ToInterviewRounds(ds));
    assert |a| == |ds|;
    forall i | 0 <= i < |ds|
      ensures a[i] == ds[i]
    {
      DtoToRoundAndBack(ds[i]);
    }
    var b := ToInterviewRounds(FromInterviewRounds(rs));
    assert |b| == |rs|;
    forall i | 0 <= i < |rs|
      ensures b[i] == rs[i]
    {
      RoundToDtoAndBack(rs[i]);
    }
  }

  datatype CandidateDto = CandidateDto(
    id: Option<string>,
    firstName: Option<string>,
    lastName: Option<string>,
    email: Option<string>,
    jobProfile: Option<JobProfile>,
    jobLocation: Option<string>,
    interviewRounds: Option<seq<InterviewRoundDto>>,
    status: Option<CandidateStatus>,
    createdAt: Time,
    updatedAt: Time)
  {
    /** `CandidateDto.getFullName`. */
    function FullName(): string {
      Candidates.FullName(firstName, lastName)
    }
  }

  /** `CandidateDto.fromCandidate`: scalar fields copied, rounds mapped one-to-one in order. */
  function FromCandidate(c: Candidate): (d: CandidateDto)
    ensures d.id == c.id && d.firstName == c.firstName && d.lastName == c.lastName && d.email == c.email
    ensures d.jobProfile == c.jobProfile && d.jobLocation == c.jobLocation && d.status == c.status
    ensures d.createdAt == c.createdAt && d.updatedAt == c.updatedAt
    ensures d.interviewRounds.Some? && ToInterviewRounds(d.interviewRounds.value) == c.interviewRounds
  {
    var d := CandidateDto(c.id, c.firstName, c.lastName, c.email, c.jobProfile, c.jobLocation,
                          Some(FromInterviewRounds(c.interviewRounds)), c.status, c.createdAt, c.updatedAt);
    assert ToInterviewRounds(d.interviewRounds.value) == c.interviewRounds by {
      RoundListsRoundTrip([], c.interviewRounds);
    }
    d
  }

  /** The DTO's full name is the candidate's. */
  lemma FromCandidateFullName(c: Candidate)
    ensures FromCandidate(c).FullName() == Candidates.FullName(c.firstName, c.lastName)
  {
  }

  /** Nothing of the candidate is lost: two candidates with the same DTO are the same candidate. */
  lemma FromCandidateInjective(a: Candidate, b: Candidate)
    requires FromCandidate(a) == FromCandidate(b)
    ensures a == b
  {
  }

  /** `CandidateDto::fromCandidate` over a list. */
  function FromCandidates(cs: seq<Candidate>): (ds: seq<CandidateDto>)
    ensures |ds| == |cs| && forall i :: 0 <= i < |cs| ==> ds[i] == FromCandidate(cs[i])
  {
    seq(|cs|, i requires 0 <= i < |cs| => FromCandidate(cs[i]))
  }

  datatype CandidateSearchResponse = CandidateSearchResponse(
    candidates: seq<CandidateDto>,
    totalElements: int,
    totalPages: int,
    currentPage: int,
    pageSize: int,
    hasNext: bool,
    hasPrevious: bool)

  /** Below this magnitude a long converts to double exactly and the quotient's ceiling is exact. */
  const DoubleExact: int := 0x20_0000_0000_0000

  /**
   * `(int) Math.ceil((double) totalElements / pageSize)`.  A zero page size divides by 0.0:
   * a positive count gives +Infinity, which casts to MAX_VALUE, a negative one -Infinity
   * (MIN_VALUE), and zero gives NaN, which casts to 0.
   */
  function TotalPages(totalElements: int, pageSize: int): (r: int)
    requires -DoubleExact < totalElements < DoubleExact && IsInt(pageSize)
    ensures IsInt(r)
    ensures pageSize == 0 ==> r == (if totalElements > 0 then MaxInt else if totalElements < 0 then MinInt else 0)
  {
    if pageSize == 0 then
      (if totalElements > 0 then MaxInt else if totalElements < 0 then MinInt else 0)
    else
      Saturate(CeilDiv(totalElements, pageSize))
  }

  /** `CandidateSearchResponse.of`. */
  function Of(candidates: seq<CandidateDto>, totalElements: int, currentPage: int, pageSize: int): (r: CandidateSearchResponse)
    requires -DoubleExact < totalElements < DoubleExact && IsInt(currentPage) && IsInt(pageSize)
    ensures r.candidates == candidates && r.totalElements == totalElements
    ensures r.currentPage == currentPage && r.pageSize == pageSize
    ensures r.hasPrevious <==> currentPage > 0
    ensures r.totalPages == TotalPages(totalElements, pageSize)
  {
    var totalPages := TotalPages(totalElements, pageSize);
    CandidateSearchResponse(candidates, totalElements, totalPages, currentPage, pageSize,
                            currentPage < Wrap(totalPages - 1), currentPage > 0)
  }

  /**
   * For a positive page size and a count in int range: the page count is the ceiling of
   * count / size, `hasNext` means "a later page exists", and an empty result has no next page.
   */
  lemma OfPageArithmetic(candidates: seq<CandidateDto>, totalElements: int, currentPage: int, pageSize: int)
    requires 0 <= totalElements <= MaxInt && IsInt(currentPage) && 0 < pageSize <= MaxInt
    ensures var r := Of(candidates, totalElements, currentPage, pageSize);
      (r.totalPages - 1) * pageSize < totalElements <= r.totalPages * pageSize &&
      0 <= r.totalPages <= totalElements &&
      (r.hasNext <==> currentPage < r.totalPages - 1) &&
      (r.hasNext ==> (currentPage + 1) * pageSize < totalElements) &&
      (totalElements == 0 && currentPage >= -1 ==> !r.hasNext)
  {
    var q := CeilDiv(totalElements, pageSize);
    CeilDivInRange(totalElements, pageSize);
    var r := Of(candidates, totalElements, currentPage, pageSize);
    assert r.totalPages == q;
    if r.hasNext {
      MulMonotone(currentPage + 1, q - 1, pageSize);
    }
  }

  lemma MulMonotone(a: int, b: int, d: int)
    requires a <= b && 0 <= d
    ensures a * d <= b * d
  {
    assert b * d - a * d == (b - a) * d;
  }

  /** For a count `n >= 0` and a positive divisor the ceiling lies in [0, n]. */
  lemma CeilDivInRange(n: int, d: int)
    requires 0 <= n && 0 < d
    ensures 0 <= CeilDiv(n, d) <= n
  {
    var q := CeilDiv(n, d);
    if q < 0 {
      MulMonotone(q, -1, d);
    }
    if q > n {
      MulMonotone(n, q - 1, d);
      MulMonotone(1, d, n);
    }
  }
}
