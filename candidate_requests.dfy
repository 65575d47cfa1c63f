/**
 * The request bodies of the candidate endpoints: plain data with the defaults of their
 * no-argument constructors.  Every Java reference field may be null.
 */
module CandidateRequests {
  import opened Wrappers
  import opened Candidates
  import opened CandidateDtos

  datatype CreateCandidateRequest = CreateCandidateRequest(
    firstName: Option<string>,
    lastName: Option<string>,
    email: Option<string>,
    jobProfile: Option<JobProfile>,
    jobLocation: Option<string>,
    interviewRounds: Option<seq<InterviewRoundDto>>,
    status: Option<CandidateStatus>)

  /** `new CreateCandidateRequest()`: an empty round list and status TO_BE_STARTED. */
  function NewCreateCandidateRequest(): (r: CreateCandidateRequest)
    ensures r.interviewRounds == Some([]) && r.status == Some(CandidateToBeStarted)
    ensures r.firstName == None && r.lastName == None && r.email == None
    ensures r.jobProfile == None && r.jobLocation == None
  {
    CreateCandidateRequest(None, None, None, None, None, Some([]), Some(CandidateToBeStarted))
  }

  datatype UpdateCandidateRequest = UpdateCandidateRequest(
    firstName: Option<string>,
    lastName: Option<string>,
    email: Option<string>,
    jobProfile: Option<JobProfile>,
    jobLocation: Option<string>,
    interviewRounds: Option<seq<InterviewRoundDto>>,
    status: Option<CandidateStatus>)

  datatype CandidateSearchRequest = CandidateSearchRequest(
    email: Option<string>,
    firstName: Option<string>,
    lastName: Option<string>,
    jobProfile: Option<JobProfile>,
    jobLocation: Option<string>,
    status: Option<CandidateStatus>,
    createdAfter: Option<Time>,
    createdBefore: Option<Time>,
    updatedAfter: Option<Time>,
    updatedBefore: Option<Time>,
    interviewType: Option<InterviewType>,
    interviewStatus: Option<InterviewStatus>,
    interviewLevel: Option<InterviewLevel>,
    scheduledAfter: Option<Time>,
    scheduledBefore: Option<Time>,
    jobProfiles: Option<seq<Option<JobProfile>>>,
    statuses: Option<seq<Option<CandidateStatus>>>,
    jobLocations: Option<seq<Option<string>>>,
    searchText: Option<string>)

  /** `new CandidateSearchRequest()`: every field null. */
  const EmptySearchRequest: CandidateSearchRequest :=
    CandidateSearchRequest(None, None, None, None, None, None, None, None, None, None,
                           None, None, None, None, None, None, None, None, None)
}
