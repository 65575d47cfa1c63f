/**
 * The candidate document (model/Candidate.java): a candidate with its interview rounds,
 * the enums they use, and the field defaults of `new Candidate()` and `new InterviewRound()`.
 *
 * Java fields that may hold null are `Option`s.  `interviewRounds` is a plain sequence: its
 * initialiser makes it an empty list and no code in the core ever stores null there.  The two
 * timestamps are plain integers: the initialisers set them to the current time and the core
 * only ever overwrites them with the current time.
 */
module Candidates {
  import opened Wrappers

  datatype JobProfile = SDE1 | SDE2

  datatype CandidateStatus = CandidateToBeStarted | CandidateInProgress | CandidateSelected | CandidateRejected

  datatype InterviewType = ProblemSolving | LLD | HLD | Behavioral | HR

  datatype InterviewStatus = ToBeStarted | InProgress | Selected | Rejected

  datatype InterviewLevel = Easy | Medium | Hard

  /** A `LocalDateTime`, as a count of some fixed unit since some fixed instant. */
  type Time = int

  datatype InterviewRound = InterviewRound(
    interviewType: Option<InterviewType>,
    scheduledAt: Option<Time>,
    status: Option<InterviewStatus>,
    interviewId: Option<string>,
    level: Option<InterviewLevel>,
    startedAt: Option<Time>,
    completedAt: Option<Time>)

  datatype Candidate = Candidate(
    id: Option<string>,
    firstName: Option<string>,
    lastName: Option<string>,
    email: Option<string>,
    jobProfile: Option<JobProfile>,
    jobLocation: Option<string>,
    interviewRounds: seq<InterviewRound>,
    status: Option<CandidateStatus>,
    createdAt: Time,
    updatedAt: Time)

  /** `new InterviewRound()`: every field null except the status. */
  function NewInterviewRound(): (r: InterviewRound)
    ensures r.status == Some(ToBeStarted)
    ensures r.interviewType == None && r.scheduledAt == None && r.interviewId == None
    ensures r.level == None && r.startedAt == None && r.completedAt == None
  {
    InterviewRound(None, None, Some(ToBeStarted), None, None, None, None)
  }

  /** `new Candidate()` at time `now`: no rounds, status TO_BE_STARTED, both stamps `now`. */
  function NewCandidate(now: Time): (c: Candidate)
    ensures c.status == Some(CandidateToBeStarted) && c.interviewRounds == []
    ensures c.createdAt == now && c.updatedAt == now
    ensures c.id == None && c.firstName == None && c.lastName == None && c.email == None
    ensures c.jobProfile == None && c.jobLocation == None
  {
    Candidate(None, None, None, None, None, None, [], Some(CandidateToBeStarted), now, now)
  }

  /** Java's rendering of a possibly-null string in a concatenation. */
  function JavaString(s: Option<string>): string {
    s.GetOr("null")
  }

  /**
   * `firstName + " " + lastName`, shared by the candidate, its DTO and the user DTO;
   * a null name renders as "null", as Java's string concatenation does.
   */
  function FullName(firstName: Option<string>, lastName: Option<string>): (r: string)
    ensures |r| == |JavaString(firstName)| + 1 + |JavaString(lastName)|
    ensures r[..|JavaString(firstName)|] == JavaString(firstName)
    ensures r[|JavaString(firstName)|] == ' '
    ensures r[|JavaString(firstName)| + 1..] == JavaString(lastName)
  {
    JavaString(firstName) + " " + JavaString(lastName)
  }

  /** A first name without spaces is recovered from the full name as the text before the first space. */
  lemma FullNameSplits(firstName: string, lastName: Option<string>)
    requires forall i :: 0 <= i < |firstName| ==> firstName[i] != ' '
    ensures var r := FullName(Some(firstName), lastName);
      FirstSpace(r) == Some(|firstName|) && r[..|firstName|] == firstName && r[|firstName| + 1..] == JavaString(lastName)
  {
    var r := FullName(Some(firstName), lastName);
    FirstSpaceFrom(r, 0, |firstName|);
  }

  /** The index of the first space in `s`, if any. */
  function FirstSpace(s: string): (r: Option<nat>)
    ensures r.Some? ==> r.value < |s| && s[r.value] == ' ' && forall j :: 0 <= j < r.value ==> s[j] != ' '
    ensures r.None? ==> forall j :: 0 <= j < |s| ==> s[j] != ' '
  {
    FirstSpaceAfter(s, 0)
  }

  function FirstSpaceAfter(s: string, from: nat): (r: Option<nat>)
    requires from <= |s|
    requires forall j :: 0 <= j < from ==> s[j] != ' '
    ensures r.Some? ==> from <= r.value < |s| && s[r.value] == ' ' && forall j :: 0 <= j < r.value ==> s[j] != ' '
    ensures r.None? ==> forall j :: 0 <= j < |s| ==> s[j] != ' '
    decreases |s| - from
  {
    if from == |s| then None
    else if s[from] == ' ' then Some(from)
    else FirstSpaceAfter(s, from + 1)
  }

  lemma {:induction false} FirstSpaceFrom(s: string, from: nat, k: nat)
    requires from <= k < |s| && s[k] == ' '
    requires forall j :: 0 <= j < k ==> s[j] != ' '
    ensures FirstSpaceAfter(s, from) == Some(k)
    decreases k - from
  {
    if from < k {
      FirstSpaceFrom(s, from + 1, k);
    }
  }

  /** `Enum.ordinal()` of the two status enums. */
  function CandidateStatusOrdinal(s: CandidateStatus): nat {
    match s
    case CandidateToBeStarted => 0
    case CandidateInProgress => 1
    case CandidateSelected => 2
    case CandidateRejected => 3
  }

  function InterviewStatusOrdinal(s: InterviewStatus): nat {
    match s
    case ToBeStarted => 0
    case InProgress => 1
    case Selected => 2
    case Rejected => 3
  }

  /** The round status a candidate status corresponds to (same name). */
  function AsInterviewStatus(s: CandidateStatus): (r: InterviewStatus)
    ensures InterviewStatusOrdinal(r) == CandidateStatusOrdinal(s)
    ensures InterviewStatusName(r) == CandidateStatusName(s)
  {
    match s
    case CandidateToBeStarted => ToBeStarted
    case CandidateInProgress => InProgress
    case CandidateSelected => Selected
    case CandidateRejected => Rejected
  }

  /** The two enums have the same four values in the same order: the correspondence is a bijection. */
  lemma StatusEnumsAlign(s: CandidateStatus, t: CandidateStatus, u: InterviewStatus)
    ensures AsInterviewStatus(s) == AsInterviewStatus(t) ==> s == t
    ensures exists v :: AsInterviewStatus(v) == u
    ensures CandidateStatusOrdinal(s) < 4 && InterviewStatusOrdinal(u) < 4
  {
    match u
    case ToBeStarted => assert AsInterviewStatus(CandidateToBeStarted) == u;
    case InProgress => assert AsInterviewStatus(CandidateInProgress) == u;
    case Selected => assert AsInterviewStatus(CandidateSelected) == u;
    case Rejected => assert AsInterviewStatus(CandidateRejected) == u;
  }

  /** `Enum.name()`. */
  function CandidateStatusName(s: CandidateStatus): string {
    match s
    case CandidateToBeStarted => "TO_BE_STARTED"
    case CandidateInProgress => "IN_PROGRESS"
    case CandidateSelected => "SELECTED"
    case CandidateRejected => "REJECTED"
  }

  function InterviewStatusName(s: InterviewStatus): string {
    match s
    case ToBeStarted => "TO_BE_STARTED"
    case InProgress => "IN_PROGRESS"
    case Selected => "SELECTED"
    case Rejected => "REJECTED"
  }

  /** `InterviewStatus.valueOf(name)`: exact, case-sensitive; None where Java throws IllegalArgumentException. */
  function ParseInterviewStatus(name: string): (r: Option<InterviewStatus>)
    ensures r.Some? ==> InterviewStatusName(r.value) == name
    ensures forall s :: InterviewStatusName(s) == name ==> r == Some(s)
  {
    if name == "TO_BE_STARTED" then Some(ToBeStarted)
    else if name == "IN_PROGRESS" then Some(InProgress)
    else if name == "SELECTED" then Some(Selected)
    else if name == "REJECTED" then Some(Rejected)
    else None
  }

  function JobProfileOrdinal(p: JobProfile): nat {
    match p
    case SDE1 => 0
    case SDE2 => 1
  }
}
