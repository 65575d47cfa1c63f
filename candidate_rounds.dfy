/**
 * The interview-round rules of CandidateService: finding a round by its interview id,
 * setting a round's status with its timestamps, and deriving the candidate's status from
 * the statuses of all of its rounds (updateCandidateStatusBasedOnRounds).
 */
module CandidateRounds {
  import opened Wrappers
  import opened Text
  import opened Candidates
  import opened CandidateFilter

  /** Some round has status `s`. */
  predicate AnyRoundIs(rounds: seq<InterviewRound>, s: InterviewStatus) {
    exists i :: 0 <= i < |rounds| && rounds[i].status == Some(s)
  }

  /** Every round has status `s` (true of no rounds at all). */
  predicate AllRoundsAre(rounds: seq<InterviewRound>, s: InterviewStatus) {
    forall i :: 0 <= i < |rounds| ==> rounds[i].status == Some(s)
  }

  /** A round is decided once it is SELECTED or REJECTED. */
  predicate Decided(round: InterviewRound) {
    round.status == Some(Selected) || round.status == Some(Rejected)
  }

  predicate AllRoundsDecided(rounds: seq<InterviewRound>) {
    forall i :: 0 <= i < |rounds| ==> Decided(rounds[i])
  }

  /**
   * updateCandidateStatusBasedOnRounds: SELECTED once some round is selected and all are
   * decided, else REJECTED when all are rejected, else IN_PROGRESS when some round is in
   * progress; otherwise the current status stays.
   */
  function AggregateStatus(rounds: seq<InterviewRound>, current: Option<CandidateStatus>): Option<CandidateStatus> {
    if AnyRoundIs(rounds, Selected) && AllRoundsDecided(rounds) then Some(CandidateSelected)
    else if AllRoundsAre(rounds, Rejected) then Some(CandidateRejected)
    else if AnyRoundIs(rounds, InProgress) then Some(CandidateInProgress)
    else current
  }

  /** Once every round is decided the candidate is SELECTED iff some round was selected, else REJECTED. */
  lemma AllDecidedIsFinal(rounds: seq<InterviewRound>, current: Option<CandidateStatus>)
    requires rounds != [] && AllRoundsDecided(rounds)
    ensures AggregateStatus(rounds, current) == (if AnyRoundIs(rounds, Selected) then Some(CandidateSelected) else Some(CandidateRejected))
  {
    if !AnyRoundIs(rounds, Selected) {
      assert AllRoundsAre(rounds, Rejected);
    }
  }

  /**
   * While some round is undecided the candidate is neither SELECTED nor REJECTED by the rule:
   * it becomes IN_PROGRESS if a round is in progress and keeps its status otherwise.
   */
  lemma UndecidedIsOpen(rounds: seq<InterviewRound>, current: Option<CandidateStatus>, k: nat)
    requires k < |rounds| && !Decided(rounds[k])
    ensures AggregateStatus(rounds, current) == (if AnyRoundIs(rounds, InProgress) then Some(CandidateInProgress) else current)
  {
  }

  /** The derived status is the current one or one of IN_PROGRESS, SELECTED, REJECTED: never back to TO_BE_STARTED. */
  lemma AggregateNeverRestarts(rounds: seq<InterviewRound>, current: Option<CandidateStatus>)
    ensures var r := AggregateStatus(rounds, current);
      r == current || r in {Some(CandidateInProgress), Some(CandidateSelected), Some(CandidateRejected)}
  {
  }

  /** `stream().filter(round -> interviewId.equals(round.getInterviewId())).findFirst()` as an index. */
  function FirstRoundWithId(rounds: seq<InterviewRound>, interviewId: string): (r: Option<nat>)
    ensures r.Some? ==> r.value < |rounds| && rounds[r.value].interviewId == Some(interviewId) &&
                        forall j :: 0 <= j < r.value ==> rounds[j].interviewId != Some(interviewId)
    ensures r.None? ==> forall j :: 0 <= j < |rounds| ==> rounds[j].interviewId != Some(interviewId)
  {
    if rounds == [] then None
    else if rounds[0].interviewId == Some(interviewId) then Some(0)
    else
      match FirstRoundWithId(rounds[1..], interviewId)
      case None => None
      case Some(i) => Some(i + 1)
  }

  /**
   * The in-place update of round `i` to `status` at time `now`: IN_PROGRESS stamps `startedAt`
   * and moves a TO_BE_STARTED candidate to IN_PROGRESS; SELECTED or REJECTED stamps
   * `completedAt` and re-derives the candidate's status; any other status (TO_BE_STARTED or
   * null) is only stored.
   */
  function ApplyRoundStatus(c: Candidate, i: nat, status: Option<InterviewStatus>, now: Time): Candidate
    requires i < |c.interviewRounds|
  {
    var round := c.interviewRounds[i].(status := status);
    if status == Some(InProgress) then
      c.(interviewRounds := c.interviewRounds[i := round.(startedAt := Some(now))],
         status := if c.status == Some(CandidateToBeStarted) then Some(CandidateInProgress) else c.status)
    else if status == Some(Selected) || status == Some(Rejected) then
      var rounds := c.interviewRounds[i := round.(completedAt := Some(now))];
      c.(interviewRounds := rounds, status := AggregateStatus(rounds, c.status))
    else
      c.(interviewRounds := c.interviewRounds[i := round])
  }

  /**
   * Only round `i` changes, and it gets the new status; the candidate's identity, contact data
   * and timestamps are untouched.
   */
  lemma ApplyRoundStatusShape(c: Candidate, i: nat, status: Option<InterviewStatus>, now: Time)
    requires i < |c.interviewRounds|
    ensures var d := ApplyRoundStatus(c, i, status, now);
      |d.interviewRounds| == |c.interviewRounds| &&
      d.interviewRounds[i].status == status &&
      d.interviewRounds[i].interviewId == c.interviewRounds[i].interviewId &&
      d.interviewRounds[i].interviewType == c.interviewRounds[i].interviewType &&
      d.interviewRounds[i].scheduledAt == c.interviewRounds[i].scheduledAt &&
      d.interviewRounds[i].level == c.interviewRounds[i].level &&
      (forall j :: 0 <= j < |c.interviewRounds| && j != i ==> d.interviewRounds[j] == c.interviewRounds[j]) &&
      d.id == c.id && d.email == c.email && d.firstName == c.firstName && d.lastName == c.lastName &&
      d.jobProfile == c.jobProfile && d.jobLocation == c.jobLocation &&
      d.createdAt == c.createdAt && d.updatedAt == c.updatedAt
  {
  }

  /** Starting a round stamps its start; deciding it stamps its completion; other updates stamp nothing. */
  lemma ApplyRoundStatusTimes(c: Candidate, i: nat, status: Option<InterviewStatus>, now: Time)
    requires i < |c.interviewRounds|
    ensures var d := ApplyRoundStatus(c, i, status, now).interviewRounds[i];
      var before := c.interviewRounds[i];
      d.startedAt == (if status == Some(InProgress) then Some(now) else before.startedAt) &&
      d.completedAt == (if status == Some(Selected) || status == Some(Rejected) then Some(now) else before.completedAt)
  {
  }

  /** Starting a round moves a candidate that had not started to IN_PROGRESS and leaves any other status. */
  lemma StartingPromotes(c: Candidate, i: nat, now: Time)
    requires i < |c.interviewRounds|
    ensures ApplyRoundStatus(c, i, Some(InProgress), now).status ==
      (if c.status == Some(CandidateToBeStarted) then Some(CandidateInProgress) else c.status)
  {
  }

  /**
   * Deciding the last undecided round settles the candidate: SELECTED iff some round (this one
   * or an earlier one) was selected, REJECTED otherwise.
   */
  lemma DecidingLastRoundSettles(c: Candidate, i: nat, status: Option<InterviewStatus>, now: Time)
    requires i < |c.interviewRounds| && (status == Some(Selected) || status == Some(Rejected))
    requires forall j :: 0 <= j < |c.interviewRounds| && j != i ==> Decided(c.interviewRounds[j])
    ensures var d := ApplyRoundStatus(c, i, status, now);
      d.status == (if status == Some(Selected) || exists j :: 0 <= j < |c.interviewRounds| && j != i && c.interviewRounds[j].status == Some(Selected)
                   then Some(CandidateSelected) else Some(CandidateRejected))
  {
    var d := ApplyRoundStatus(c, i, status, now);
    ApplyRoundStatusShape(c, i, status, now);
    assert AllRoundsDecided(d.interviewRounds);
    AllDecidedIsFinal(d.interviewRounds, c.status);
    if exists j :: 0 <= j < |c.interviewRounds| && j != i && c.interviewRounds[j].status == Some(Selected) {
      var j :| 0 <= j < |c.interviewRounds| && j != i && c.interviewRounds[j].status == Some(Selected);
      assert d.interviewRounds[j].status == Some(Selected);
    }
  }

  /** No round update sends a candidate back to TO_BE_STARTED or to null. */
  lemma RoundUpdateNeverRestarts(c: Candidate, i: nat, status: Option<InterviewStatus>, now: Time)
    requires i < |c.interviewRounds|
    ensures var s := ApplyRoundStatus(c, i, status, now).status;
      s == c.status || s in {Some(CandidateInProgress), Some(CandidateSelected), Some(CandidateRejected)}
  {
    if status == Some(Selected) || status == Some(Rejected) {
      var rounds := ApplyRoundStatus(c, i, status, now).interviewRounds;
      AggregateNeverRestarts(rounds, c.status);
    }
  }

  const RoundNotFoundPrefix := "Interview round not found with id: "
  const InvalidIndexPrefix := "Invalid round index: "

  /**
   * updateInterviewRoundStatus on a loaded candidate.  A null `interviewId` throws on the first
   * round it is compared with; with no rounds nothing is compared and the round is not found.
   */
  function RoundStatusById(c: Candidate, interviewId: Option<string>, status: Option<InterviewStatus>, now: Time)
    : Result<Candidate, string>
  {
    if interviewId.None? then
      (if c.interviewRounds != [] then Failure(NullPointer) else Failure(RoundNotFoundPrefix + "null"))
    else
      match FirstRoundWithId(c.interviewRounds, interviewId.value)
      case None => Failure(RoundNotFoundPrefix + interviewId.value)
      case Some(i) => Success(ApplyRoundStatus(c, i, status, now).(updatedAt := now))
  }

  /** updateInterviewRoundStatusByIndex on a loaded candidate. */
  function RoundStatusByIndex(c: Candidate, roundIndex: int, status: Option<InterviewStatus>, now: Time)
    : Result<Candidate, string>
  {
    if roundIndex < 0 || roundIndex >= |c.interviewRounds| then Failure(InvalidIndexPrefix + IntToString(roundIndex))
    else Success(ApplyRoundStatus(c, roundIndex, status, now).(updatedAt := now))
  }

  /**
   * Updating by interview id is updating by the index of the first round carrying that id;
   * it fails exactly when no round carries it (or, with rounds, the id is null).
   */
  lemma ByIdIsByFirstIndex(c: Candidate, interviewId: string, status: Option<InterviewStatus>, now: Time)
    ensures RoundStatusById(c, Some(interviewId), status, now).Failure? <==>
      forall j :: 0 <= j < |c.interviewRounds| ==> c.interviewRounds[j].interviewId != Some(interviewId)
    ensures var i := FirstRoundWithId(c.interviewRounds, interviewId);
      i.Some? ==> RoundStatusById(c, Some(interviewId), status, now) == RoundStatusByIndex(c, i.value, status, now)
  {
  }

  /** An index outside the list is rejected, one inside it always succeeds. */
  lemma ByIndexFailsOnlyOutside(c: Candidate, roundIndex: int, status: Option<InterviewStatus>, now: Time)
    ensures RoundStatusByIndex(c, roundIndex, status, now).Failure? <==> !(0 <= roundIndex < |c.interviewRounds|)
    ensures RoundStatusByIndex(c, roundIndex, status, now).Success? ==> RoundStatusByIndex(c, roundIndex, status, now).value.updatedAt == now
  {
  }
}
