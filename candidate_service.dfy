/**
 * CandidateService over its repository.  The repository is a map from document id to
 * candidate; `save` files a candidate under its id, the derived queries existsByEmail and
 * findByEmail look for a candidate whose email equals the given (possibly null) value, and
 * `findAll` lists the documents in an order the model leaves open.  Every mutating operation
 * is specified by a pure function of the repository before the call.
 */
module CandidateStore {
  import opened Wrappers
  import opened JavaInt
  import opened Candidates
  import opened CandidateDtos
  import opened CandidateRequests
  import opened CandidateFilter
  import opened CandidateSearch
  import opened CandidateRounds

  type Repo = map<string, Candidate>

  /** Each document carries its own id, and no two documents share an email (the unique index on `email`). */
  predicate ValidRepo(repo: Repo) {
    (forall id :: id in repo ==> repo[id].id == Some(id)) &&
    (forall a, b :: a in repo && b in repo && a != b ==> repo[a].email != repo[b].email)
  }

  /** `existsByEmail(email)`. */
  predicate EmailTaken(repo: Repo, email: Option<string>) {
    exists id :: id in repo && repo[id].email == email
  }

  function NotFound(id: string): string {
    "Candidate not found with id: " + id
  }

  function EmailExists(email: Option<string>): string {
    "Candidate with email " + JavaString(email) + " already exists"
  }

  /** `if (update != null) set(update)`. */
  function Overwrite<T>(update: Option<T>, current: Option<T>): (r: Option<T>)
    ensures update.Some? ==> r == update
    ensures update.None? ==> r == current
  {
    if update.Some? then update else current
  }

  /**
   * createCandidate: refused when the email is taken; otherwise a new candidate with the
   * request's fields (a null status included), the request's rounds when it has some, and
   * both timestamps set to `now`.
   */
  function CreateSpec(repo: Repo, req: CreateCandidateRequest, newId: string, now: Time): Result<Candidate, string> {
    if EmailTaken(repo, req.email) then Failure(EmailExists(req.email))
    else
      var blank := NewCandidate(now);
      var rounds := if req.interviewRounds.Some? && req.interviewRounds.value != []
                    then ToInterviewRounds(req.interviewRounds.value) else blank.interviewRounds;
      Success(blank.(id := Some(newId), firstName := req.firstName, lastName := req.lastName, email := req.email,
                     jobProfile := req.jobProfile, jobLocation := req.jobLocation, status := req.status,
                     interviewRounds := rounds, createdAt := now, updatedAt := now))
  }

  /**
   * Creation fails iff the email is taken; a created candidate carries the new id, the
   * request's fields, exactly the request's rounds (none for a null list) and `now` twice.
   */
  lemma CreateSpecMeaning(repo: Repo, req: CreateCandidateRequest, newId: string, now: Time)
    ensures CreateSpec(repo, req, newId, now).Failure? <==> EmailTaken(repo, req.email)
    ensures var r := CreateSpec(repo, req, newId, now);
      r.Success? ==>
        r.value.id == Some(newId) && r.value.email == req.email &&
        r.value.firstName == req.firstName && r.value.lastName == req.lastName &&
        r.value.jobProfile == req.jobProfile && r.value.jobLocation == req.jobLocation &&
        r.value.status == req.status && r.value.createdAt == now && r.value.updatedAt == now &&
        FromInterviewRounds(r.value.interviewRounds) == req.interviewRounds.GetOr([])
  {
    if req.interviewRounds.Some? {
      RoundListsRoundTrip(req.interviewRounds.value, []);
    }
  }

  /** Saving a created candidate under a fresh id keeps ids and emails consistent. */
  lemma CreateKeepsValid(repo: Repo, req: CreateCandidateRequest, newId: string, now: Time)
    requires ValidRepo(repo) && newId !in repo
    requires CreateSpec(repo, req, newId, now).Success?
    ensures ValidRepo(repo[newId := CreateSpec(repo, req, newId, now).value])
  {
  }

  /**
   * updateCandidate: refused for an unknown id, and for a new email held by another
   * candidate; otherwise every non-null field of the request replaces the stored one and
   * `updatedAt` becomes `now`.
   */
  function UpdateSpec(repo: Repo, id: string, req: UpdateCandidateRequest, now: Time): Result<Candidate, string> {
    if id !in repo then Failure(NotFound(id))
    else
      var c := repo[id];
      if req.email.Some? && req.email != c.email && EmailTaken(repo, req.email) then Failure(EmailExists(req.email))
      else
        Success(c.(email := Overwrite(req.email, c.email), firstName := Overwrite(req.firstName, c.firstName),
                   lastName := Overwrite(req.lastName, c.lastName), jobProfile := Overwrite(req.jobProfile, c.jobProfile),
                   jobLocation := Overwrite(req.jobLocation, c.jobLocation), status := Overwrite(req.status, c.status),
                   interviewRounds := if req.interviewRounds.Some? then ToInterviewRounds(req.interviewRounds.value) else c.interviewRounds,
                   updatedAt := now))
  }

  /**
   * In a consistent repository an update fails iff the id is unknown or the requested email
   * belongs to a different candidate; it never changes the id or `createdAt`.
   */
  lemma UpdateSpecMeaning(repo: Repo, id: string, req: UpdateCandidateRequest, now: Time)
    requires ValidRepo(repo)
    ensures UpdateSpec(repo, id, req, now).Failure? <==>
      id !in repo || (req.email.Some? && exists other :: other in repo && other != id && repo[other].email == req.email)
    ensures var r := UpdateSpec(repo, id, req, now);
      r.Success? ==>
        r.value.id == Some(id) && r.value.createdAt == repo[id].createdAt && r.value.updatedAt == now &&
        (req.email.Some? ==> r.value.email == req.email) && (req.email.None? ==> r.value.email == repo[id].email) &&
        (req.status.Some? ==> r.value.status == req.status) && (req.status.None? ==> r.value.status == repo[id].status) &&
        (req.interviewRounds.Some? ==> FromInterviewRounds(r.value.interviewRounds) == req.interviewRounds.value) &&
        (req.interviewRounds.None? ==> r.value.interviewRounds == repo[id].interviewRounds)
  {
    if req.interviewRounds.Some? {
      RoundListsRoundTrip(req.interviewRounds.value, []);
    }
  }

  /** An update keeps ids and emails consistent. */
  lemma UpdateKeepsValid(repo: Repo, id: string, req: UpdateCandidateRequest, now: Time)
    requires ValidRepo(repo) && UpdateSpec(repo, id, req, now).Success?
    ensures ValidRepo(repo[id := UpdateSpec(repo, id, req, now).value])
  {
  }

  /** A request with every field null only touches `updatedAt`. */
  lemma EmptyUpdateTouchesOnlyTime(repo: Repo, id: string, now: Time)
    requires id in repo
    ensures UpdateSpec(repo, id, UpdateCandidateRequest(None, None, None, None, None, None, None), now) ==
      Success(repo[id].(updatedAt := now))
  {
  }

  /** Repeating an update on its own result changes nothing more (up to the clock). */
  lemma UpdateIdempotent(repo: Repo, id: string, req: UpdateCandidateRequest, now: Time, later: Time)
    requires ValidRepo(repo) && UpdateSpec(repo, id, req, now).Success?
    ensures var c := UpdateSpec(repo, id, req, now).value;
      UpdateSpec(repo[id := c], id, req, later) == Success(c.(updatedAt := later))
  {
  }

  /** addInterviewRound: the round is appended to the candidate's rounds. */
  function AddRoundSpec(repo: Repo, id: string, round: InterviewRound, now: Time): Result<Candidate, string> {
    if id !in repo then Failure(NotFound(id))
    else Success(repo[id].(interviewRounds := repo[id].interviewRounds + [round], updatedAt := now))
  }

  /** An appended round with an interview id no earlier round carries is the one found by that id afterwards. */
  lemma AddedRoundIsFound(repo: Repo, id: string, round: InterviewRound, now: Time, interviewId: string)
    requires id in repo && round.interviewId == Some(interviewId)
    requires FirstRoundWithId(repo[id].interviewRounds, interviewId).None?
    ensures var r := AddRoundSpec(repo, id, round, now);
      r.Success? && FirstRoundWithId(r.value.interviewRounds, interviewId) == Some(|repo[id].interviewRounds|)
  {
    var rounds := AddRoundSpec(repo, id, round, now).value.interviewRounds;
    var found := FirstRoundWithId(rounds, interviewId);
    assert rounds[|repo[id].interviewRounds|].interviewId == Some(interviewId);
    assert found.Some?;
  }

  /** updateInterviewRoundStatus: load the candidate, then update the round found by interview id. */
  function RoundStatusSpec(repo: Repo, candidateId: string, interviewId: Option<string>,
                           status: Option<InterviewStatus>, now: Time): Result<Candidate, string> {
    if candidateId !in repo then Failure(NotFound(candidateId))
    else RoundStatusById(repo[candidateId], interviewId, status, now)
  }

  /** updateInterviewRoundStatusByIndex: load the candidate, then update the round at the index. */
  function RoundStatusByIndexSpec(repo: Repo, candidateId: string, roundIndex: int,
                                  status: Option<InterviewStatus>, now: Time): Result<Candidate, string> {
    if candidateId !in repo then Failure(NotFound(candidateId))
    else RoundStatusByIndex(repo[candidateId], roundIndex, status, now)
  }

  /** Round operations only touch rounds, status and `updatedAt`, so ids and emails stay consistent. */
  lemma RoundUpdateKeepsValid(repo: Repo, candidateId: string, interviewId: Option<string>,
                              status: Option<InterviewStatus>, now: Time)
    requires ValidRepo(repo)
    ensures var r := RoundStatusSpec(repo, candidateId, interviewId, status, now);
      r.Success? ==> ValidRepo(repo[candidateId := r.value])
  {
    if candidateId in repo && interviewId.Some? {
      var c := repo[candidateId];
      var i := FirstRoundWithId(c.interviewRounds, interviewId.value);
      if i.Some? {
        ApplyRoundStatusShape(c, i.value, status, now);
      }
    }
  }

  /** The same for the update by index. */
  lemma RoundUpdateByIndexKeepsValid(repo: Repo, candidateId: string, roundIndex: int,
                                     status: Option<InterviewStatus>, now: Time)
    requires ValidRepo(repo)
    ensures var r := RoundStatusByIndexSpec(repo, candidateId, roundIndex, status, now);
      r.Success? ==> ValidRepo(repo[candidateId := r.value])
  {
    if candidateId in repo && 0 <= roundIndex < |repo[candidateId].interviewRounds| {
      ApplyRoundStatusShape(repo[candidateId], roundIndex, status, now);
    }
  }

  /**
   * isUserOwnCandidate: false for an unknown id; a stored candidate without an email makes
   * `getEmail().equals(..)` throw; otherwise whether the emails are equal (never for a null user email).
   */
  function OwnsSpec(repo: Repo, userEmail: Option<string>, candidateId: string): (r: Result<bool, string>)
    ensures r.Failure? <==> candidateId in repo && repo[candidateId].email.None?
    ensures r == Success(true) <==> candidateId in repo && userEmail.Some? && repo[candidateId].email == userEmail
  {
    if candidateId !in repo then Success(false)
    else if repo[candidateId].email.None? then Failure(NullPointer)
    else Success(repo[candidateId].email == userEmail)
  }

  /** The HTTP-facing result of a mutating operation: the saved candidate as a DTO, or the exception. */
  function Outcome(spec: Result<Candidate, string>): (r: Result<CandidateDto, string>)
    ensures r.Success? <==> spec.Success?
    ensures r.Success? ==> r.value == FromCandidate(spec.value)
    ensures r.Failure? ==> r.error == spec.error
  {
    if spec.Success? then Success(FromCandidate(spec.value)) else Failure(spec.error)
  }

  /** The repository after a mutating operation: the candidate saved under `id`, or untouched. */
  function After(repo: Repo, id: string, spec: Result<Candidate, string>): Repo {
    if spec.Success? then repo[id := spec.value] else repo
  }

  // ----- findAll as a listing of the repository

  /** `all` lists every stored candidate exactly once, each filed under its own id. */
  ghost predicate ListsRepo(all: seq<Candidate>, repo: Repo) {
    |all| == |repo| &&
    (forall i :: 0 <= i < |all| ==> all[i].id.Some? && all[i].id.value in repo && repo[all[i].id.value] == all[i]) &&
    (forall i, j :: 0 <= i < j < |all| ==> all[i].id != all[j].id) &&
    (forall id :: id in repo ==> exists i :: 0 <= i < |all| && all[i].id == Some(id))
  }

  /** The loop of findAll so far: the ids not `left` are listed, once each, under their own id. */
  ghost predicate PartialListing(all: seq<Candidate>, left: set<string>, repo: Repo) {
    left <= repo.Keys && |all| + |left| == |repo.Keys| &&
    (forall i :: 0 <= i < |all| ==>
       all[i].id.Some? && all[i].id.value in repo && all[i].id.value !in left && repo[all[i].id.value] == all[i]) &&
    (forall i, j :: 0 <= i < j < |all| ==> all[i].id != all[j].id) &&
    (forall id :: id in repo && id !in left ==> exists i :: 0 <= i < |all| && all[i].id == Some(id))
  }

  lemma ListingStep(all: seq<Candidate>, left: set<string>, repo: Repo, id: string)
    requires ValidRepo(repo) && PartialListing(all, left, repo) && id in left
    ensures PartialListing(all + [repo[id]], left - {id}, repo)
  {
    var all' := all + [repo[id]];
    forall x | x in repo && x !in left - {id} ensures exists i :: 0 <= i < |all'| && all'[i].id == Some(x) {
      if x == id {
        assert all'[|all|].id == Some(x);
      } else {
        var i :| 0 <= i < |all| && all[i].id == Some(x);
        assert all'[i] == all[i];
      }
    }
  }

  lemma ListingDone(all: seq<Candidate>, repo: Repo)
    requires PartialListing(all, {}, repo)
    ensures ListsRepo(all, repo)
    ensures forall c :: c in all <==> c in repo.Values
  {
    forall c | c in repo.Values ensures c in all {
      var id :| id in repo && repo[id] == c;
      var i :| 0 <= i < |all| && all[i].id == Some(id);
    }
  }

  /** The ids of the candidates of a list that `accept` accepts. */
  ghost function AcceptedIds(all: seq<Candidate>, accept: Candidate -> Check): set<string> {
    if all == [] then {}
    else (if accept(all[0]) == Success(true) && all[0].id.Some? then {all[0].id.value} else {}) + AcceptedIds(all[1..], accept)
  }

  lemma {:induction false} AcceptedIdsMeaning(all: seq<Candidate>, accept: Candidate -> Check, id: string)
    ensures id in AcceptedIds(all, accept) <==>
              exists i :: 0 <= i < |all| && all[i].id == Some(id) && accept(all[i]) == Success(true)
  {
    if all != [] {
      var tail := all[1..];
      AcceptedIdsMeaning(tail, accept, id);
      if exists i :: 0 <= i < |all| && all[i].id == Some(id) && accept(all[i]) == Success(true) {
        var i :| 0 <= i < |all| && all[i].id == Some(id) && accept(all[i]) == Success(true);
        if i > 0 {
          assert tail[i - 1] == all[i];
        }
      }
      if exists i :: 0 <= i < |tail| && tail[i].id == Some(id) && accept(tail[i]) == Success(true) {
        var i :| 0 <= i < |tail| && tail[i].id == Some(id) && accept(tail[i]) == Success(true);
        assert all[i + 1] == tail[i];
      }
    }
  }

  /** Over a list whose ids are present and distinct, counting the accepted candidates counts their ids. */
  lemma {:induction false} AcceptedIdsCount(all: seq<Candidate>, accept: Candidate -> Check)
    requires forall i :: 0 <= i < |all| ==> all[i].id.Some?
    requires forall i, j :: 0 <= i < j < |all| ==> all[i].id != all[j].id
    ensures |AcceptedIds(all, accept)| == CountMatching(all, accept)
  {
    if all != [] {
      var tail := all[1..];
      forall i, j | 0 <= i < j < |tail| ensures tail[i].id != tail[j].id {
        assert tail[i] == all[i + 1] && tail[j] == all[j + 1];
      }
      forall i | 0 <= i < |tail| ensures tail[i].id.Some? {
        assert tail[i] == all[i + 1];
      }
      AcceptedIdsCount(tail, accept);
      var first := all[0].id.value;
      forall i | 0 <= i < |tail| ensures tail[i].id != Some(first) {
        assert tail[i] == all[i + 1];
      }
      AcceptedIdsMeaning(tail, accept, first);
    }
  }

  /**
   * Counting the matches in any listing of the repository gives the number of stored
   * candidates that match, whatever order findAll used.
   */
  lemma ListingCountsMatches(all: seq<Candidate>, repo: Repo, request: CandidateSearchRequest)
    requires ListsRepo(all, repo)
    ensures CountMatching(all, c => Matches(c, request)) ==
              |set id | id in repo && Matches(repo[id], request) == Success(true)|
  {
    var accept := c => Matches(c, request);
    AcceptedIdsCount(all, accept);
    var want := set id | id in repo && Matches(repo[id], request) == Success(true);
    forall id ensures id in AcceptedIds(all, accept) <==> id in want {
      AcceptedIdsMeaning(all, accept, id);
    }
    assert AcceptedIds(all, accept) == want;
  }

  class CandidateService {
    var repo: Repo

    predicate Valid()
      reads this
    {
      ValidRepo(repo)
    }

    constructor ()
      ensures Valid() && repo == map[]
    {
      repo := map[];
    }

    /** `findAll()`: every stored candidate once, in some order. */
    method FindAll() returns (all: seq<Candidate>)
      requires Valid()
      ensures ListsRepo(all, repo)
      ensures forall c :: c in all <==> c in repo.Values
    {
      all := [];
      var left := repo.Keys;
      while left != {}
        invariant PartialListing(all, left, repo)
        decreases |left|
      {
        var id :| id in left;
        ListingStep(all, left, repo, id);
        all := all + [repo[id]];
        left := left - {id};
      }
      ListingDone(all, repo);
    }

    method CreateCandidate(req: CreateCandidateRequest, newId: string, now: Time) returns (r: Result<CandidateDto, string>)
      requires Valid() && newId !in repo
      modifies this
      ensures Valid()
      ensures r == Outcome(CreateSpec(old(repo), req, newId, now))
      ensures repo == After(old(repo), newId, CreateSpec(old(repo), req, newId, now))
    {
      var spec := CreateSpec(repo, req, newId, now);
      if spec.Success? {
        CreateKeepsValid(repo, req, newId, now);
      }
      r := Save(newId, spec);
    }

    /** `candidateRepository.save` of a computed candidate, or nothing when the operation threw. */
    method Save(id: string, spec: Result<Candidate, string>) returns (r: Result<CandidateDto, string>)
      modifies this
      ensures r == Outcome(spec) && repo == After(old(repo), id, spec)
    {
      if spec.Success? {
        repo := repo[id := spec.value];
      }
      r := Outcome(spec);
    }

    /** getAllCandidates: one DTO per stored candidate. */
    method GetAllCandidates() returns (ds: seq<CandidateDto>)
      requires Valid()
      ensures |ds| == |repo|
      ensures forall d :: d in ds <==> exists id :: id in repo && d == FromCandidate(repo[id])
    {
      var all := FindAll();
      ds := FromCandidates(all);
      forall d | d in ds
        ensures exists id :: id in repo && d == FromCandidate(repo[id])
      {
        var i :| 0 <= i < |ds| && ds[i] == d;
        assert all[i] in repo.Values;
      }
      forall id | id in repo
        ensures FromCandidate(repo[id]) in ds
      {
        assert repo[id] in repo.Values;
        var i :| 0 <= i < |all| && all[i] == repo[id];
        assert ds[i] == FromCandidate(repo[id]);
      }
    }

    /** getCandidateById. */
    method GetCandidateById(id: string) returns (r: Option<CandidateDto>)
      requires Valid()
      ensures r.Some? <==> id in repo
      ensures r.Some? ==> r.value == FromCandidate(repo[id]) && r.value.id == Some(id)
    {
      if id in repo {
        r := Some(FromCandidate(repo[id]));
      } else {
        r := None;
      }
    }

    /** getCandidateByEmail: the one candidate with that email, if any. */
    method GetCandidateByEmail(email: Option<string>) returns (r: Option<CandidateDto>)
      requires Valid()
      ensures r.Some? <==> EmailTaken(repo, email)
      ensures r.Some? ==> r.value.email == email && exists id :: id in repo && r.value == FromCandidate(repo[id])
    {
      if EmailTaken(repo, email) {
        var id :| id in repo && repo[id].email == email;
        r := Some(FromCandidate(repo[id]));
      } else {
        r := None;
      }
    }

    method UpdateCandidate(id: string, req: UpdateCandidateRequest, now: Time) returns (r: Result<CandidateDto, string>)
      requires Valid()
      modifies this
      ensures Valid()
      ensures r == Outcome(UpdateSpec(old(repo), id, req, now))
      ensures repo == After(old(repo), id, UpdateSpec(old(repo), id, req, now))
    {
      var spec := UpdateSpec(repo, id, req, now);
      if spec.Success? {
        UpdateKeepsValid(repo, id, req, now);
      }
      r := Save(id, spec);
    }

    /** deleteCandidate: refused for an unknown id, otherwise the document is removed. */
    method DeleteCandidate(id: string) returns (r: Result<(), string>)
      requires Valid()
      modifies this
      ensures Valid()
      ensures id in old(repo) ==> r == Success(()) && repo == old(repo) - {id}
      ensures id !in old(repo) ==> r == Failure(NotFound(id)) && repo == old(repo)
    {
      if id !in repo {
        return Failure(NotFound(id));
      }
      repo := repo - {id};
      r := Success(());
    }

    /**
     * searchCandidates over `findAll()`.  The page holds at most `size` candidates, each a
     * stored candidate that matches the request, and the total counts the matches among all
     * stored candidates.
     */
    method SearchCandidates(request: CandidateSearchRequest, page: int, size: int, sortBy: string, sortDirection: string)
      returns (r: Result<CandidateSearchResponse, string>)
      requires Valid() && |repo| <= MaxInt && IsInt(page) && IsInt(size)
      ensures exists all :: ListsRepo(all, repo) && r == SearchSpec(all, request, page, size, sortBy, sortDirection)
      ensures r.Success? ==>
        r.value.totalElements == |set id | id in repo && Matches(repo[id], request) == Success(true)| &&
        |r.value.candidates| <= size &&
        r.value.currentPage == page && r.value.pageSize == size &&
        forall d :: d in r.value.candidates ==>
          exists id :: id in repo && Matches(repo[id], request) == Success(true) && d == FromCandidate(repo[id])
    {
      var all := FindAll();
      r := SearchSpec(all, request, page, size, sortBy, sortDirection);
      SearchMeaning(all, request, page, size, sortBy, sortDirection);
      ListingCountsMatches(all, repo, request);
      if r.Success? {
        forall d | d in r.value.candidates
          ensures exists id :: id in repo && Matches(repo[id], request) == Success(true) && d == FromCandidate(repo[id])
        {
          var c :| c in all && Matches(c, request) == Success(true) && d == FromCandidate(c);
          assert c in repo.Values;
        }
      }
    }

    method AddInterviewRound(candidateId: string, round: InterviewRound, now: Time) returns (r: Result<CandidateDto, string>)
      requires Valid()
      modifies this
      ensures Valid()
      ensures r == Outcome(AddRoundSpec(old(repo), candidateId, round, now))
      ensures repo == After(old(repo), candidateId, AddRoundSpec(old(repo), candidateId, round, now))
    {
      r := Save(candidateId, AddRoundSpec(repo, candidateId, round, now));
    }

    method UpdateInterviewRoundStatus(candidateId: string, interviewId: Option<string>, status: Option<InterviewStatus>, now: Time)
      returns (r: Result<CandidateDto, string>)
      requires Valid()
      modifies this
      ensures Valid()
      ensures r == Outcome(RoundStatusSpec(old(repo), candidateId, interviewId, status, now))
      ensures repo == After(old(repo), candidateId, RoundStatusSpec(old(repo), candidateId, interviewId, status, now))
    {
      RoundUpdateKeepsValid(repo, candidateId, interviewId, status, now);
      r := Save(candidateId, RoundStatusSpec(repo, candidateId, interviewId, status, now));
    }

    method UpdateInterviewRoundStatusByIndex(candidateId: string, roundIndex: int, status: Option<InterviewStatus>, now: Time)
      returns (r: Result<CandidateDto, string>)
      requires Valid() && IsInt(roundIndex)
      modifies this
      ensures Valid()
      ensures r == Outcome(RoundStatusByIndexSpec(old(repo), candidateId, roundIndex, status, now))
      ensures repo == After(old(repo), candidateId, RoundStatusByIndexSpec(old(repo), candidateId, roundIndex, status, now))
    {
      RoundUpdateByIndexKeepsValid(repo, candidateId, roundIndex, status, now);
      r := Save(candidateId, RoundStatusByIndexSpec(repo, candidateId, roundIndex, status, now));
    }

    method IsUserOwnCandidate(userEmail: Option<string>, candidateId: string) returns (r: Result<bool, string>)
      requires Valid()
      ensures r == OwnsSpec(repo, userEmail, candidateId)
    {
      r := OwnsSpec(repo, userEmail, candidateId);
    }
  }
}
