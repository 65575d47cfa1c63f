/**
 * CandidateService.searchCandidates as a function of the repository's `findAll()` list:
 * filter, sort, slice one page with int arithmetic, convert to DTOs and wrap in
 * CandidateSearchResponse.of.  Any exception along the way is the search's result.
 */
module CandidateSearch {
  import opened Wrappers
  import opened JavaInt
  import opened Candidates
  import opened CandidateDtos
  import opened CandidateRequests
  import opened CandidateFilter
  import opened CandidateSort
  import Text

  const IndexOutOfBounds := "IndexOutOfBoundsException"
  const IllegalArgument := "IllegalArgumentException"

  /**
   * `stream().filter(accept)` where `accept` may throw: the kept elements in order, or the
   * first exception.  The search passes `c -> matchesSearchCriteria(c, r)`.
   */
  function FilterCandidates(cs: seq<Candidate>, accept: Candidate -> Check): (res: Result<seq<Candidate>, string>)
    ensures res.Success? ==> |res.value| <= |cs|
  {
    if cs == [] then Success([])
    else
      var head := accept(cs[0]);
      if head.Failure? then Failure(head.error)
      else
        var rest :- FilterCandidates(cs[1..], accept);
        Success(if head.value then [cs[0]] + rest else rest)
  }

  /** The number of elements `accept` accepts. */
  function CountMatching(cs: seq<Candidate>, accept: Candidate -> Check): nat {
    if cs == [] then 0 else (if accept(cs[0]) == Success(true) then 1 else 0) + CountMatching(cs[1..], accept)
  }

  /** No more elements are accepted than there are. */
  lemma {:induction false} CountMatchingBound(cs: seq<Candidate>, accept: Candidate -> Check)
    ensures CountMatching(cs, accept) <= |cs|
    decreases |cs|
  {
    if cs != [] {
      CountMatchingBound(cs[1..], accept);
    }
  }

  /** The filter fails iff some element throws. */
  lemma {:induction false} FilterFailure(cs: seq<Candidate>, accept: Candidate -> Check)
    ensures FilterCandidates(cs, accept).Failure? <==> exists i :: 0 <= i < |cs| && accept(cs[i]).Failure?
    decreases |cs|
  {
    if cs != [] {
      FilterFailure(cs[1..], accept);
      assert forall i :: 1 <= i < |cs| ==> cs[i] == cs[1..][i - 1];
    }
  }

  /** A completed filter keeps exactly the accepted elements, as many as `accept` accepts. */
  lemma {:induction false} FilterMeaning(cs: seq<Candidate>, accept: Candidate -> Check)
    ensures var res := FilterCandidates(cs, accept);
      res.Success? ==>
        |res.value| == CountMatching(cs, accept) &&
        multiset(res.value) <= multiset(cs) &&
        (forall c :: c in res.value <==> c in cs && accept(c) == Success(true))
    decreases |cs|
  {
    if cs != [] {
      var res := FilterCandidates(cs, accept);
      if res.Success? {
        FilterMeaning(cs[1..], accept);
        assert cs == [cs[0]] + cs[1..];
        forall c | c in cs && accept(c) == Success(true)
          ensures c in res.value
        {
          if c != cs[0] {
            assert c in cs[1..];
          }
        }
      }
    }
  }

  /** A filter that accepts everything keeps the whole list. */
  lemma {:induction false} AcceptAllKeepsAll(cs: seq<Candidate>, accept: Candidate -> Check)
    requires forall c :: c in cs ==> accept(c) == Success(true)
    ensures FilterCandidates(cs, accept) == Success(cs)
    ensures CountMatching(cs, accept) == |cs|
    decreases |cs|
  {
    if cs != [] {
      assert cs[0] in cs;
      assert forall c :: c in cs[1..] ==> c in cs;
      AcceptAllKeepsAll(cs[1..], accept);
      assert cs == [cs[0]] + cs[1..];
    }
  }

  /**
   * `startIndex = page * size` and `endIndex = Math.min(startIndex + size, n)` in int
   * arithmetic, then the range checks of `subList(startIndex, endIndex)`.
   */
  function PageBounds(n: nat, page: int, size: int): (res: Result<(int, int), string>)
    requires n <= MaxInt && IsInt(page) && IsInt(size)
    ensures res.Success? ==> 0 <= res.value.0 <= res.value.1 <= n
  {
    var startIndex := Wrap(page * size);
    var sum := Wrap(startIndex + size);
    var endIndex := if sum < n then sum else n;
    if startIndex < 0 || endIndex > n then Failure(IndexOutOfBounds)
    else if startIndex > endIndex then Failure(IllegalArgument)
    else Success((startIndex, endIndex))
  }

  /**
   * Without int overflow the page is `[page*size, min(page*size+size, n))`, so it holds at most
   * `size` elements; a start beyond the end of the list raises.
   */
  lemma PageBoundsMeaning(n: nat, page: int, size: int)
    requires n <= MaxInt && IsInt(page) && IsInt(size)
    ensures var res := PageBounds(n, page, size);
      res.Success? ==> res.value.1 - res.value.0 <= size
    ensures IsInt(page * size) && IsInt(page * size + size) && 0 <= page * size <= n ==>
      PageBounds(n, page, size) == (if page * size + size < page * size then Failure(IllegalArgument)
                                    else Success((page * size, if page * size + size < n then page * size + size else n)))
    ensures IsInt(page * size) && page * size > n ==> PageBounds(n, page, size).Failure?
  {
    var startIndex := Wrap(page * size);
    var sum := Wrap(startIndex + size);
    if 0 <= startIndex && sum != startIndex + size {
      assert startIndex + size > MaxInt;
      assert sum == startIndex + size - 0x1_0000_0000;
    }
  }

  /** The sorted matches, sliced to the requested page. */
  function SearchPage(filtered: seq<Candidate>, page: int, size: int, sortBy: string, sortDirection: string)
    : Result<(seq<Candidate>, nat), string>
    requires |filtered| <= MaxInt && IsInt(page) && IsInt(size)
  {
    var sorted :- ApplySorting(filtered, sortBy, sortDirection);
    var bounds :- PageBounds(|sorted|, page, size);
    Success((sorted[bounds.0..bounds.1], |sorted|))
  }

  /** A page holds at most `size` of the candidates it was cut from, and the total is their number. */
  lemma SearchPageMeaning(filtered: seq<Candidate>, page: int, size: int, sortBy: string, sortDirection: string)
    requires |filtered| <= MaxInt && IsInt(page) && IsInt(size)
    ensures var res := SearchPage(filtered, page, size, sortBy, sortDirection);
      res.Success? ==> res.value.1 == |filtered| && |res.value.0| <= size && multiset(res.value.0) <= multiset(filtered)
  {
    var res := SearchPage(filtered, page, size, sortBy, sortDirection);
    if res.Success? {
      ApplySortingMeaning(filtered, sortBy, sortDirection);
      var sorted := ApplySorting(filtered, sortBy, sortDirection).value;
      assert |sorted| == |multiset(sorted)| == |filtered|;
      PageBoundsMeaning(|sorted|, page, size);
      var bounds := PageBounds(|sorted|, page, size).value;
      SliceWithin(sorted, bounds.0, bounds.1);
    }
  }

  lemma SliceWithin(s: seq<Candidate>, i: int, j: int)
    requires 0 <= i <= j <= |s|
    ensures multiset(s[i..j]) <= multiset(s)
  {
    assert s == s[..i] + s[i..j] + s[j..];
  }

  /** The whole search over the repository's `findAll()` list. */
  function SearchSpec(all: seq<Candidate>, r: CandidateSearchRequest, page: int, size: int,
                      sortBy: string, sortDirection: string): Result<CandidateSearchResponse, string>
    requires |all| <= MaxInt && IsInt(page) && IsInt(size)
  {
    var filtered :- FilterCandidates(all, c => Matches(c, r));
    var paged :- SearchPage(filtered, page, size, sortBy, sortDirection);
    Success(Of(FromCandidates(paged.0), paged.1, page, size))
  }

  /**
   * A completed search reports the number of matching candidates as `totalElements`, and its
   * page has at most `size` candidates, each of them a match.
   */
  lemma SearchMeaning(all: seq<Candidate>, r: CandidateSearchRequest, page: int, size: int,
                      sortBy: string, sortDirection: string)
    requires |all| <= MaxInt && IsInt(page) && IsInt(size)
    ensures var res := SearchSpec(all, r, page, size, sortBy, sortDirection);
      res.Success? ==>
        res.value.totalElements == CountMatching(all, c => Matches(c, r)) &&
        |res.value.candidates| <= size &&
        res.value.currentPage == page && res.value.pageSize == size &&
        (forall d :: d in res.value.candidates ==> exists c :: c in all && Matches(c, r) == Success(true) && d == FromCandidate(c))
  {
    var accept := c => Matches(c, r);
    FilterMeaning(all, accept);
    var res := SearchSpec(all, r, page, size, sortBy, sortDirection);
    if res.Success? {
      var filtered := FilterCandidates(all, accept).value;
      SearchPageMeaning(filtered, page, size, sortBy, sortDirection);
      var window := SearchPage(filtered, page, size, sortBy, sortDirection).value.0;
      forall d | d in res.value.candidates
        ensures exists c :: c in all && Matches(c, r) == Success(true) && d == FromCandidate(c)
      {
        var i :| 0 <= i < |window| && FromCandidates(window)[i] == d;
        assert window[i] in multiset(filtered);
        assert accept(window[i]) == Success(true);
      }
    }
  }

  /**
   * With no filter and the default sort key, the first page of any size up to the number of
   * candidates is full, reports every candidate, and has no previous page.
   */
  lemma EmptyFilterFirstPage(all: seq<Candidate>, size: int, sortDirection: string)
    requires 0 < size <= |all| <= MaxInt
    ensures var res := SearchSpec(all, EmptySearchRequest, 0, size, "createdAt", sortDirection);
      res.Success? && res.value.totalElements == |all| && |res.value.candidates| == size && !res.value.hasPrevious
  {
    EmptyFilterKeepsAll(all);
    DefaultPageOfAll(all, size, sortDirection);
  }

  /** The empty request keeps every candidate, in order. */
  lemma EmptyFilterKeepsAll(all: seq<Candidate>)
    ensures FilterCandidates(all, c => Matches(c, EmptySearchRequest)) == Success(all)
  {
    var accept := c => Matches(c, EmptySearchRequest);
    forall c | c in all
      ensures accept(c) == Success(true)
    {
      EmptyRequestAcceptsAll(c);
    }
    AcceptAllKeepsAll(all, accept);
  }

  /**
   * Sorting by the default key never throws, whatever the direction, and the first page of
   * any size up to the number of candidates is full.
   */
  lemma DefaultPageOfAll(all: seq<Candidate>, size: int, sortDirection: string)
    requires 0 < size <= |all| <= MaxInt
    ensures var res := SearchPage(all, 0, size, "createdAt", sortDirection);
      res.Success? && res.value.1 == |all| && |res.value.0| == size
  {
    assert Text.Lower("createdAt") == "createdat";
    assert AllHaveKey(ByCreatedAt, all);
    ApplySortingMeaning(all, "createdAt", sortDirection);
    var sorted := ApplySorting(all, "createdAt", sortDirection).value;
    assert |sorted| == |multiset(sorted)| == |all|;
    PageBoundsMeaning(|sorted|, 0, size);
    assert PageBounds(|sorted|, 0, size) == Success((0, size));
  }
}
