/**
 * The candidate list of the vote page: candidates ranked by their votes,
 * narrowed by the search text, their vote total, the candidate that gained
 * most in the last cycle, and the sign shown next to a vote change.
 */
module Ranking {
  import opened Wrappers
  import opened Text

  /** A super representative as the vote list reports it. */
  datatype Candidate = Candidate(
    address: string,
    name: string,
    url: string,
    votes: int,
    changeDay: int,
    changeCycle: int)

  /** A candidate with its `rank`, its position in the ranked list. */
  datatype RankedCandidate = RankedCandidate(candidate: Candidate, rank: nat)

  /** xs is ordered by non-increasing key. */
  predicate SortedDesc<T>(xs: seq<T>, key: T -> int)
  {
    forall i, j :: 0 <= i < j < |xs| ==> key(xs[i]) >= key(xs[j])
  }

  /**
   * Puts x in front of the first element whose key is not larger than its
   * own, so that x comes before the elements of equal key that follow it.
   */
  function Insert<T>(x: T, xs: seq<T>, key: T -> int): (r: seq<T>)
    ensures multiset(r) == multiset(xs) + multiset{x}
    ensures |r| == |xs| + 1
  {
    if xs == [] || key(xs[0]) <= key(x) then
      [x] + xs
    else
      assert xs == [xs[0]] + xs[1..];
      [xs[0]] + Insert(x, xs[1..], key)
  }

  /** Inserting into a sorted list keeps it sorted. */
  lemma {:induction false} InsertSorted<T>(x: T, xs: seq<T>, key: T -> int)
    requires SortedDesc(xs, key)
    ensures SortedDesc(Insert(x, xs, key), key)
  {
    if xs == [] || key(xs[0]) <= key(x) {
      SortedCons(x, xs, key);
    } else {
      var rest := Insert(x, xs[1..], key);
      InsertSorted(x, xs[1..], key);
      InsertBounded(x, xs[1..], key, key(xs[0]));
      SortedCons(xs[0], rest, key);
    }
  }

  /** A head no smaller than every element of a sorted tail gives a sorted list. */
  lemma SortedCons<T>(h: T, t: seq<T>, key: T -> int)
    requires SortedDesc(t, key)
    requires forall y :: y in t ==> key(y) <= key(h)
    ensures SortedDesc([h] + t, key)
  {
    var r := [h] + t;
    forall i, j | 0 <= i < j < |r|
      ensures key(r[i]) >= key(r[j])
    {
      assert r[j] == t[j - 1];
      if i > 0 {
        assert r[i] == t[i - 1];
      }
    }
  }

  /** Inserting an element under a bound into a list under that bound stays under it. */
  lemma {:induction false} InsertBounded<T>(x: T, xs: seq<T>, key: T -> int, bound: int)
    requires key(x) <= bound
    requires forall y :: y in xs ==> key(y) <= bound
    ensures forall y :: y in Insert(x, xs, key) ==> key(y) <= bound
  {
    if xs != [] && key(xs[0]) > key(x) {
      InsertBounded(x, xs[1..], key, bound);
      var r := Insert(x, xs, key);
      assert r == [xs[0]] + Insert(x, xs[1..], key);
    }
  }

  /**
   * A stable sort by descending key, as lodash's sortBy on the negated key.
   */
  function SortByDesc<T>(xs: seq<T>, key: T -> int): (r: seq<T>)
    ensures SortedDesc(r, key)
    ensures multiset(r) == multiset(xs)
    ensures |r| == |xs|
  {
    if xs == [] then []
    else
      assert xs == [xs[0]] + xs[1..];
      var rest := SortByDesc(xs[1..], key);
      InsertSorted(xs[0], rest, key);
      Insert(xs[0], rest, key)
  }

  /** The elements of xs whose key is v, in their order in xs. */
  function WithKey<T>(xs: seq<T>, key: T -> int, v: int): seq<T>
  {
    if xs == [] then []
    else if key(xs[0]) == v then [xs[0]] + WithKey(xs[1..], key, v)
    else WithKey(xs[1..], key, v)
  }

  lemma {:induction false} WithKeyInsert<T>(x: T, xs: seq<T>, key: T -> int, v: int)
    ensures WithKey(Insert(x, xs, key), key, v)
         == if key(x) == v then [x] + WithKey(xs, key, v) else WithKey(xs, key, v)
  {
    if xs == [] || key(xs[0]) <= key(x) {
      var r := [x] + xs;
      assert r[1..] == xs;
    } else {
      WithKeyInsert(x, xs[1..], key, v);
      var r := [xs[0]] + Insert(x, xs[1..], key);
      assert r[1..] == Insert(x, xs[1..], key);
      if key(x) == v {
        assert key(xs[0]) != v;
      }
    }
  }

  /**
   * The sort is stable: the elements of any one key keep the order they
   * had in the input.
   */
  lemma {:induction false} SortByDescStable<T>(xs: seq<T>, key: T -> int, v: int)
    ensures WithKey(SortByDesc(xs, key), key, v) == WithKey(xs, key, v)
  {
    if xs != [] {
      SortByDescStable(xs[1..], key, v);
      WithKeyInsert(xs[0], SortByDesc(xs[1..], key), key, v);
    }
  }

  function VotesOf(c: Candidate): int
  {
    c.votes
  }

  /** The candidates of a ranked list, in its order. */
  function Candidates(ranked: seq<RankedCandidate>): (r: seq<Candidate>)
    ensures |r| == |ranked|
    ensures forall i :: 0 <= i < |r| ==> r[i] == ranked[i].candidate
  {
    seq(|ranked|, i requires 0 <= i < |ranked| => ranked[i].candidate)
  }

  /**
   * The candidates sorted by descending votes, each given its position as rank.
   */
  function Rank(cs: seq<Candidate>): (r: seq<RankedCandidate>)
    ensures |r| == |cs|
    ensures forall i :: 0 <= i < |r| ==> r[i].rank == i
    ensures multiset(Candidates(r)) == multiset(cs)
    ensures SortedDesc(Candidates(r), VotesOf)
  {
    var sorted := SortByDesc(cs, VotesOf);
    var r := seq(|sorted|, i requires 0 <= i < |sorted| => RankedCandidate(sorted[i], i));
    assert Candidates(r) == sorted;
    r
  }

  /** Candidates with equal votes keep the order of the vote list. */
  lemma RankStable(cs: seq<Candidate>, v: int)
    ensures WithKey(Candidates(Rank(cs)), VotesOf, v) == WithKey(cs, VotesOf, v)
  {
    var sorted := SortByDesc(cs, VotesOf);
    assert Candidates(Rank(cs)) == sorted;
    SortByDescStable(cs, VotesOf, v);
  }

  /** The lowered, trimmed field contains the lowered search text. */
  function FieldMatches(field: string, search: string): (r: bool)
    ensures r <==> Contains(Trim(Lower(field)), Lower(search))
  {
    IndexOf(Trim(Lower(field)), Lower(search)) != -1
  }

  /** The search predicate: a match in the url, or in the name when there is one. */
  function Matches(c: Candidate, search: string): (r: bool)
    ensures r <==> Contains(Trim(Lower(c.url)), Lower(search))
                   || (|c.name| > 0 && Contains(Trim(Lower(c.name)), Lower(search)))
  {
    FieldMatches(c.url, search) || (|c.name| > 0 && FieldMatches(c.name, search))
  }

  /**
   * The search ignores case on both sides: lowering the search text, or the
   * candidate's url and name, does not change whether it matches.
   */
  lemma MatchesIgnoresCase(c: Candidate, search: string)
    ensures Matches(c, Lower(search)) == Matches(c, search)
    ensures Matches(c.(url := Lower(c.url), name := Lower(c.name)), search) == Matches(c, search)
  {
    LowerIdempotent(search);
    LowerIdempotent(c.url);
    LowerIdempotent(c.name);
  }

  /** xs can be obtained from ys by deleting elements. */
  predicate Subsequence<T(==)>(xs: seq<T>, ys: seq<T>)
    decreases |ys|
  {
    xs == [] ||
    (ys != [] && ((xs[0] == ys[0] && Subsequence(xs[1..], ys[1..])) || Subsequence(xs, ys[1..])))
  }

  /** The matching candidates of a ranked list, in its order. */
  function KeepMatching(ranked: seq<RankedCandidate>, search: string): (r: seq<RankedCandidate>)
    ensures Subsequence(r, ranked)
    ensures forall x :: x in r <==> x in ranked && Matches(x.candidate, search)
    ensures forall x :: multiset(r)[x] == if Matches(x.candidate, search) then multiset(ranked)[x] else 0
  {
    if ranked == [] then []
    else
      var rest := KeepMatching(ranked[1..], search);
      assert ranked == [ranked[0]] + ranked[1..];
      assert forall x :: x in ranked <==> x == ranked[0] || x in ranked[1..];
      if Matches(ranked[0].candidate, search) then
        var r := [ranked[0]] + rest;
        assert r[0] == ranked[0] && r[1..] == rest;
        r
      else
        rest
  }

  /** `filteredCandidates`: all candidates for an empty search, else the matching ones. */
  function FilterCandidates(ranked: seq<RankedCandidate>, search: string): (r: seq<RankedCandidate>)
    ensures Subsequence(r, ranked)
    ensures forall x :: x in r <==> x in ranked && Matches(x.candidate, search)
    ensures search == "" ==> r == ranked
    ensures search != "" ==>
      forall x :: multiset(r)[x] == if Matches(x.candidate, search) then multiset(ranked)[x] else 0
  {
    if search == "" then
      SubsequenceRefl(ranked);
      forall x | x in ranked
        ensures Matches(x.candidate, search)
      {
        EmptyOccurs(Trim(Lower(x.candidate.url)));
      }
      ranked
    else
      KeepMatching(ranked, search)
  }

  lemma {:induction false} SubsequenceRefl<T>(xs: seq<T>)
    ensures Subsequence(xs, xs)
  {
    if xs != [] {
      SubsequenceRefl(xs[1..]);
    }
  }

  /** The empty text occurs in every string. */
  lemma EmptyOccurs(hay: string)
    ensures Contains(hay, "")
  {
    assert OccursAt("", hay, 0);
  }

  /**
   * The empty-search shortcut changes nothing: filtering on "" keeps every
   * candidate, in order.
   */
  lemma {:induction false} KeepMatchingEmpty(ranked: seq<RankedCandidate>)
    ensures KeepMatching(ranked, "") == ranked
  {
    if ranked != [] {
      KeepMatchingEmpty(ranked[1..]);
      EmptyOccurs(Trim(Lower(ranked[0].candidate.url)));
      assert ranked == [ranked[0]] + ranked[1..];
    }
  }

  /** The ranks of a filtered list increase strictly, so it keeps the ranked order. */
  lemma {:induction false} FilterKeepsRankOrder(cs: seq<Candidate>, search: string)
    ensures var r := FilterCandidates(Rank(cs), search);
      forall i, j :: 0 <= i < j < |r| ==> r[i].rank < r[j].rank
  {
    var ranked := Rank(cs);
    SubsequenceIncreasing(FilterCandidates(ranked, search), ranked);
  }

  /** A subsequence of a list with strictly increasing ranks has strictly increasing ranks. */
  lemma {:induction false} SubsequenceIncreasing(xs: seq<RankedCandidate>, ys: seq<RankedCandidate>)
    requires Subsequence(xs, ys)
    requires forall i, j :: 0 <= i < j < |ys| ==> ys[i].rank < ys[j].rank
    ensures forall i, j :: 0 <= i < j < |xs| ==> xs[i].rank < xs[j].rank
    ensures xs != [] ==> ys != [] && ys[0].rank <= xs[0].rank
    decreases |ys|
  {
    if xs != [] {
      if xs[0] == ys[0] && Subsequence(xs[1..], ys[1..]) {
        SubsequenceIncreasing(xs[1..], ys[1..]);
        forall j | 0 < j < |xs|
          ensures xs[0].rank < xs[j].rank
        {
          assert xs[1..][0] == xs[1];
          if j > 1 {
            assert xs[1..][0].rank < xs[1..][j - 1].rank;
          }
        }
        forall i, j | 0 < i < j < |xs|
          ensures xs[i].rank < xs[j].rank
        {
          assert xs[1..][i - 1].rank < xs[1..][j - 1].rank;
        }
      } else {
        SubsequenceIncreasing(xs, ys[1..]);
      }
    }
  }

  /** The sum of the candidates' votes. */
  function SumVotes(cs: seq<Candidate>): int
  {
    if cs == [] then 0 else cs[0].votes + SumVotes(cs[1..])
  }

  /** The total of the votes column, added up over the ranked list. */
  function TotalVotes(ranked: seq<RankedCandidate>): int
  {
    SumVotes(Candidates(ranked))
  }

  lemma {:induction false} SumVotesInsert(c: Candidate, cs: seq<Candidate>)
    ensures SumVotes(Insert(c, cs, VotesOf)) == c.votes + SumVotes(cs)
  {
    if cs != [] && cs[0].votes > c.votes {
      var r := Insert(c, cs, VotesOf);
      assert r[1..] == Insert(c, cs[1..], VotesOf);
      SumVotesInsert(c, cs[1..]);
    } else {
      assert ([c] + cs)[1..] == cs;
    }
  }

  lemma {:induction false} SumVotesSorted(cs: seq<Candidate>)
    ensures SumVotes(SortByDesc(cs, VotesOf)) == SumVotes(cs)
  {
    if cs != [] {
      SumVotesSorted(cs[1..]);
      SumVotesInsert(cs[0], SortByDesc(cs[1..], VotesOf));
    }
  }

  /** Ranking the candidates does not change the vote total. */
  lemma TotalVotesOfRank(cs: seq<Candidate>)
    ensures TotalVotes(Rank(cs)) == SumVotes(cs)
  {
    assert Candidates(Rank(cs)) == SortByDesc(cs, VotesOf);
    SumVotesSorted(cs);
  }

  function ChangeCycleOf(rc: RankedCandidate): int
  {
    rc.candidate.changeCycle
  }

  /** The first candidate after a stable sort by descending change in the cycle; none for an empty list. */
  function BiggestGainer(ranked: seq<RankedCandidate>): (r: Option<RankedCandidate>)
    ensures r.None? <==> ranked == []
    ensures r.Some? ==> r.value in ranked
    ensures r.Some? ==> forall x :: x in ranked ==> ChangeCycleOf(x) <= ChangeCycleOf(r.value)
  {
    if ranked == [] then None
    else
      var sorted := SortByDesc(ranked, ChangeCycleOf);
      assert sorted[0] in multiset(ranked);
      assert forall x :: x in ranked ==> x in multiset(sorted);
      Some(sorted[0])
  }

  /** Of several candidates with the largest gain, the one ranked first is chosen. */
  lemma BiggestGainerIsFirst(ranked: seq<RankedCandidate>)
    requires ranked != []
    ensures var g := BiggestGainer(ranked).value;
      var w := WithKey(ranked, ChangeCycleOf, ChangeCycleOf(g));
      |w| > 0 && w[0] == g
  {
    var sorted := SortByDesc(ranked, ChangeCycleOf);
    var g := sorted[0];
    SortByDescStable(ranked, ChangeCycleOf, ChangeCycleOf(g));
    assert sorted == [g] + sorted[1..];
  }

  /** The three ways `VoteChange` shows a change of votes. */
  datatype Change = Gain | Loss | NoChange

  /** How a vote change is shown: as a gain, as a loss, or as a dash. */
  function ClassifyChange(value: int): (r: Change)
    ensures r == Gain <==> value > 0
    ensures r == Loss <==> value < 0
    ensures r == NoChange <==> value == 0
  {
    if value > 0 then Gain
    else if value < 0 then Loss
    else NoChange
  }
}
