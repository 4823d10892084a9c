/**
 * The admin's candidate-responses view: the rows of the admin candidate
 * list, narrowed by a search over e-mail and submission, and ordered newest
 * first by `submissionTime || startTime || 0`.
 */
module CandidateResponses {
  import opened Options
  import opened Js
  import opened Text
  import opened Lists
  import opened Challenge
  import opened Listings
  import AdminDashboard

  /**
   * The search: the lower-cased term occurs in the lower-cased e-mail, or
   * in the lower-cased submission when there is one.
   */
  predicate MatchesSearch(row: CandidateRow, term: string) {
    || Includes(Lower(row.email), Lower(term))
    || (row.submission.Some? && Includes(Lower(row.submission.value), Lower(term)))
  }

  /** The rows the search keeps, in their order. */
  function SearchRows(rows: seq<CandidateRow>, term: string): (r: seq<CandidateRow>)
    ensures forall i :: 0 <= i < |r| ==> MatchesSearch(r[i], term)
    ensures forall row :: row in rows && MatchesSearch(row, term) ==> row in r
    ensures forall row :: row in r ==> row in rows
    ensures forall row :: row in rows ==> multiset(r)[row] == if MatchesSearch(row, term) then multiset(rows)[row] else 0
  {
    Filter(rows, row => MatchesSearch(row, term))
  }

  /** An empty search keeps every row. */
  lemma EmptySearchKeepsAll(rows: seq<CandidateRow>)
    ensures SearchRows(rows, "") == rows
  {
    forall i | 0 <= i < |rows| ensures MatchesSearch(rows[i], "") {
      assert OccursAt(Lower(rows[i].email), Lower(""), 0);
    }
    FilterKeepsAll(rows, row => MatchesSearch(row, ""));
  }

  /**
   * The search keeps the rows' order: it works row by row, a single row is
   * kept exactly when it matches, and the result for a concatenation is
   * the concatenation of the results.
   */
  lemma SearchKeepsOrder(a: seq<CandidateRow>, b: seq<CandidateRow>, row: CandidateRow, term: string)
    ensures SearchRows([row], term) == if MatchesSearch(row, term) then [row] else []
    ensures SearchRows(a + b, term) == SearchRows(a, term) + SearchRows(b, term)
  {
    FilterAppend(a, b, row => MatchesSearch(row, term));
  }

  /**
   * This search finds everything the dashboard's e-mail search finds, and
   * more only through the submission text.
   */
  lemma SearchWidensEmailSearch(rows: seq<CandidateRow>, term: string, row: CandidateRow)
    requires row in rows
    ensures row in AdminDashboard.SearchCandidates(rows, term) ==> row in SearchRows(rows, term)
    ensures row in SearchRows(rows, term) && row !in AdminDashboard.SearchCandidates(rows, term) ==>
      row.submission.Some? && Includes(Lower(row.submission.value), Lower(term))
  {
    if row in AdminDashboard.SearchCandidates(rows, term) {
      var i :| 0 <= i < |AdminDashboard.SearchCandidates(rows, term)| && AdminDashboard.SearchCandidates(rows, term)[i] == row;
      assert AdminDashboard.MatchesEmail(row, term);
    }
    if row in SearchRows(rows, term) {
      var i :| 0 <= i < |SearchRows(rows, term)| && SearchRows(rows, term)[i] == row;
      assert MatchesSearch(row, term);
    }
  }

  /** The sort key, `submissionTime || startTime || 0`. */
  function Recency(row: CandidateRow): int {
    NumberOrNull(row.submissionTime).GetOr(NumberOrNull(row.startTime).GetOr(0))
  }

  /** The key is the first truthy one of the submission time and the start time, else 0. */
  lemma RecencyChain(row: CandidateRow)
    ensures TruthyNumber(row.submissionTime) ==> Recency(row) == row.submissionTime.value
    ensures !TruthyNumber(row.submissionTime) && TruthyNumber(row.startTime) ==> Recency(row) == row.startTime.value
    ensures !TruthyNumber(row.submissionTime) && !TruthyNumber(row.startTime) ==> Recency(row) == 0
  {
  }

  /** The comparator `bTime - aTime` is satisfied: keys never increase along the list. */
  ghost predicate NewestFirst(s: seq<CandidateRow>) {
    forall i, j :: 0 <= i < j < |s| ==> Recency(s[i]) >= Recency(s[j])
  }

  /**
   * `sort` with the recency comparator, on the array in place: afterwards
   * the rows run newest first and are the same rows as before.
   */
  method SortByRecency(a: array<CandidateRow>)
    modifies a
    ensures NewestFirst(a[..])
    ensures multiset(a[..]) == multiset(old(a[..]))
  {
    var i := 0;
    while i < a.Length
      invariant 0 <= i <= a.Length
      invariant NewestFirst(a[..i])
      invariant multiset(a[..]) == multiset(old(a[..]))
    {
      Sink(a, i);
      i := i + 1;
    }
    assert a[..a.Length] == a[..];
  }

  /**
   * One step of the sort: the row at `i` moves down past every newer row
   * before it, so the first `i + 1` rows run newest first.
   */
  method Sink(a: array<CandidateRow>, i: nat)
    requires i < a.Length
    requires NewestFirst(a[..i])
    modifies a
    ensures NewestFirst(a[..i + 1])
    ensures multiset(a[..]) == multiset(old(a[..]))
  {
    var j := i;
    SinkStarts(a[..], i);
    while j > 0 && Recency(a[j - 1]) < Recency(a[j])
      invariant 0 <= j <= i
      invariant multiset(a[..]) == multiset(old(a[..]))
      invariant SinkingAt(a[..], i, j)
    {
      SinkStep(a[..], i, j);
      Swap(a, j - 1, j);
      j := j - 1;
    }
    SinkEnds(a[..], i, j);
  }

  /**
   * Halfway through a step: the first `i + 1` rows run newest first apart
   * from the one at `j`, which is newer than every row after it.
   */
  ghost predicate SinkingAt(s: seq<CandidateRow>, i: int, j: int) {
    && 0 <= j <= i < |s|
    && (forall p, q :: 0 <= p < q <= i && p != j && q != j ==> Recency(s[p]) >= Recency(s[q]))
    && (forall q :: j < q <= i ==> Recency(s[j]) > Recency(s[q]))
  }

  lemma SinkStarts(s: seq<CandidateRow>, i: int)
    requires 0 <= i < |s| && NewestFirst(s[..i])
    ensures SinkingAt(s, i, i)
  {
    forall p, q | 0 <= p < q < i ensures Recency(s[p]) >= Recency(s[q]) {
      assert s[..i][p] == s[p] && s[..i][q] == s[q];
    }
  }

  lemma SinkStep(s: seq<CandidateRow>, i: int, j: int)
    requires SinkingAt(s, i, j) && j > 0 && Recency(s[j - 1]) < Recency(s[j])
    ensures SinkingAt(s[j - 1 := s[j]][j := s[j - 1]], i, j - 1)
  {
  }

  lemma SinkEnds(s: seq<CandidateRow>, i: int, j: int)
    requires SinkingAt(s, i, j) && (j == 0 || Recency(s[j - 1]) >= Recency(s[j]))
    ensures NewestFirst(s[..i + 1])
  {
    forall p, q | 0 <= p < q <= i ensures Recency(s[p]) >= Recency(s[q]) {
      if q == j && p < j - 1 {
        assert Recency(s[p]) >= Recency(s[j - 1]);
      }
    }
    assert forall p :: 0 <= p <= i ==> s[..i + 1][p] == s[p];
  }

  /** Exchanges two rows of the array; the array holds the same rows. */
  method Swap(a: array<CandidateRow>, i: nat, j: nat)
    requires i < j < a.Length
    modifies a
    ensures a[..] == old(a[..])[i := old(a[j])][j := old(a[i])]
    ensures multiset(a[..]) == multiset(old(a[..]))
  {
    ghost var before := a[..];
    a[i], a[j] := a[j], a[i];
    assert a[..] == before[..i] + [before[j]] + before[i + 1..j] + [before[i]] + before[j + 1..];
    assert before == before[..i] + [before[i]] + before[i + 1..j] + [before[j]] + before[j + 1..];
  }

  /**
   * `filteredAndSortedCandidates`: the searched rows, newest first. The
   * result holds exactly the rows the search keeps, each as often.
   */
  method FilterAndSort(rows: seq<CandidateRow>, term: string) returns (shown: seq<CandidateRow>)
    ensures NewestFirst(shown)
    ensures multiset(shown) == multiset(SearchRows(rows, term))
    ensures forall row :: row in shown <==> row in rows && MatchesSearch(row, term)
  {
    var kept := SearchRows(rows, term);
    var a := new CandidateRow[|kept|](i requires 0 <= i < |kept| => kept[i]);
    assert a[..] == kept;
    SortByRecency(a);
    shown := a[..];
    forall row | row in shown ensures row in rows && MatchesSearch(row, term) {
      assert row in multiset(kept);
      var k :| 0 <= k < |kept| && kept[k] == row;
    }
    forall row | row in rows && MatchesSearch(row, term) ensures row in shown {
      assert row in kept;
      assert row in multiset(shown);
    }
  }

  /**
   * The card's duration line, `formatDuration((endTime - startTime) / 1000)`,
   * shown only when both times are truthy: the seconds it formats.
   */
  function ShownDurationSeconds(row: CandidateRow): Option<int> {
    if TruthyNumber(row.startTime) && TruthyNumber(row.endTime) then
      Some((row.endTime.value - row.startTime.value) / 1000)
    else None
  }

  /**
   * For a started record the handlers wrote, the card shows the
   * challenge's own duration in seconds (the division is exact).
   */
  lemma ShownDurationIsChallengeDuration(store: map<string, ChallengeStatus>, email: string)
    requires StoreConsistent(store) && ':' !in email
    requires ChallengeKey(email) in store
    requires store[ChallengeKey(email)].isStarted && store[ChallengeKey(email)].startTime.value != 0
    ensures IsChallengeKey(ChallengeKey(email))
    ensures store[ChallengeKey(email)].endTime.value != 0 ==>
      ShownDurationSeconds(AdminRowOf(store, ChallengeKey(email))) == Some(store[ChallengeKey(email)].duration.value)
  {
    RecordOfOwnKey(store, email);
    var rec := store[ChallengeKey(email)];
    assert rec.endTime.value - rec.startTime.value == rec.duration.value * 1000;
  }
}
