/** The SCM-02 population: one commit record and one review record for every collected commit. */
module Scm02 {
  import opened Texts
  import opened Counting

  /** A field of a payload is `None` when it is absent, null or of another type than the code reads. */
  datatype PullRequest = PullRequest(
    state: Option<Text>,
    merged: bool,
    number: Option<int>,
    approvals: Option<int>,
    approvalsDetermined: bool)

  datatype CommitRow = CommitRow(
    objectId: Text,
    evidenceId: Text,
    locator: Text,
    sha: Option<Text>,
    repository: Option<Text>,
    committedAt: Option<Text>,
    author: Option<Text>,
    parents: nat)

  datatype ReviewRow = ReviewRow(objectId: Text, evidenceId: Text, determined: bool, associated: seq<PullRequest>)

  datatype CommitRecord = CommitRecord(
    sha: Text, repository: Text, committedAt: Text, author: Option<Text>, parents: nat, evidenceId: Text)

  datatype Choice = Choice(merged: Option<int>, approvals: Option<int>, determined: bool)

  datatype ReviewRecord = ReviewRecord(
    sha: Text, determined: bool, choice: Choice, states: seq<Text>, evidenceId: Option<Text>)

  datatype Projection =
    | Projected(commits: seq<CommitRecord>, reviews: seq<ReviewRecord>, undetermined: nat)
    | NoCommits
    | NoAuthorDate(sha: Text)

  predicate IsEmpty(t: Option<Text>) {
    t.None? || t.value == []
  }

  predicate Candidate(p: PullRequest) {
    p.merged && p.number.Some?
  }

  // ------------------------------------------------------- the review record

  const NO_CHOICE := Choice(None, None, false)

  /** The scan of `_review_record` over the associated pull requests. */
  function ChoiceOf(associated: seq<PullRequest>): Choice {
    if associated == [] then NO_CHOICE
    else
      var best, p := ChoiceOf(associated[..|associated| - 1]), associated[|associated| - 1];
      if Candidate(p) && (best.merged.None? || p.number.value < best.merged.value)
      then Choice(p.number, p.approvals, p.approvalsDetermined)
      else best
  }

  function States(associated: seq<PullRequest>): seq<Text> {
    if associated == [] then []
    else
      var front, p := States(associated[..|associated| - 1]), associated[|associated| - 1];
      if IsEmpty(p.state) then front else front + [p.state.value]
  }

  method ReviewRecordFor(sha: Text, review: ReviewRow) returns (r: ReviewRecord)
    ensures r == ReviewRecord(sha, review.determined, ChoiceOf(review.associated), States(review.associated),
                              Some(review.evidenceId))
  {
    var a := review.associated;
    var states: seq<Text> := [];
    for i := 0 to |a|
      invariant states == States(a[..i])
    {
      assert a[..i + 1][..i] == a[..i];
      if !IsEmpty(a[i].state) {
        states := states + [a[i].state.value];
      }
    }
    var merged: Option<int>, approvals: Option<int>, approvalsDetermined := None, None, false;
    for i := 0 to |a|
      invariant Choice(merged, approvals, approvalsDetermined) == ChoiceOf(a[..i])
    {
      assert a[..i + 1][..i] == a[..i];
      if !a[i].merged {
        continue;
      }
      var number := a[i].number;
      if number.None? {
        continue;
      }
      if merged.None? || number.value < merged.value {
        merged := number;
        approvals := a[i].approvals;
        approvalsDetermined := a[i].approvalsDetermined;
      }
    }
    assert a[..|a|] == a;
    r := ReviewRecord(sha, review.determined, Choice(merged, approvals, approvalsDetermined), states,
                      Some(review.evidenceId));
  }

  /** The first of the lowest-numbered merged pull requests. */
  predicate FirstLowest(associated: seq<PullRequest>, i: int) {
    && 0 <= i < |associated| && Candidate(associated[i])
    && forall j | 0 <= j < |associated| && Candidate(associated[j]) ::
         if j < i then associated[i].number.value < associated[j].number.value
         else associated[i].number.value <= associated[j].number.value
  }

  function ChoiceFrom(p: PullRequest): Choice {
    Choice(p.number, p.approvals, p.approvalsDetermined)
  }

  /** The scan takes the first lowest-numbered merged pull request with its own approvals, or none without one. */
  lemma {:induction false} ChoiceIsFirstLowest(associated: seq<PullRequest>) returns (i: int)
    ensures i == -1 ==> ChoiceOf(associated) == NO_CHOICE && forall p | p in associated :: !Candidate(p)
    ensures i != -1 ==> FirstLowest(associated, i) && ChoiceOf(associated) == ChoiceFrom(associated[i])
  {
    i := -1;
    if associated != [] {
      var front, p := associated[..|associated| - 1], associated[|associated| - 1];
      assert associated == front + [p];
      i := ChoiceIsFirstLowest(front);
      if Candidate(p) && (i == -1 || p.number.value < associated[i].number.value) {
        i := |associated| - 1;
        assert forall j | 0 <= j < |front| && Candidate(front[j]) :: front[j] in front;
      }
    }
  }

  lemma ChoiceDetermined(associated: seq<PullRequest>, i: int)
    requires FirstLowest(associated, i)
    ensures ChoiceOf(associated) == ChoiceFrom(associated[i])
  {
    var k := ChoiceIsFirstLowest(associated);
    assert associated[i] in associated;
  }

  /** No candidate has a lower number. */
  ghost predicate Lowest(associated: seq<PullRequest>, p: PullRequest) {
    && p in associated && Candidate(p)
    && forall q | q in associated && Candidate(q) :: p.number.value <= q.number.value
  }

  ghost predicate LowestAgree(associated: seq<PullRequest>) {
    forall p, q | Lowest(associated, p) && Lowest(associated, q) :: ChoiceFrom(p) == ChoiceFrom(q)
  }

  ghost predicate OrderFree(associated: seq<PullRequest>) {
    forall b: seq<PullRequest> | multiset(b) == multiset(associated) :: ChoiceOf(b) == ChoiceOf(associated)
  }

  lemma LowestFirst(associated: seq<PullRequest>, k: int) returns (b: seq<PullRequest>)
    requires 0 <= k < |associated| && Lowest(associated, associated[k])
    ensures multiset(b) == multiset(associated) && ChoiceOf(b) == ChoiceFrom(associated[k])
  {
    b := [associated[k]] + (associated[..k] + associated[k + 1..]);
    Without(associated, k);
    assert b[0] == associated[k];
    forall j | 0 <= j < |b| && Candidate(b[j]) ensures b[0].number.value <= b[j].number.value {
      assert b[j] in multiset(b);
      assert b[j] in associated;
    }
    assert FirstLowest(b, 0);
    ChoiceDetermined(b, 0);
  }

  /** The choice is the same for every order of the list exactly when the lowest-numbered merges agree. */
  lemma ChoiceOrderFree(associated: seq<PullRequest>)
    ensures OrderFree(associated) <==> LowestAgree(associated)
  {
    if OrderFree(associated) {
      forall p, q | Lowest(associated, p) && Lowest(associated, q) ensures ChoiceFrom(p) == ChoiceFrom(q) {
        var i :| 0 <= i < |associated| && associated[i] == p;
        var j :| 0 <= j < |associated| && associated[j] == q;
        var b := LowestFirst(associated, i);
        var c := LowestFirst(associated, j);
        assert ChoiceOf(b) == ChoiceOf(associated) == ChoiceOf(c);
      }
    }
    if LowestAgree(associated) {
      forall b: seq<PullRequest> | multiset(b) == multiset(associated) ensures ChoiceOf(b) == ChoiceOf(associated) {
        assert forall p :: p in b <==> p in multiset(b);
        assert forall p :: p in associated <==> p in multiset(associated);
        var i := ChoiceIsFirstLowest(b);
        var j := ChoiceIsFirstLowest(associated);
        if i != -1 && j != -1 {
          assert Lowest(associated, b[i]) && Lowest(associated, associated[j]);
        }
      }
    }
  }

  /** Distinct merged numbers, in particular, make the order of the list irrelevant. */
  lemma DistinctNumbersOrderFree(associated: seq<PullRequest>)
    requires forall p, q | p in associated && q in associated && Candidate(p) && Candidate(q) && p.number == q.number :: p == q
    ensures OrderFree(associated)
  {
    ChoiceOrderFree(associated);
  }

  /** Two merges under one number: the first in the list wins, so the approvals reported depend on its order. */
  lemma OrderShows()
    ensures var p := PullRequest(Some(Lit("closed")), true, Some(7), Some(0), true);
      var q := PullRequest(Some(Lit("closed")), true, Some(7), Some(2), true);
      && multiset([p, q]) == multiset([q, p])
      && ChoiceOf([p, q]) == Choice(Some(7), Some(0), true)
      && ChoiceOf([q, p]) == Choice(Some(7), Some(2), true)
      && !OrderFree([p, q])
  {
    var p := PullRequest(Some(Lit("closed")), true, Some(7), Some(0), true);
    var q := PullRequest(Some(Lit("closed")), true, Some(7), Some(2), true);
    ChoiceDetermined([p, q], 0);
    ChoiceDetermined([q, p], 0);
    assert multiset([q, p]) == multiset([p, q]);
  }

  // ---------------------------------------------------------- the projection

  function ShaOf(row: CommitRow): Text {
    if IsEmpty(row.sha) then row.objectId else row.sha.value
  }

  function RepositoryFor(row: CommitRow, fromLocator: Text -> Text): Text {
    if IsEmpty(row.repository) then fromLocator(row.locator) else row.repository.value
  }

  /** `reviews.get(sha)`: the last row collected under an identifier. */
  function ReviewOf(reviews: seq<ReviewRow>, sha: Text): Option<ReviewRow> {
    if reviews == [] then None
    else
      var last := reviews[|reviews| - 1];
      if last.objectId == sha then Some(last) else ReviewOf(reviews[..|reviews| - 1], sha)
  }

  function UndeterminedReview(sha: Text): ReviewRecord {
    ReviewRecord(sha, false, NO_CHOICE, [], None)
  }

  function Undetermined(): ReviewRecord -> bool {
    (r: ReviewRecord) => !r.determined
  }

  /** `project_scm_02` on the rows of the two collections. */
  method Project(commits: seq<CommitRow>, reviews: seq<ReviewRow>, fromLocator: Text -> Text) returns (p: Projection)
    ensures p.NoCommits? <==> commits == []
    ensures p.NoAuthorDate? ==> exists k | 0 <= k < |commits| ::
      IsEmpty(commits[k].committedAt) && p.sha == ShaOf(commits[k])
      && forall j | 0 <= j < k :: !IsEmpty(commits[j].committedAt)
    ensures p.Projected? ==> |p.commits| == |p.reviews| == |commits|
    ensures p.Projected? ==> forall i | 0 <= i < |commits| ::
      && !IsEmpty(commits[i].committedAt)
      && p.commits[i] == CommitRecord(ShaOf(commits[i]), RepositoryFor(commits[i], fromLocator),
                                      commits[i].committedAt.value, commits[i].author, commits[i].parents,
                                      commits[i].evidenceId)
    ensures p.Projected? ==> forall i | 0 <= i < |commits| ::
      var sha, review := ShaOf(commits[i]), ReviewOf(reviews, ShaOf(commits[i]));
      && (review.None? ==> p.reviews[i] == ReviewRecord(sha, false, Choice(None, None, false), [], None))
      && (review.Some? ==> p.reviews[i] == ReviewRecord(sha, review.value.determined,
            ChoiceOf(review.value.associated), States(review.value.associated), Some(review.value.evidenceId)))
    ensures p.Projected? ==> p.undetermined == Count(Undetermined(), p.reviews)
  {
    if commits == [] {
      return NoCommits;
    }
    var bySha: map<Text, ReviewRow> := map[];
    for i := 0 to |reviews|
      invariant forall sha: Text :: (if sha in bySha then Some(bySha[sha]) else None) == ReviewOf(reviews[..i], sha)
    {
      assert reviews[..i + 1][..i] == reviews[..i];
      bySha := bySha[reviews[i].objectId := reviews[i]];
    }
    assert reviews[..|reviews|] == reviews;
    var commitRecords: seq<CommitRecord>, reviewRecords: seq<ReviewRecord> := [], [];
    for n := 0 to |commits|
      invariant |commitRecords| == |reviewRecords| == n
      invariant forall i | 0 <= i < n ::
        && !IsEmpty(commits[i].committedAt)
        && commitRecords[i] == CommitRecord(ShaOf(commits[i]), RepositoryFor(commits[i], fromLocator),
                                            commits[i].committedAt.value, commits[i].author, commits[i].parents,
                                            commits[i].evidenceId)
      invariant forall i | 0 <= i < n ::
        var sha, review := ShaOf(commits[i]), ReviewOf(reviews, ShaOf(commits[i]));
        && (review.None? ==> reviewRecords[i] == UndeterminedReview(sha))
        && (review.Some? ==> reviewRecords[i] == ReviewRecord(sha, review.value.determined,
              ChoiceOf(review.value.associated), States(review.value.associated), Some(review.value.evidenceId)))
    {
      var row := commits[n];
      var sha := ShaOf(row);
      if IsEmpty(row.committedAt) {
        return NoAuthorDate(sha);
      }
      commitRecords := commitRecords + [CommitRecord(sha, RepositoryFor(row, fromLocator), row.committedAt.value,
                                                     row.author, row.parents, row.evidenceId)];
      if sha !in bySha {
        reviewRecords := reviewRecords + [UndeterminedReview(sha)];
        continue;
      }
      var record := ReviewRecordFor(sha, bySha[sha]);
      reviewRecords := reviewRecords + [record];
    }
    p := Projected(commitRecords, reviewRecords, Count(Undetermined(), reviewRecords));
  }

  // ------------------------------------------------- on the payloads' own fields

  /** The choice is the first of the lowest-numbered pull requests that merged, and none where none did. */
  lemma ChoiceMeans(associated: seq<PullRequest>)
    ensures (forall p | p in associated :: !p.merged || p.number.None?)
      ==> ChoiceOf(associated) == Choice(None, None, false)
    ensures (exists p | p in associated :: p.merged && p.number.Some?)
      ==> exists i | 0 <= i < |associated| ::
            && associated[i].merged && associated[i].number.Some?
            && ChoiceOf(associated)
            == Choice(associated[i].number, associated[i].approvals, associated[i].approvalsDetermined)
            && NoneLower(associated, i, associated[i].number.value)
  {
    var i := ChoiceIsFirstLowest(associated);
    hide ChoiceOf;
    if i != -1 {
      assert associated[i] in associated;
      assert NoneLower(associated, i, associated[i].number.value);
    }
  }

  /** No merged pull request has a lower number, and none before this place the same. */
  predicate NoneLower(associated: seq<PullRequest>, i: int, number: int) {
    forall j | 0 <= j < |associated| && associated[j].merged && associated[j].number.Some? ::
      number <= associated[j].number.value && (j < i ==> number < associated[j].number.value)
  }

  function WithObject(sha: Text): ReviewRow -> bool {
    (r: ReviewRow) => r.objectId == sha
  }

  /** A commit joins the last review row collected under its identifier. */
  lemma {:induction false} ReviewMeans(reviews: seq<ReviewRow>, sha: Text)
    ensures forall k | LastAt(WithObject(sha), reviews, k) :: ReviewOf(reviews, sha) == Some(reviews[k])
    ensures (forall k | 0 <= k < |reviews| :: reviews[k].objectId != sha) ==> ReviewOf(reviews, sha) == None
  {
    if reviews != [] {
      var front := reviews[..|reviews| - 1];
      ReviewMeans(front, sha);
      forall k | LastAt(WithObject(sha), reviews, k) && reviews[|front|].objectId != sha
        ensures LastAt(WithObject(sha), front, k)
      {
        LastOfFront(WithObject(sha), reviews, k);
      }
      forall k | LastAt(WithObject(sha), reviews, k) && reviews[|front|].objectId == sha ensures k == |front| {
        LastOfFront(WithObject(sha), reviews, k);
      }
    }
  }

  /** The identifier and repository of the payload, or those collected with it where the payload has none. */
  lemma NamesMean(row: CommitRow, fromLocator: Text -> Text)
    ensures ShaOf(row) == if row.sha.Some? && row.sha.value != [] then row.sha.value else row.objectId
    ensures RepositoryFor(row, fromLocator)
         == if row.repository.Some? && row.repository.value != [] then row.repository.value else fromLocator(row.locator)
  {
  }

  /** The states recorded are those of the pull requests that have one, in order. */
  lemma {:induction false} StatesMean(associated: seq<PullRequest>)
    ensures var stated := Filter((p: PullRequest) => p.state.Some? && p.state.value != [], associated);
      && |States(associated)| == |stated|
      && forall i | 0 <= i < |stated| :: Some(States(associated)[i]) == stated[i].state
  {
    if associated != [] {
      var front, last := associated[..|associated| - 1], associated[|associated| - 1];
      StatesMean(front);
      FilterNext((p: PullRequest) => p.state.Some? && p.state.value != [], associated, |front|);
      assert associated[..|associated|] == associated;
    }
  }
}
