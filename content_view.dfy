/**
 * The reviewer store of the content view: its state, the actions it
 * receives, and the reducer that applies one action to the state.
 *
 * Each action is one atomic step; the asynchronous delivery of the fetch
 * result is left to the caller, who feeds the response back in as a
 * `ReviewersResponse` action.
 */
module ContentView {
  import opened Wrappers
  import opened GitHubApiClient
  import opened ReviewerAggregation

  /** The two actions of the store: a fetch result arriving, and the button asking for a fetch. */
  datatype ReviewerAction =
    | ReviewersResponse(response: Result<seq<RequestedReviewers>, ApiFailure>)
    | GetReviewers

  /** What the reducer hands back to the store: nothing to run, or the request for the reviewer lists. */
  datatype Effect = NoEffect | FetchReviewers

  class ReviewerState {
    var reviewerTimes: map<string, int>
    var reviewers: seq<Reviewer>
    var isLoading: bool

    /** The view shows a count for each listed reviewer; that lookup succeeds for every row. */
    ghost predicate ViewSafe()
      reads this
    {
      forall r :: r in reviewers ==> r.login in reviewerTimes
    }

    /**
     * The reviewer list and the frequency map agree: no reviewer twice, the
     * listed logins are exactly the keys, and every count is positive.
     */
    ghost predicate Consistent()
      reads this
      ensures Consistent() ==> ViewSafe()
    {
      && NoDuplicates(reviewers)
      && Logins(reviewers) == reviewerTimes.Keys
      && forall l :: l in reviewerTimes ==> reviewerTimes[l] >= 1
    }

    /** The initial state: no counts, no reviewers, not loading. */
    constructor ()
      ensures reviewerTimes == map[] && reviewers == [] && !isLoading
      ensures Consistent() && ViewSafe()
    {
      reviewerTimes := map[];
      reviewers := [];
      isLoading := false;
    }

    /**
     * Applies one action.
     * A successful response replaces the reviewer list by the first-occurrence
     * de-duplication of all requested reviewers and the counts by their
     * frequency map, whatever the state was, and ends loading.
     * A fetch request sets the loading flag and asks for the fetch.
     * A failed response clears the counts only: the reviewer list and the
     * loading flag stay as they were.
     */
    method Reduce(action: ReviewerAction) returns (effect: Effect)
      modifies this
      ensures action.GetReviewers? ==>
        && isLoading
        && reviewers == old(reviewers)
        && reviewerTimes == old(reviewerTimes)
        && effect == FetchReviewers
      ensures action.ReviewersResponse? && action.response.Success? ==>
        && reviewers == DedupFirst(Flatten(action.response.value))
        && reviewerTimes == Tally(Flatten(action.response.value))
        && !isLoading
        && effect == NoEffect
        && Consistent() && ViewSafe()
      ensures action.ReviewersResponse? && action.response.Failure? ==>
        && reviewerTimes == map[]
        && reviewers == old(reviewers)
        && isLoading == old(isLoading)
        && effect == NoEffect
        && (ViewSafe() <==> reviewers == [])
        && (Consistent() <==> reviewers == [])
    {
      match action {
        case ReviewersResponse(Success(responses)) =>
          var all := CollectReviewers(responses);
          reviewers := Distinct(all);
          reviewerTimes := CountTimes(all);
          isLoading := false;
          effect := NoEffect;
          DedupFirstNoDuplicates(all);
          DistinctHaveTimes(all);
          TallyCounts(all);
        case GetReviewers =>
          isLoading := true;
          effect := FetchReviewers;
        case ReviewersResponse(Failure(_)) =>
          reviewerTimes := map[];
          effect := NoEffect;
          if reviewers != [] {
            assert reviewers[0] in reviewers;
            assert reviewers[0].login in Logins(reviewers);
          }
      }
    }
  }

  // -----------------------------------------------------------------------
  // The preview store
  // -----------------------------------------------------------------------

  /** The four pull requests that the preview's client returns. */
  function PreviewResponses(): seq<RequestedReviewers>
  {
    [
      RequestedReviewers([Reviewer("hoge")]),
      RequestedReviewers([Reviewer("kalupas"), Reviewer("hoge")]),
      RequestedReviewers([Reviewer("maria"), Reviewer("kalupas"), Reviewer("hoge")]),
      RequestedReviewers([Reviewer("marianu"), Reviewer("hoge")])
    ]
  }

  /** The preview's requests, flattened in the order of the pull requests. */
  lemma PreviewFlatten()
    ensures Flatten(PreviewResponses()) ==
            [Reviewer("hoge"), Reviewer("kalupas"), Reviewer("hoge"), Reviewer("maria"),
             Reviewer("kalupas"), Reviewer("hoge"), Reviewer("marianu"), Reviewer("hoge")]
  {
  }

  /** The preview's distinct reviewers, in order of first request. */
  lemma PreviewDistinct(all: seq<Reviewer>)
    requires all == [Reviewer("hoge"), Reviewer("kalupas"), Reviewer("hoge"), Reviewer("maria"),
                     Reviewer("kalupas"), Reviewer("hoge"), Reviewer("marianu"), Reviewer("hoge")]
    ensures DedupFirst(all) ==
            [Reviewer("hoge"), Reviewer("kalupas"), Reviewer("maria"), Reviewer("marianu")]
  {
    var distinct := [Reviewer("hoge"), Reviewer("kalupas"), Reviewer("maria"), Reviewer("marianu")];
    FirstIndexUnique(all, Reviewer("hoge"), 0);
    FirstIndexUnique(all, Reviewer("kalupas"), 1);
    FirstIndexUnique(all, Reviewer("maria"), 3);
    FirstIndexUnique(all, Reviewer("marianu"), 6);
    DedupFirstUnique(all, distinct);
  }

  /** The preview's counts per login. */
  lemma PreviewTally(all: seq<Reviewer>)
    requires all == [Reviewer("hoge"), Reviewer("kalupas"), Reviewer("hoge"), Reviewer("maria"),
                     Reviewer("kalupas"), Reviewer("hoge"), Reviewer("marianu"), Reviewer("hoge")]
    ensures Tally(all) == map["hoge" := 4, "kalupas" := 2, "maria" := 1, "marianu" := 1]
  {
    PreviewLogins(all);
    PreviewCounts(all);
    TallyOfCounts(all);
  }

  /** A frequency map with these keys and these counts is the preview's map. */
  lemma TallyOfCounts(all: seq<Reviewer>)
    requires Logins(all) == {"hoge", "kalupas", "maria", "marianu"}
    requires Count(all, "hoge") == 4 && Count(all, "kalupas") == 2
    requires Count(all, "maria") == 1 && Count(all, "marianu") == 1
    ensures Tally(all) == map["hoge" := 4, "kalupas" := 2, "maria" := 1, "marianu" := 1]
  {
  }

  /** The preview's requested logins. */
  lemma PreviewLogins(all: seq<Reviewer>)
    requires all == [Reviewer("hoge"), Reviewer("kalupas"), Reviewer("hoge"), Reviewer("maria"),
                     Reviewer("kalupas"), Reviewer("hoge"), Reviewer("marianu"), Reviewer("hoge")]
    ensures Logins(all) == {"hoge", "kalupas", "maria", "marianu"}
  {
  }

  /** The preview's counts, one login at a time. */
  lemma PreviewCounts(all: seq<Reviewer>)
    requires all == [Reviewer("hoge"), Reviewer("kalupas"), Reviewer("hoge"), Reviewer("maria"),
                     Reviewer("kalupas"), Reviewer("hoge"), Reviewer("marianu"), Reviewer("hoge")]
    ensures Count(all, "hoge") == 4 && Count(all, "kalupas") == 2
    ensures Count(all, "maria") == 1 && Count(all, "marianu") == 1
  {
    PreviewMultiplicity(all, "hoge");
    PreviewMultiplicity(all, "kalupas");
    PreviewMultiplicity(all, "maria");
    PreviewMultiplicity(all, "marianu");
  }

  /** A login's count in the preview's requests is the multiplicity of its reviewer there. */
  lemma PreviewMultiplicity(all: seq<Reviewer>, login: string)
    requires all == [Reviewer("hoge"), Reviewer("kalupas"), Reviewer("hoge"), Reviewer("maria"),
                     Reviewer("kalupas"), Reviewer("hoge"), Reviewer("marianu"), Reviewer("hoge")]
    ensures Count(all, login) ==
            multiset{Reviewer("hoge"), Reviewer("kalupas"), Reviewer("hoge"), Reviewer("maria"),
                     Reviewer("kalupas"), Reviewer("hoge"), Reviewer("marianu"), Reviewer("hoge")}[Reviewer(login)]
  {
    CountIsMultiplicity(all, login);
  }

  /** On the preview's responses the distinct reviewers and their counts are these. */
  lemma PreviewAggregation()
    ensures DedupFirst(Flatten(PreviewResponses())) ==
            [Reviewer("hoge"), Reviewer("kalupas"), Reviewer("maria"), Reviewer("marianu")]
    ensures Tally(Flatten(PreviewResponses())) ==
            map["hoge" := 4, "kalupas" := 2, "maria" := 1, "marianu" := 1]
  {
    PreviewFlatten();
    PreviewDistinct(Flatten(PreviewResponses()));
    PreviewTally(Flatten(PreviewResponses()));
  }

  /** The preview store after pressing the button and receiving the preview's responses. */
  method PreviewStore() returns (reviewers: seq<Reviewer>, times: map<string, int>, loading: bool)
    ensures reviewers == [Reviewer("hoge"), Reviewer("kalupas"), Reviewer("maria"), Reviewer("marianu")]
    ensures times == map["hoge" := 4, "kalupas" := 2, "maria" := 1, "marianu" := 1]
    ensures !loading
  {
    var store := new ReviewerState();
    var effect := store.Reduce(GetReviewers);
    assert effect == FetchReviewers;
    effect := store.Reduce(ReviewersResponse(Success(PreviewResponses())));
    PreviewAggregation();
    reviewers, times, loading := store.reviewers, store.reviewerTimes, store.isLoading;
  }

  /**
   * The preview store after a second press whose fetch fails: the reviewers
   * stay listed without counts, and the loading flag stays set.
   */
  method PreviewRefetchFails() returns (reviewers: seq<Reviewer>, times: map<string, int>, loading: bool)
    ensures reviewers == [Reviewer("hoge"), Reviewer("kalupas"), Reviewer("maria"), Reviewer("marianu")]
    ensures times == map[]
    ensures loading
    ensures exists r :: r in reviewers && r.login !in times
  {
    var store := new ReviewerState();
    var effect := store.Reduce(GetReviewers);
    effect := store.Reduce(ReviewersResponse(Success(PreviewResponses())));
    PreviewAggregation();
    effect := store.Reduce(GetReviewers);
    effect := store.Reduce(ReviewersResponse(Failure(ApiFailure)));
    reviewers, times, loading := store.reviewers, store.reviewerTimes, store.isLoading;
    assert reviewers[0] in reviewers;
  }
}
