/**
 * The value types of the GitHub API client: one record per pull request,
 * holding the reviewers whose review was requested on it.
 * The live client (URL building, HTTP request, JSON decoding) is not modelled;
 * a response reaches the reducer as a `Result` value.
 */
module GitHubApiClient {

  /** A requested reviewer. Its only field is the login, so equality and hashing are on the login. */
  datatype Reviewer = Reviewer(login: string)

  /** One decoded pull request: the reviewers requested on it, in the order the API lists them. */
  datatype RequestedReviewers = RequestedReviewers(requestedReviewers: seq<Reviewer>)

  /** The client's single opaque failure: transport, HTTP and decoding errors all collapse into it. */
  datatype ApiFailure = ApiFailure

  /** Two reviewers are the same reviewer exactly when their logins are equal. */
  lemma SameLogin(x: Reviewer, y: Reviewer)
    ensures x == y <==> x.login == y.login
  {
  }
}
