# ReviewerTimes: the reviewer reducer

ReviewerTimes is a small SwiftUI app. It fetches the pull requests of one GitHub
repository and, for each person whose review was requested, shows how many times
that happened. Its logic is one reducer, `reviewerReducer`, over the store state
`ReviewerState`. The state has three fields: the counts `reviewerTimes`, the
distinct `reviewers` and the flag `isLoading`. The reducer handles three actions:

- `getReviewers`: sets `isLoading` and returns the fetch effect.
- `reviewersResponse(.success(responses))`: does four things.
  - It flattens the requested reviewers of all pull requests into one list.
  - It de-duplicates that list, keeping each reviewer where it first occurs.
    Reviewers are equal when their logins are equal.
  - It counts each login over the list before de-duplication.
  - It clears `isLoading`.
- `reviewersResponse(.failure)`: empties `reviewerTimes` and changes nothing else.

The model has four modules:

- `Wrappers` (`wrappers.dfy`) holds the `Result` value that a fetch delivers.
- `GitHubApiClient` (`github_api_client.dfy`) holds the API value types
  `Reviewer`, `RequestedReviewers` and `ApiFailure`.
- `ReviewerAggregation` (`aggregation.dfy`) holds the success branch's
  computation.
  - Three ghost functions give its meaning: `Flatten`, `DedupFirst` (first
    occurrence wins) and `Tally` (the map from each occurring login to its
    `Count`). Lemmas prove what each one promises.
  - Three loop methods mirror the reducer's code: `CollectReviewers`, `Distinct`
    and `CountTimes`. Each is proved equal to its function. `Distinct` stands in
    for `NSOrderedSet`: it is a loop with a set of reviewers already seen.
- `ContentView` (`content_view.dfy`) holds the class `ReviewerState`, whose fields
  are the store's fields. Its method `Reduce` applies one action in place. The
  module also holds the preview store's data as a test vector.

`DedupFirst` is pinned down independently of its recursive definition. Its result
has three properties: it holds exactly the elements of the input, it has no two
equal entries, and it lists them in strictly increasing order of first
occurrence. `DedupFirstUnique` proves that no other sequence has all three.

The failure branch is modelled as the code is written. It keeps the reviewer
list, and it does not touch `isLoading`. So a fetch that fails leaves the loading
flag set. It also leaves listed reviewers without counts. The view reads
`reviewerTimes[reviewer.login]!` for every listed reviewer (ContentView.swift:80).
After a success followed by a failed refetch, that lookup has no value for any
listed reviewer. The contract of `Reduce` states this exactly: after a failure,
`ViewSafe()` and `Consistent()` hold only if the reviewer list is empty.
`PreviewRefetchFails` shows such a state on the preview data.

A failure does not reset the whole state: the code clears only the counts
(ContentView.swift:55-57).

## Model

| member | source | states |
|---|---|---|
| `GitHubApiClient.SameLogin` | RevewerTimes/GitHubAPIClient.swift:16-18 | two reviewers are equal exactly when their logins are equal (equality and hashing are on `login`) |
| `ReviewerAggregation.FlattenSnoc` | RevewerTimes/ContentView.swift:32-35 | one more response adds exactly its `requestedReviewers` to the end of the flattened list |
| `ReviewerAggregation.FlattenMembers` | RevewerTimes/ContentView.swift:32-35 | a reviewer is in the flattened list if and only if some response requested it |
| `ReviewerAggregation.CollectReviewers` | RevewerTimes/ContentView.swift:32-35 | the append loop returns every response's reviewers in order, duplicates kept (`Flatten`) |
| `ReviewerAggregation.DedupFirstMembers` | RevewerTimes/ContentView.swift:36-37 | de-duplication keeps every reviewer of the input and adds none (both directions) |
| `ReviewerAggregation.DedupFirstNoDuplicates` | RevewerTimes/ContentView.swift:36-37 | the de-duplicated list has no two equal entries, so no two entries share a login |
| `ReviewerAggregation.DedupFirstOrder` | RevewerTimes/ContentView.swift:36-37 | the de-duplicated list is in strictly increasing order of first occurrence in the input |
| `ReviewerAggregation.DedupFirstUnique` | RevewerTimes/ContentView.swift:36-37 | any sequence with the same elements as the input, in first-occurrence order, equals the de-duplicated list |
| `ReviewerAggregation.DedupFirstOfDistinct` | RevewerTimes/ContentView.swift:36-37 | a list without duplicates is left unchanged by de-duplication |
| `ReviewerAggregation.DedupFirstIdempotent` | RevewerTimes/ContentView.swift:36-37 | de-duplicating the de-duplicated list returns it unchanged |
| `ReviewerAggregation.Distinct` | RevewerTimes/ContentView.swift:36-37 | the loop with a set of reviewers already seen returns the first-occurrence de-duplication (`DedupFirst`) |
| `ReviewerAggregation.CountPositive` | RevewerTimes/ContentView.swift:39-43 | a login's count is positive if and only if the login occurs |
| `ReviewerAggregation.CountIsMultiplicity` | RevewerTimes/ContentView.swift:39-42 | a login's count equals the number of copies of its reviewer in the list |
| `ReviewerAggregation.CountFlatten` | RevewerTimes/ContentView.swift:33-43 | a login's count over the flattened list is the sum of its counts in each response |
| `ReviewerAggregation.TallyCounts` | RevewerTimes/ContentView.swift:39-43 | the frequency map has a key if and only if the login occurs; each value is the login's count and at least 1 |
| `ReviewerAggregation.TallySnoc` | RevewerTimes/ContentView.swift:41 | counting one more reviewer adds 1 to its login's entry, inserting the entry with 1 when it is absent (`[login, default: 0] += 1`); other entries stay the same |
| `ReviewerAggregation.CountTimes` | RevewerTimes/ContentView.swift:39-42 | the increment loop returns the frequency map of the list (`Tally`) |
| `ReviewerAggregation.DistinctHaveTimes` | RevewerTimes/ContentView.swift:36-43 | every distinct reviewer's login is a key of the frequency map, and the keys are exactly the distinct reviewers' logins |
| `ReviewerAggregation.EmptyInput` | RevewerTimes/ContentView.swift:32-43 | an empty response list gives an empty distinct list and an empty frequency map |
| `ReviewerAggregation.ShownTimesSum` | RevewerTimes/ContentView.swift:39-43 | the counts of the distinct reviewers add up to the length of the flattened list |
| `ContentView.ReviewerState.ViewSafe` | RevewerTimes/ContentView.swift:77-80 | the view's force-unwrapped lookup `reviewerTimes[reviewer.login]!` has a value for every listed reviewer |
| `ContentView.ReviewerState.Consistent` | RevewerTimes/ContentView.swift:12-16 | the list has no reviewer twice, its logins are exactly the map's keys, every count is at least 1; this agreement implies `ViewSafe` |
| `ContentView.ReviewerState.constructor` | RevewerTimes/ContentView.swift:12-16 | the initial state has an empty map, an empty list and `isLoading` false |
| `ContentView.ReviewerState.Reduce` | RevewerTimes/ContentView.swift:28-59 | `getReviewers` sets `isLoading`, keeps `reviewers` and `reviewerTimes`, and returns the fetch effect. A success sets `reviewers` to `DedupFirst` of the flattened responses and `reviewerTimes` to their `Tally`, whatever the old state was; it clears `isLoading`, returns no effect, and leaves the state consistent and every view lookup defined. A failure empties `reviewerTimes`, keeps `reviewers` and `isLoading`, and returns no effect; afterwards the state is consistent, and the view lookups defined, only if `reviewers` is empty |
| `ContentView.PreviewAggregation` | RevewerTimes/ContentView.swift:98-113 | on the preview's four responses the distinct list is `[hoge, kalupas, maria, marianu]` and the counts are `{hoge: 4, kalupas: 2, maria: 1, marianu: 1}` |
| `ContentView.PreviewStore` | RevewerTimes/ContentView.swift:92-113 | running `getReviewers` and then the preview's success response on a new store gives that list, those counts, and `isLoading` false |
| `ContentView.PreviewRefetchFails` | RevewerTimes/ContentView.swift:47-57 | after that, another `getReviewers` followed by a failure leaves the four reviewers listed, an empty map, and `isLoading` still true, so a listed reviewer has no count |

## Left out

- `GitHubAPIClient.live` (GitHubAPIClient.swift:35-58) is left out: URL building, HTTP headers, `URLSession` and JSON decoding are I/O and library calls. A fetch result enters the model as a `Result` of reviewer lists or the single `ApiFailure`.
- The effect plumbing of `getReviewers` (ContentView.swift:49-53) is left out because it is asynchronous scheduling. `Reduce` returns the tag `FetchReviewers` in place of the effect. Each action is one atomic step, and overlapping fetches are not modelled.
- `NSOrderedSet` and the `as!` cast (ContentView.swift:36-37) are Foundation calls. `Distinct`, an explicit loop over a set of reviewers already seen, replaces them.
- The SwiftUI view and the preview provider (ContentView.swift:61-121) are presentation. Two things are kept from them: the view's count lookup, as the predicate `ViewSafe`, and the preview data, as a test vector.
- The app entry point (`RevewerTimesApp.swift`) and the `.debug()` reducer logging are lifecycle and logging glue.
- Swift's `Int` is 64 bits wide. The counts are unbounded integers here, because a count can never exceed the number of review requests in a single response page.
- Logins are compared code point by code point. Swift compares `String` values, and hashes them, by Unicode canonical equivalence; that applies both to `Reviewer` equality in `NSOrderedSet` (ContentView.swift:36) and to the dictionary key (ContentView.swift:41). The two comparisons agree on ASCII logins, which is what GitHub logins are; on logins that differ only in Unicode normalisation the model keeps two reviewers where Swift keeps one.
