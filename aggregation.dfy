/**
 * The aggregation that the reducer performs on a successful response:
 * flatten the requested reviewers of every pull request into one list,
 * de-duplicate that list keeping first occurrences, and count how often
 * each login was requested.
 *
 * The first half of the module gives the meaning of each step as a ghost
 * function (Flatten, DedupFirst, Tally) and proves what each one promises;
 * the second half holds the three loops of the reducer, each proved equal
 * to its specification function.
 */
module ReviewerAggregation {
  import opened GitHubApiClient

  // ---------------------------------------------------------------------
  // Specification functions
  // ---------------------------------------------------------------------

  /** Every requested reviewer of every response, response by response, duplicates kept. */
  ghost function Flatten(responses: seq<RequestedReviewers>): seq<Reviewer>
  {
    if responses == [] then []
    else responses[0].requestedReviewers + Flatten(responses[1..])
  }

  /**
   * First-occurrence de-duplication: the last element is kept exactly when it
   * has not been seen earlier in the sequence.
   */
  ghost function DedupFirst(s: seq<Reviewer>): seq<Reviewer>
  {
    if s == [] then []
    else
      var prefix, last := s[..|s| - 1], s[|s| - 1];
      if last in prefix then DedupFirst(prefix) else DedupFirst(prefix) + [last]
  }

  /** How many entries of `s` carry `login`. */
  ghost function Count(s: seq<Reviewer>, login: string): nat
  {
    if s == [] then 0
    else (if s[0].login == login then 1 else 0) + Count(s[1..], login)
  }

  /** How many times `login` was requested, summed response by response. */
  ghost function CountAcross(responses: seq<RequestedReviewers>, login: string): nat
  {
    if responses == [] then 0
    else Count(responses[0].requestedReviewers, login) + CountAcross(responses[1..], login)
  }

  /** The logins that occur in `s`. */
  ghost function Logins(s: seq<Reviewer>): set<string>
  {
    set r | r in s :: r.login
  }

  /** The frequency map: each login that occurs in `s`, with its number of occurrences. */
  ghost function Tally(s: seq<Reviewer>): map<string, int>
  {
    map l | l in Logins(s) :: Count(s, l)
  }

  ghost predicate NoDuplicates(s: seq<Reviewer>)
  {
    forall i, j :: 0 <= i < j < |s| ==> s[i] != s[j]
  }

  /** The position of the first occurrence of `x` in `s`. */
  ghost function FirstIndex(s: seq<Reviewer>, x: Reviewer): (k: nat)
    requires x in s
    ensures k < |s| && s[k] == x && x !in s[..k]
  {
    if s[0] == x then 0 else 1 + FirstIndex(s[1..], x)
  }

  /** `d` lists elements of `s` in the order in which they first occur in `s`. */
  ghost predicate InFirstOccurrenceOrder(s: seq<Reviewer>, d: seq<Reviewer>)
    requires forall x :: x in d ==> x in s
  {
    forall i, j :: 0 <= i < j < |d| ==> FirstIndex(s, d[i]) < FirstIndex(s, d[j])
  }

  /** The sum of the counts that `times` shows for the rows `rows` (a missing key shows nothing). */
  ghost function SumTimes(rows: seq<Reviewer>, times: map<string, int>): int
  {
    if rows == [] then 0
    else (if rows[0].login in times then times[rows[0].login] else 0) + SumTimes(rows[1..], times)
  }

  // ---------------------------------------------------------------------
  // Flatten
  // ---------------------------------------------------------------------

  /** Appending one more response appends its reviewers to the flattened list. */
  lemma {:induction false} FlattenSnoc(responses: seq<RequestedReviewers>, r: RequestedReviewers)
    ensures Flatten(responses + [r]) == Flatten(responses) + r.requestedReviewers
  {
    if responses == [] {
      assert [r][1..] == [];
    } else {
      assert (responses + [r])[1..] == responses[1..] + [r];
      FlattenSnoc(responses[1..], r);
    }
  }

  /** A reviewer is in the flattened list exactly when some response requested it. */
  lemma {:induction false} FlattenMembers(responses: seq<RequestedReviewers>, x: Reviewer)
    ensures x in Flatten(responses) <==>
            exists i :: 0 <= i < |responses| && x in responses[i].requestedReviewers
  {
    if responses != [] {
      FlattenMembers(responses[1..], x);
      if x in Flatten(responses[1..]) {
        var i :| 0 <= i < |responses[1..]| && x in responses[1..][i].requestedReviewers;
        assert x in responses[i + 1].requestedReviewers;
      }
      if i :| 0 <= i < |responses| && x in responses[i].requestedReviewers {
        if i > 0 {
          assert x in responses[1..][i - 1].requestedReviewers;
        }
      }
    }
  }

  // ---------------------------------------------------------------------
  // Count and Tally
  // ---------------------------------------------------------------------

  lemma {:induction false} CountAppend(a: seq<Reviewer>, b: seq<Reviewer>, login: string)
    ensures Count(a + b, login) == Count(a, login) + Count(b, login)
  {
    if a == [] {
      assert a + b == b;
    } else {
      assert (a + b)[1..] == a[1..] + b;
      CountAppend(a[1..], b, login);
    }
  }

  /** A login has a positive count exactly when it occurs. */
  lemma {:induction false} CountPositive(s: seq<Reviewer>, login: string)
    ensures Count(s, login) > 0 <==> login in Logins(s)
  {
    if s != [] {
      CountPositive(s[1..], login);
      assert Logins(s) == {s[0].login} + Logins(s[1..]) by {
        forall l ensures l in Logins(s) <==> l in {s[0].login} + Logins(s[1..]) {
          if l in Logins(s) {
            var r :| r in s && r.login == l;
            if r != s[0] {
              assert r in s[1..];
            }
          }
          if l in Logins(s[1..]) {
            var r :| r in s[1..] && r.login == l;
            assert r in s;
          }
        }
      }
    }
  }

  /** A login's count is the multiplicity of its reviewer. */
  lemma {:induction false} CountIsMultiplicity(s: seq<Reviewer>, login: string)
    ensures Count(s, login) == multiset(s)[Reviewer(login)]
  {
    if s != [] {
      assert s == [s[0]] + s[1..];
      assert multiset(s) == multiset([s[0]]) + multiset(s[1..]);
      SameLogin(s[0], Reviewer(login));
      CountIsMultiplicity(s[1..], login);
    }
  }

  /** The number of times a login is requested in all responses together is the sum over the responses. */
  lemma {:induction false} CountFlatten(responses: seq<RequestedReviewers>, login: string)
    ensures Count(Flatten(responses), login) == CountAcross(responses, login)
  {
    if responses != [] {
      CountAppend(responses[0].requestedReviewers, Flatten(responses[1..]), login);
      CountFlatten(responses[1..], login);
    }
  }

  /** The keys of the frequency map are exactly the logins that occur, each with its count, at least 1. */
  lemma TallyCounts(s: seq<Reviewer>)
    ensures forall l :: l in Tally(s) <==> Count(s, l) > 0
    ensures forall l :: l in Tally(s) ==> Tally(s)[l] == Count(s, l) >= 1
  {
    forall l ensures l in Tally(s) <==> Count(s, l) > 0 {
      CountPositive(s, l);
    }
  }

  /** Counting one more reviewer increments its login's entry, inserting it with 1 if absent. */
  lemma TallySnoc(s: seq<Reviewer>, x: Reviewer)
    ensures Tally(s + [x]) ==
            Tally(s)[x.login := (if x.login in Tally(s) then Tally(s)[x.login] else 0) + 1]
  {
    var t := Tally(s)[x.login := (if x.login in Tally(s) then Tally(s)[x.login] else 0) + 1];
    assert Logins(s + [x]) == Logins(s) + {x.login} by {
      forall l ensures l in Logins(s + [x]) <==> l in Logins(s) + {x.login} {
        if l in Logins(s + [x]) {
          var r :| r in s + [x] && r.login == l;
          if r != x {
            assert r in s;
          }
        }
        if l in Logins(s) {
          var r :| r in s && r.login == l;
          assert r in s + [x];
        }
      }
    }
    forall l | l in Logins(s + [x]) ensures Count(s + [x], l) == t[l] {
      CountAppend(s, [x], l);
      assert [x][1..] == [];
      CountPositive(s, l);
    }
  }

  // ---------------------------------------------------------------------
  // DedupFirst
  // ---------------------------------------------------------------------

  /** De-duplication neither loses nor invents reviewers. */
  lemma {:induction false} DedupFirstMembers(s: seq<Reviewer>)
    ensures forall x :: x in DedupFirst(s) <==> x in s
  {
    if s != [] {
      var prefix, last := s[..|s| - 1], s[|s| - 1];
      DedupFirstMembers(prefix);
      assert s == prefix + [last];
    }
  }

  /** One position of a sequence is the first occurrence of its element exactly when no earlier one holds it. */
  lemma FirstIndexUnique(s: seq<Reviewer>, x: Reviewer, k: nat)
    requires k < |s| && s[k] == x && x !in s[..k]
    ensures FirstIndex(s, x) == k
  {
  }

  /** Appending an element does not move the first occurrence of an element already present. */
  lemma FirstIndexSnoc(t: seq<Reviewer>, y: Reviewer, z: Reviewer)
    requires z in t
    ensures FirstIndex(t + [y], z) == FirstIndex(t, z)
  {
    var k := FirstIndex(t, z);
    assert (t + [y])[..k] == t[..k];
    FirstIndexUnique(t + [y], z, k);
  }

  /** Appending an element keeps an ordering by first occurrence valid. */
  lemma OrderSnoc(t: seq<Reviewer>, y: Reviewer, d: seq<Reviewer>)
    requires forall x :: x in d ==> x in t
    requires InFirstOccurrenceOrder(t, d)
    ensures forall x :: x in d ==> x in t + [y]
    ensures InFirstOccurrenceOrder(t + [y], d)
  {
    forall z | z in d ensures FirstIndex(t + [y], z) == FirstIndex(t, z) {
      FirstIndexSnoc(t, y, z);
    }
  }

  /** An element that first occurs at the end comes after everything that occurred before it. */
  lemma OrderSnocNew(t: seq<Reviewer>, y: Reviewer, d: seq<Reviewer>)
    requires forall x :: x in d ==> x in t
    requires InFirstOccurrenceOrder(t, d)
    requires y !in t
    ensures forall x :: x in d + [y] ==> x in t + [y]
    ensures InFirstOccurrenceOrder(t + [y], d + [y])
  {
    OrderSnoc(t, y, d);
    assert (t + [y])[..|t|] == t;
    FirstIndexUnique(t + [y], y, |t|);
    forall i, j | 0 <= i < j < |d| + 1
      ensures FirstIndex(t + [y], (d + [y])[i]) < FirstIndex(t + [y], (d + [y])[j])
    {
      assert (d + [y])[i] == d[i];
      if j < |d| {
        assert (d + [y])[j] == d[j];
      }
    }
  }

  /** De-duplication keeps its elements in the order of their first occurrences. */
  lemma {:induction false} DedupFirstOrder(s: seq<Reviewer>)
    ensures forall x :: x in DedupFirst(s) ==> x in s
    ensures InFirstOccurrenceOrder(s, DedupFirst(s))
  {
    DedupFirstMembers(s);
    if s != [] {
      var prefix, last := s[..|s| - 1], s[|s| - 1];
      assert s == prefix + [last];
      DedupFirstOrder(prefix);
      if last in prefix {
        OrderSnoc(prefix, last, DedupFirst(prefix));
      } else {
        OrderSnocNew(prefix, last, DedupFirst(prefix));
      }
    }
  }

  /** First-occurrence de-duplication leaves no two entries equal, that is, no two with the same login. */
  lemma DedupFirstNoDuplicates(s: seq<Reviewer>)
    ensures NoDuplicates(DedupFirst(s))
    ensures forall i, j :: 0 <= i < j < |DedupFirst(s)| ==> DedupFirst(s)[i].login != DedupFirst(s)[j].login
  {
    DedupFirstOrder(s);
    var d := DedupFirst(s);
    forall i, j | 0 <= i < j < |d| ensures d[i].login != d[j].login {
      SameLogin(d[i], d[j]);
    }
  }

  /** Two orderings by first occurrence of the same elements start with the same element. */
  lemma OrderedHeads(s: seq<Reviewer>, a: seq<Reviewer>, b: seq<Reviewer>)
    requires forall x :: x in a ==> x in s
    requires forall x :: x in a <==> x in b
    requires InFirstOccurrenceOrder(s, a)
    requires InFirstOccurrenceOrder(s, b)
    requires a != []
    ensures b != [] && a[0] == b[0]
  {
    assert a[0] in a && a[0] in b;
    assert b[0] in b && b[0] in a;
    var i :| 0 <= i < |a| && a[i] == b[0];
    var j :| 0 <= j < |b| && b[j] == a[0];
    assert FirstIndex(s, a[0]) <= FirstIndex(s, a[i]);
    assert FirstIndex(s, b[0]) <= FirstIndex(s, b[j]);
  }

  /** Dropping the head of an ordering by first occurrence removes exactly that element and keeps the order. */
  lemma OrderedTail(s: seq<Reviewer>, a: seq<Reviewer>)
    requires forall x :: x in a ==> x in s
    requires InFirstOccurrenceOrder(s, a)
    requires a != []
    ensures forall x :: x in a[1..] <==> x in a && x != a[0]
    ensures forall x :: x in a[1..] ==> x in s
    ensures InFirstOccurrenceOrder(s, a[1..])
  {
    var t := a[1..];
    forall x ensures x in t <==> x in a && x != a[0] {
      if x in t {
        var k :| 0 <= k < |t| && t[k] == x;
        assert a[k + 1] == x;
        assert FirstIndex(s, a[0]) < FirstIndex(s, a[k + 1]);
      }
      if x in a && x != a[0] {
        var m :| 0 <= m < |a| && a[m] == x;
        assert x == t[m - 1];
      }
    }
    forall p, q | 0 <= p < q < |t| ensures FirstIndex(s, t[p]) < FirstIndex(s, t[q]) {
      assert t[p] == a[p + 1] && t[q] == a[q + 1];
    }
  }

  /** Two orderings by first occurrence of the same elements are the same sequence. */
  lemma {:induction false} OrderedUnique(s: seq<Reviewer>, a: seq<Reviewer>, b: seq<Reviewer>)
    requires forall x :: x in a ==> x in s
    requires forall x :: x in a <==> x in b
    requires InFirstOccurrenceOrder(s, a)
    requires InFirstOccurrenceOrder(s, b)
    ensures a == b
    decreases |a|
  {
    assert a == [] <==> b == [] by {
      if a != [] {
        assert a[0] in b;
      }
      if b != [] {
        assert b[0] in a;
      }
    }
    if a != [] {
      OrderedHeads(s, a, b);
      OrderedTail(s, a);
      OrderedTail(s, b);
      OrderedUnique(s, a[1..], b[1..]);
      assert a == [a[0]] + a[1..] && b == [b[0]] + b[1..];
    }
  }

  /**
   * DedupFirst is the only sequence that holds exactly the elements of `s`
   * in the order of their first occurrences.
   */
  lemma DedupFirstUnique(s: seq<Reviewer>, r: seq<Reviewer>)
    requires forall x :: x in r <==> x in s
    requires InFirstOccurrenceOrder(s, r)
    ensures r == DedupFirst(s)
  {
    DedupFirstMembers(s);
    DedupFirstOrder(s);
    OrderedUnique(s, r, DedupFirst(s));
  }

  /** A sequence without duplicates is its own de-duplication. */
  lemma {:induction false} DedupFirstOfDistinct(s: seq<Reviewer>)
    requires NoDuplicates(s)
    ensures DedupFirst(s) == s
  {
    if s != [] {
      var prefix, last := s[..|s| - 1], s[|s| - 1];
      assert NoDuplicates(prefix) by {
        forall i, j | 0 <= i < j < |prefix| ensures prefix[i] != prefix[j] {
          assert prefix[i] == s[i] && prefix[j] == s[j];
        }
      }
      DedupFirstOfDistinct(prefix);
      assert last !in prefix by {
        forall k | 0 <= k < |prefix| ensures prefix[k] != last {
          assert prefix[k] == s[k];
        }
      }
      assert s == prefix + [last];
    }
  }

  /** De-duplicating twice gives what de-duplicating once gives. */
  lemma DedupFirstIdempotent(s: seq<Reviewer>)
    ensures DedupFirst(DedupFirst(s)) == DedupFirst(s)
  {
    DedupFirstNoDuplicates(s);
    DedupFirstOfDistinct(DedupFirst(s));
  }

  // ---------------------------------------------------------------------
  // The distinct list against the frequency map
  // ---------------------------------------------------------------------

  /**
   * Every distinct reviewer has an entry in the frequency map and every key
   * belongs to a distinct reviewer, so looking up a listed reviewer's count
   * never fails.
   */
  lemma DistinctHaveTimes(s: seq<Reviewer>)
    ensures forall r :: r in DedupFirst(s) ==> r.login in Tally(s)
    ensures Logins(DedupFirst(s)) == Tally(s).Keys
  {
    DedupFirstMembers(s);
    assert Logins(DedupFirst(s)) == Logins(s) by {
      forall l ensures l in Logins(DedupFirst(s)) <==> l in Logins(s) {
        if l in Logins(s) {
          var r :| r in s && r.login == l;
          assert r in DedupFirst(s);
        }
      }
    }
  }

  /** In a list without duplicates a reviewer's login occurs once if it is listed, and otherwise not at all. */
  lemma {:induction false} CountDistinct(d: seq<Reviewer>, x: Reviewer)
    requires NoDuplicates(d)
    ensures Count(d, x.login) == if x in d then 1 else 0
  {
    if d != [] {
      assert NoDuplicates(d[1..]) by {
        forall i, j | 0 <= i < j < |d[1..]| ensures d[1..][i] != d[1..][j] {
          assert d[1..][i] == d[i + 1] && d[1..][j] == d[j + 1];
        }
      }
      CountDistinct(d[1..], x);
      SameLogin(d[0], x);
      if d[0] == x {
        assert x !in d[1..] by {
          forall k | 0 <= k < |d[1..]| ensures d[1..][k] != x {
            assert d[1..][k] == d[k + 1];
          }
        }
      } else {
        assert x in d <==> x in d[1..] by {
          assert d == [d[0]] + d[1..];
        }
      }
    }
  }

  lemma {:induction false} SumTimesAppend(a: seq<Reviewer>, b: seq<Reviewer>, times: map<string, int>)
    ensures SumTimes(a + b, times) == SumTimes(a, times) + SumTimes(b, times)
  {
    if a == [] {
      assert a + b == b;
    } else {
      assert (a + b)[1..] == a[1..] + b;
      SumTimesAppend(a[1..], b, times);
    }
  }

  /** Incrementing one login's entry raises the shown sum by the number of rows carrying that login. */
  lemma {:induction false} SumTimesBump(rows: seq<Reviewer>, times: map<string, int>, login: string)
    ensures SumTimes(rows, times[login := (if login in times then times[login] else 0) + 1]) ==
            SumTimes(rows, times) + Count(rows, login)
  {
    if rows != [] {
      SumTimesBump(rows[1..], times, login);
    }
  }

  /** An empty response list gives no reviewers and no counts. */
  lemma EmptyInput()
    ensures Flatten([]) == []
    ensures DedupFirst(Flatten([])) == [] && Tally(Flatten([])) == map[]
  {
  }

  /** The counts shown next to the distinct reviewers add up to the number of review requests. */
  lemma {:induction false} ShownTimesSum(s: seq<Reviewer>)
    ensures SumTimes(DedupFirst(s), Tally(s)) == |s|
    decreases |s|
  {
    if s != [] {
      var prefix, last := s[..|s| - 1], s[|s| - 1];
      assert s == prefix + [last];
      ShownTimesSum(prefix);
      TallySnoc(prefix, last);
      var d := DedupFirst(prefix);
      DedupFirstMembers(prefix);
      DedupFirstNoDuplicates(prefix);
      CountDistinct(d, last);
      SumTimesBump(d, Tally(prefix), last.login);
      if last !in prefix {
        SumTimesAppend(d, [last], Tally(s));
        assert [last][1..] == [];
        CountAppend(prefix, [last], last.login);
        CountPositive(prefix, last.login);
        assert last.login !in Logins(prefix) by {
          forall r | r in prefix ensures r.login != last.login {
            SameLogin(r, last);
          }
        }
      }
    }
  }

  // ---------------------------------------------------------------------
  // The reducer's loops
  // ---------------------------------------------------------------------

  /** Appends the requested reviewers of every response, in order, to one list. */
  method CollectReviewers(responses: seq<RequestedReviewers>) returns (reviewers: seq<Reviewer>)
    ensures reviewers == Flatten(responses)
  {
    reviewers := [];
    for i := 0 to |responses|
      invariant reviewers == Flatten(responses[..i])
    {
      assert responses[..i + 1] == responses[..i] + [responses[i]];
      FlattenSnoc(responses[..i], responses[i]);
      reviewers := reviewers + responses[i].requestedReviewers;
    }
    assert responses[..|responses|] == responses;
  }

  /** Keeps the first occurrence of each reviewer, in order, remembering the ones already seen. */
  method Distinct(reviewers: seq<Reviewer>) returns (distinct: seq<Reviewer>)
    ensures distinct == DedupFirst(reviewers)
  {
    distinct := [];
    var seen: set<Reviewer> := {};
    for i := 0 to |reviewers|
      invariant distinct == DedupFirst(reviewers[..i])
      invariant forall x :: x in seen <==> x in reviewers[..i]
    {
      var reviewer := reviewers[i];
      assert reviewers[..i + 1][..i] == reviewers[..i];
      assert reviewers[..i + 1] == reviewers[..i] + [reviewer];
      if reviewer !in seen {
        distinct := distinct + [reviewer];
        seen := seen + {reviewer};
      }
    }
    assert reviewers[..|reviewers|] == reviewers;
  }

  /** Builds the frequency map by incrementing the entry of each reviewer's login, starting from 0. */
  method CountTimes(reviewers: seq<Reviewer>) returns (times: map<string, int>)
    ensures times == Tally(reviewers)
  {
    times := map[];
    for i := 0 to |reviewers|
      invariant times == Tally(reviewers[..i])
    {
      var login := reviewers[i].login;
      assert reviewers[..i + 1] == reviewers[..i] + [reviewers[i]];
      TallySnoc(reviewers[..i], reviewers[i]);
      times := times[login := (if login in times then times[login] else 0) + 1];
    }
    assert reviewers[..|reviewers|] == reviewers;
  }
}
