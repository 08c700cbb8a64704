/**
 * The match list of the profile form (`showMatches` in formFunctions.js):
 * every saved profile other than the current user's, scored against the
 * current user with `computeScore` and ordered best first.
 */
module Matches {
  import opened Seqs
  import opened Scoring

  /** One entry of the match list: a profile and its score against the current user. */
  datatype Match = Match(user: User, score: Score)

  /** Every stored profile whose id differs from the current user's, in stored order. */
  function Others(me: User, users: seq<User>): seq<User> {
    Filter((u: User) => u.id != me.id, users)
  }

  /** The filter drops every profile carrying the current user's id and keeps every other one as often as it occurs. */
  lemma OthersCount(me: User, users: seq<User>, u: User)
    ensures multiset(Others(me, users))[u] == if u.id == me.id then 0 else multiset(users)[u]
  {
    FilterCount((u: User) => u.id != me.id, users, u);
  }

  /** Each profile paired with its score against `me`, in the same order. */
  function ScoreAll(me: User, users: seq<User>): (r: seq<Match>)
    ensures |r| == |users|
    ensures forall i :: 0 <= i < |r| ==> r[i] == Match(users[i], ComputeScore(me, users[i]))
  {
    if users == [] then [] else [Match(users[0], ComputeScore(me, users[0]))] + ScoreAll(me, users[1..])
  }

  /** The profiles of a match list, in order. */
  function UsersOf(ms: seq<Match>): seq<User> {
    if ms == [] then [] else [ms[0].user] + UsersOf(ms[1..])
  }

  lemma {:induction false} UsersOfScoreAll(me: User, users: seq<User>)
    ensures UsersOf(ScoreAll(me, users)) == users
  {
    if users != [] {
      UsersOfScoreAll(me, users[1..]);
      assert ScoreAll(me, users)[1..] == ScoreAll(me, users[1..]);
    }
  }

  /** Ordered by non-increasing `score.total`. */
  ghost predicate NonIncreasing(ms: seq<Match>) {
    forall i, j :: 0 <= i < j < |ms| ==> ms[i].score.total >= ms[j].score.total
  }

  lemma PrependKeepsOrder(x: Match, ms: seq<Match>)
    requires NonIncreasing(ms)
    requires forall j :: 0 <= j < |ms| ==> x.score.total >= ms[j].score.total
    ensures NonIncreasing([x] + ms)
  {
    var r := [x] + ms;
    forall i, j | 0 <= i < j < |r| ensures r[i].score.total >= r[j].score.total {
      if i > 0 {
        assert r[i] == ms[i - 1] && r[j] == ms[j - 1];
      } else {
        assert r[j] == ms[j - 1];
      }
    }
  }

  /**
   * Places `m` after every entry with a strictly larger total and before the
   * rest, so an earlier input stays ahead of later inputs with the same total.
   */
  function Insert(m: Match, sorted: seq<Match>): (r: seq<Match>)
    requires NonIncreasing(sorted)
    ensures NonIncreasing(r)
    ensures multiset(r) == multiset(sorted) + multiset{m}
  {
    if sorted == [] then
      [m]
    else if sorted[0].score.total <= m.score.total then
      PrependKeepsOrder(m, sorted);
      [m] + sorted
    else
      var rest := Insert(m, sorted[1..]);
      assert sorted == [sorted[0]] + sorted[1..];
      forall j | 0 <= j < |rest| ensures sorted[0].score.total >= rest[j].score.total {
        assert rest[j] in multiset(rest);
        if rest[j] != m {
          assert rest[j] in multiset(sorted[1..]);
          assert rest[j] in sorted[1..];
        }
      }
      PrependKeepsOrder(sorted[0], rest);
      [sorted[0]] + rest
  }

  lemma UsersOfCons(x: Match, ms: seq<Match>)
    ensures UsersOf([x] + ms) == [x.user] + UsersOf(ms)
  {
    assert ([x] + ms)[1..] == ms;
  }

  lemma {:induction false} InsertUsers(m: Match, sorted: seq<Match>)
    requires NonIncreasing(sorted)
    ensures multiset(UsersOf(Insert(m, sorted))) == multiset(UsersOf(sorted)) + multiset{m.user}
  {
    if sorted == [] {
      assert Insert(m, sorted) == [m];
      UsersOfCons(m, []);
    } else if sorted[0].score.total <= m.score.total {
      assert Insert(m, sorted) == [m] + sorted;
      UsersOfCons(m, sorted);
    } else {
      var rest := Insert(m, sorted[1..]);
      assert Insert(m, sorted) == [sorted[0]] + rest;
      InsertUsers(m, sorted[1..]);
      UsersOfCons(sorted[0], rest);
      UsersOfCons(sorted[0], sorted[1..]);
      assert [sorted[0]] + sorted[1..] == sorted;
      calc {
        multiset(UsersOf(Insert(m, sorted)));
        multiset([sorted[0].user] + UsersOf(rest));
        multiset{sorted[0].user} + multiset(UsersOf(sorted[1..])) + multiset{m.user};
        multiset([sorted[0].user] + UsersOf(sorted[1..])) + multiset{m.user};
      }
    }
  }

  /** The match list ordered by total, best first; built stably, so equal totals keep their input order. */
  function SortByTotal(ms: seq<Match>): (r: seq<Match>)
    ensures NonIncreasing(r)
    ensures multiset(r) == multiset(ms)
  {
    if ms == [] then []
    else
      assert ms == [ms[0]] + ms[1..];
      Insert(ms[0], SortByTotal(ms[1..]))
  }

  lemma {:induction false} SortByTotalUsers(ms: seq<Match>)
    ensures multiset(UsersOf(SortByTotal(ms))) == multiset(UsersOf(ms))
  {
    if ms != [] {
      SortByTotalUsers(ms[1..]);
      InsertUsers(ms[0], SortByTotal(ms[1..]));
    }
  }

  /**
   * `showMatches` once the current user `me` is known: the current user is
   * left out, every other saved profile appears exactly as often as it is
   * stored, each with its score against `me`, best total first.
   */
  function ShowMatches(me: User, users: seq<User>): (r: seq<Match>)
    ensures NonIncreasing(r)
    ensures forall i :: 0 <= i < |r| ==> r[i].user.id != me.id && r[i].score == ComputeScore(me, r[i].user)
    ensures forall u :: multiset(UsersOf(r))[u] == if u.id == me.id then 0 else multiset(users)[u]
  {
    var others := Others(me, users);
    var scored := ScoreAll(me, others);
    var r := SortByTotal(scored);
    forall i | 0 <= i < |r| ensures r[i].user.id != me.id && r[i].score == ComputeScore(me, r[i].user) {
      assert r[i] in multiset(scored);
      var k :| 0 <= k < |scored| && scored[k] == r[i];
      assert others[k] in others;
    }
    UsersOfScoreAll(me, others);
    SortByTotalUsers(scored);
    forall u ensures multiset(UsersOf(r))[u] == if u.id == me.id then 0 else multiset(users)[u] {
      OthersCount(me, users, u);
    }
    r
  }

  /** The list has one entry for each stored profile not carrying the current user's id. */
  lemma ShowMatchesLength(me: User, users: seq<User>)
    ensures |ShowMatches(me, users)| == |Others(me, users)|
  {
    var r := ShowMatches(me, users);
    assert multiset(UsersOf(r)) == multiset(Others(me, users)) by {
      forall u ensures multiset(UsersOf(r))[u] == multiset(Others(me, users))[u] {
        OthersCount(me, users, u);
      }
    }
    assert |multiset(UsersOf(r))| == |multiset(Others(me, users))|;
    UsersOfLength(r);
  }

  /**
   * As the page calls it, the current user is one of the stored profiles;
   * with ids unique, the list then holds every stored profile but that one.
   */
  lemma ShowMatchesOfStoredUser(me: User, users: seq<User>)
    requires me in users
    requires forall i, j :: 0 <= i < j < |users| ==> users[i].id != users[j].id
    ensures |ShowMatches(me, users)| == |users| - 1
  {
    var k :| 0 <= k < |users| && users[k] == me;
    FilterDropsOne((u: User) => u.id != me.id, users, k);
    ShowMatchesLength(me, users);
  }

  lemma {:induction false} UsersOfLength(ms: seq<Match>)
    ensures |UsersOf(ms)| == |ms|
  {
    if ms != [] {
      UsersOfLength(ms[1..]);
    }
  }
}
