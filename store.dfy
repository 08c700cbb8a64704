/**
 * The browser-side bookkeeping of the profile form (formFunctions.js): the
 * saved user list with its upsert by e-mail, the current user, the match list,
 * the match requests with their accept and decline updates, the list of
 * available times, and the parse of the "other subjects" field.
 *
 * The three storage keys `brainwave_users`, `brainwave_requests` and
 * `brainwave_current_user` are the fields of one `Store` object; a handler
 * that loads a list, changes it and saves it back is one method.
 */
module Profiles {
  import opened Options
  import opened Seqs
  import opened Text
  import opened Scoring
  import Matches

  // ---------------------------------------------------------------------------
  // Saving a profile: upsert keyed on the e-mail address, ignoring case

  /** The stored profile has this e-mail, ignoring case; a stored profile with no e-mail never matches. */
  predicate SameEmail(x: User, email: string) {
    x.email != "" && EqualsIgnoringCase(x.email, email)
  }

  /** The user list after saving `user`, whose fresh id would be `newId`. */
  function Upsert(users: seq<User>, user: User, newId: int): seq<User> {
    match FirstIndex((x: User) => SameEmail(x, user.email), users)
    case Some(i) => users[i := user.(id := users[i].id)]
    case None => users + [user.(id := newId)]
  }

  /**
   * When a stored profile has the same e-mail ignoring case, the first such
   * profile is replaced at its own index by the new one, which keeps the old
   * id; the length and every other entry are unchanged.
   */
  lemma UpsertReplaces(users: seq<User>, user: User, newId: int, i: nat)
    requires i < |users| && SameEmail(users[i], user.email)
    requires forall j :: 0 <= j < i ==> !SameEmail(users[j], user.email)
    ensures var r := Upsert(users, user, newId);
            && |r| == |users|
            && r[i] == user.(id := users[i].id)
            && forall j :: 0 <= j < |users| && j != i ==> r[j] == users[j]
  {
  }

  /** With no stored profile of the same e-mail, the new profile is appended with the fresh id. */
  lemma UpsertAppends(users: seq<User>, user: User, newId: int)
    requires forall j :: 0 <= j < |users| ==> !SameEmail(users[j], user.email)
    ensures Upsert(users, user, newId) == users + [user.(id := newId)]
    ensures |Upsert(users, user, newId)| == |users| + 1
  {
  }

  /** No two stored profiles share a non-empty e-mail, ignoring case. */
  ghost predicate UniqueEmails(users: seq<User>) {
    forall i, j :: 0 <= i < j < |users| ==> !SameEmail(users[j], users[i].email)
  }

  lemma LowerEmpty(s: string)
    ensures Lower(s) == "" <==> s == ""
  {
    assert |Lower(s)| == |s|;
  }

  /** Saving through the upsert never creates two profiles with the same e-mail. */
  lemma UpsertKeepsEmailsUnique(users: seq<User>, user: User, newId: int)
    requires UniqueEmails(users)
    ensures UniqueEmails(Upsert(users, user, newId))
  {
    var r := Upsert(users, user, newId);
    LowerEmpty(user.email);
    match FirstIndex((x: User) => SameEmail(x, user.email), users)
    case Some(k) =>
      forall i, j | 0 <= i < j < |r| ensures !SameEmail(r[j], r[i].email) {
        LowerEmpty(users[i].email);
        LowerEmpty(users[j].email);
        if i == k {
          assert !SameEmail(users[j], users[k].email);
        } else if j == k {
          assert !SameEmail(users[k], users[i].email);
        }
      }
    case None =>
      forall i, j | 0 <= i < j < |r| ensures !SameEmail(r[j], r[i].email) {
        LowerEmpty(users[i].email);
        if j == |users| {
          assert !SameEmail(users[i], user.email);
        }
      }
  }

  // ---------------------------------------------------------------------------
  // Match requests

  datatype Status = Pending | Accepted

  /** A match request: its id, the sender's and the recipient's profile ids, and its status. */
  datatype Request = Request(id: int, from: int, to: int, status: Status)

  /** Some stored request already goes from `from` to `to` (the duplicate test of `sendMatchRequest`). */
  predicate AlreadyRequested(requests: seq<Request>, from: int, to: int) {
    exists i | 0 <= i < |requests| :: requests[i].from == from && requests[i].to == to
  }

  predicate DifferentPair(a: Request, b: Request) {
    a.from != b.from || a.to != b.to
  }

  /** No two requests go from the same sender to the same recipient. */
  ghost predicate NoDuplicatePairs(requests: seq<Request>) {
    Pairwise(requests, DifferentPair)
  }

  /** The request list after accepting the first request with id `requestId`. */
  function AcceptFirst(requests: seq<Request>, requestId: int): seq<Request> {
    match FirstIndex((r: Request) => r.id == requestId, requests)
    case Some(i) => requests[i := requests[i].(status := Accepted)]
    case None => requests
  }

  /**
   * Accepting marks the first request with that id as accepted and changes
   * nothing else: the length, every other request, and the id, sender and
   * recipient of that one stay as they were.
   */
  lemma AcceptMarksFirst(requests: seq<Request>, requestId: int, i: nat)
    requires i < |requests| && requests[i].id == requestId
    requires forall j :: 0 <= j < i ==> requests[j].id != requestId
    ensures var r := AcceptFirst(requests, requestId);
            && |r| == |requests|
            && r[i] == requests[i].(status := Accepted)
            && forall j :: 0 <= j < |requests| && j != i ==> r[j] == requests[j]
  {
  }

  /** Accepting an id no request carries changes nothing. */
  lemma AcceptUnknownId(requests: seq<Request>, requestId: int)
    requires forall j :: 0 <= j < |requests| ==> requests[j].id != requestId
    ensures AcceptFirst(requests, requestId) == requests
  {
  }

  /** Accepting keeps the requests free of duplicate pairs. */
  lemma AcceptKeepsPairsUnique(requests: seq<Request>, requestId: int)
    requires NoDuplicatePairs(requests)
    ensures NoDuplicatePairs(AcceptFirst(requests, requestId))
  {
    var r := AcceptFirst(requests, requestId);
    forall i, j | 0 <= i < j < |r| ensures DifferentPair(r[i], r[j]) {
      assert r[i].from == requests[i].from && r[i].to == requests[i].to;
      assert r[j].from == requests[j].from && r[j].to == requests[j].to;
      assert DifferentPair(requests[i], requests[j]);
    }
  }

  /** The request list after declining `requestId`: every request with another id, in order. */
  function Decline(requests: seq<Request>, requestId: int): seq<Request> {
    Filter((r: Request) => r.id != requestId, requests)
  }

  /** Declining removes every request with that id and keeps every other one, as often as it was there. */
  lemma DeclineRemovesOnlyThatId(requests: seq<Request>, requestId: int, q: Request)
    ensures multiset(Decline(requests, requestId))[q] == if q.id == requestId then 0 else multiset(requests)[q]
  {
    FilterCount((r: Request) => r.id != requestId, requests, q);
  }

  /** Declining keeps the requests free of duplicate pairs. */
  lemma DeclineKeepsPairsUnique(requests: seq<Request>, requestId: int)
    requires NoDuplicatePairs(requests)
    ensures NoDuplicatePairs(Decline(requests, requestId))
  {
    FilterPairwise((r: Request) => r.id != requestId, requests, DifferentPair);
  }

  /** The requests addressed to `userId`, in stored order. */
  function Incoming(requests: seq<Request>, userId: int): seq<Request> {
    Filter((r: Request) => r.to == userId, requests)
  }

  /** The incoming view lists exactly the requests addressed to the user, each as often as stored. */
  lemma IncomingIsAddressedToUser(requests: seq<Request>, userId: int)
    ensures forall q :: multiset(Incoming(requests, userId))[q] == if q.to == userId then multiset(requests)[q] else 0
  {
    forall q {
      FilterCount((r: Request) => r.to == userId, requests, q);
    }
  }

  /** What `sendMatchRequest` did. */
  datatype SendOutcome = NoProfile | AlreadySent | Sent

  // ---------------------------------------------------------------------------
  // The stored state

  class Store {
    /** The saved profiles (storage key `brainwave_users`). */
    var users: seq<User>
    /** The match requests (storage key `brainwave_requests`). */
    var requests: seq<Request>
    /** The id of the profile saved last, if any (storage key `brainwave_current_user`). */
    var currentUserId: Option<int>

    constructor ()
      ensures users == [] && requests == [] && currentUserId == None
    {
      users := [];
      requests := [];
      currentUserId := None;
    }

    /**
     * `getCurrentUser()`: the first stored profile whose id is the current
     * user id, or nothing when no id is set or no profile carries it.
     */
    function CurrentUser(): (r: Option<User>)
      reads this`users, this`currentUserId
      ensures r.None? <==> currentUserId.None? || forall i :: 0 <= i < |users| ==> users[i].id != currentUserId.value
      ensures r.Some? ==> exists k :: 0 <= k < |users| && users[k] == r.value && r.value.id == currentUserId.value
                                      && forall j :: 0 <= j < k ==> users[j].id != currentUserId.value
    {
      match currentUserId
      case None => None
      case Some(id) =>
        match FirstIndex((u: User) => u.id == id, users)
        case None => None
        case Some(k) => Some(users[k])
    }

    /**
     * The submit handler: saves `user` through the upsert keyed on e-mail
     * (a new profile gets the id `newId`) and makes it the current user.
     */
    method SaveProfile(user: User, newId: int) returns (saved: User)
      modifies this`users, this`currentUserId
      ensures users == Upsert(old(users), user, newId)
      ensures saved == user.(id := saved.id) && saved in users
      ensures currentUserId == Some(saved.id)
      ensures UniqueEmails(old(users)) ==> UniqueEmails(users)
    {
      if UniqueEmails(users) {
        UpsertKeepsEmailsUnique(users, user, newId);
      }
      var idx := FindIndex((x: User) => SameEmail(x, user.email), users);
      if idx >= 0 {
        saved := user.(id := users[idx].id);
        users := users[idx := saved];
        assert users[idx] == saved;
      } else {
        saved := user.(id := newId);
        users := users + [saved];
      }
      currentUserId := Some(saved.id);
    }

    /** `showMatches()`: nothing without a current user, otherwise the ranked list of everyone else. */
    function MatchList(): (r: Option<seq<Matches.Match>>)
      reads this`users, this`currentUserId
      ensures r.None? <==> CurrentUser().None?
      ensures r.Some? ==> r.value == Matches.ShowMatches(CurrentUser().value, users)
    {
      match CurrentUser()
      case None => None
      case Some(me) => Some(Matches.ShowMatches(me, users))
    }

    /**
     * `sendMatchRequest(toUserId)`: nothing happens without a current user
     * or when that user already asked `toUserId`; otherwise exactly one
     * pending request, with id `newId`, is appended.
     */
    method SendMatchRequest(toUserId: int, newId: int) returns (outcome: SendOutcome)
      modifies this`requests
      ensures CurrentUser().None? ==> outcome == NoProfile && requests == old(requests)
      ensures CurrentUser().Some? && AlreadyRequested(old(requests), CurrentUser().value.id, toUserId) ==>
                outcome == AlreadySent && requests == old(requests)
      ensures CurrentUser().Some? && !AlreadyRequested(old(requests), CurrentUser().value.id, toUserId) ==>
                outcome == Sent && requests == old(requests) + [Request(newId, CurrentUser().value.id, toUserId, Pending)]
      ensures CurrentUser().Some? ==> AlreadyRequested(requests, CurrentUser().value.id, toUserId)
      ensures NoDuplicatePairs(old(requests)) ==> NoDuplicatePairs(requests)
    {
      var me := CurrentUser();
      if me.None? {
        return NoProfile;
      }
      if AlreadyRequested(requests, me.value.id, toUserId) {
        return AlreadySent;
      }
      var sent := Request(newId, me.value.id, toUserId, Pending);
      ghost var before := requests;
      requests := requests + [sent];
      assert requests[|before|] == sent;
      assert NoDuplicatePairs(before) ==> NoDuplicatePairs(requests) by {
        if NoDuplicatePairs(before) {
          forall i, j | 0 <= i < j < |requests| ensures DifferentPair(requests[i], requests[j]) {
            if j == |before| {
              assert requests[i] == before[i];
            } else {
              assert requests[i] == before[i] && requests[j] == before[j];
            }
          }
        }
      }
      outcome := Sent;
    }

    /** The accept button: the first request with that id becomes accepted; reports whether there was one. */
    method AcceptRequest(requestId: int) returns (found: bool)
      modifies this`requests
      ensures requests == AcceptFirst(old(requests), requestId)
      ensures found <==> exists i :: 0 <= i < |old(requests)| && old(requests)[i].id == requestId
    {
      var idx := FindIndex((r: Request) => r.id == requestId, requests);
      found := idx >= 0;
      if found {
        requests := requests[idx := requests[idx].(status := Accepted)];
      }
    }

    /** The decline button: every request with that id is dropped. */
    method DeclineRequest(requestId: int)
      modifies this`requests
      ensures requests == Decline(old(requests), requestId)
    {
      requests := Decline(requests, requestId);
    }

    /** The incoming-requests view: nothing without a current user, else the requests addressed to that user. */
    function IncomingRequests(): (r: Option<seq<Request>>)
      reads this
      ensures r.None? <==> CurrentUser().None?
      ensures r.Some? ==> forall i :: 0 <= i < |r.value| ==> r.value[i].to == CurrentUser().value.id && r.value[i] in requests
      ensures r.Some? ==> r.value == Incoming(requests, CurrentUser().value.id)
      ensures r.Some? ==> forall q :: multiset(r.value)[q] == if q.to == CurrentUser().value.id then multiset(requests)[q] else 0
    {
      match CurrentUser()
      case None => None
      case Some(me) =>
        IncomingIsAddressedToUser(requests, me.id);
        Some(Incoming(requests, me.id))
    }
  }

  // ---------------------------------------------------------------------------
  // The form's own inputs

  /** The available times typed into the form so far (`times`). */
  class TimesList {
    var times: seq<string>

    /** Every entry is non-empty and has no surrounding whitespace. */
    ghost predicate Valid()
      reads this
    {
      forall i :: 0 <= i < |times| ==> times[i] != "" && IsTrimmed(times[i])
    }

    constructor ()
      ensures Valid() && times == []
    {
      times := [];
    }

    /** The add-time button: the trimmed input is appended unless it is blank. */
    method AddTime(input: string) returns (added: bool)
      requires Valid()
      modifies this
      ensures Valid()
      ensures added <==> !AllSpace(input)
      ensures times == if added then old(times) + [Trim(input)] else old(times)
    {
      var t := Trim(input);
      added := t != "";
      if added {
        times := times + [t];
      }
    }
  }

  /** Every piece trimmed, in order. */
  function TrimAll(xs: seq<string>): (r: seq<string>)
    ensures |r| == |xs|
    ensures forall i :: 0 <= i < |xs| ==> r[i] == Trim(xs[i])
  {
    if xs == [] then [] else [Trim(xs[0])] + TrimAll(xs[1..])
  }

  /** A piece that is kept: `filter(Boolean)` on strings. */
  predicate NonEmpty(s: string) {
    s != ""
  }

  /**
   * The "other subjects" field: blank input gives no subjects; otherwise the
   * comma-separated pieces, each trimmed, the empty ones dropped.
   */
  function ParseOtherSubjects(raw: string): (r: seq<string>)
    ensures AllSpace(raw) ==> r == []
    ensures forall i :: 0 <= i < |r| ==> r[i] != "" && IsTrimmed(r[i]) && ',' !in r[i]
  {
    var t := Trim(raw);
    if t == "" then []
    else
      var pieces := Split(t, ',');
      forall i | 0 <= i < |pieces| ensures ',' !in Trim(pieces[i]) {
        TrimAvoids(pieces[i], ',');
      }
      Filter(NonEmpty, TrimAll(pieces))
  }

  /**
   * The parse reads back, in order, any list of trimmed, non-empty subjects
   * without commas that is written out joined by commas.
   */
  lemma ParseOtherSubjectsJoin(subjects: seq<string>)
    requires forall i :: 0 <= i < |subjects| ==> subjects[i] != "" && IsTrimmed(subjects[i]) && ',' !in subjects[i]
    ensures ParseOtherSubjects(Join(subjects, ",")) == subjects
  {
    var text := Join(subjects, ",");
    if subjects != [] {
      JoinOfTrimmed(subjects);
      TrimTrimmed(text);
      SplitJoin(subjects, ',');
      assert TrimAll(subjects) == subjects by {
        forall i | 0 <= i < |subjects| ensures Trim(subjects[i]) == subjects[i] {
          TrimTrimmed(subjects[i]);
        }
      }
      FilterAll(NonEmpty, subjects);
    }
  }

  /**
   * The parse of any input: the comma-separated pieces of the raw text, each
   * trimmed, the empty ones dropped, in input order. Trimming the whole text
   * first, and returning nothing for blank text, only short-cut this.
   */
  lemma ParseOtherSubjectsPieces(raw: string)
    ensures ParseOtherSubjects(raw) == Filter(NonEmpty, TrimAll(Split(raw, ',')))
  {
    var t := Trim(raw);
    if t == "" {
      SpaceAvoids(raw, ',');
      SplitPlain(raw, ',');
      assert TrimAll([raw]) == [""];
    } else {
      TrimThenSplit(raw, ',');
      assert TrimAll(Split(t, ',')) == TrimAll(Split(raw, ','));
    }
  }

  /** Comma-free pieces joined by commas parse to those pieces trimmed, empty ones dropped, in order. */
  lemma ParseOtherSubjectsOfJoin(ps: seq<string>)
    requires forall i :: 0 <= i < |ps| ==> ',' !in ps[i]
    ensures ParseOtherSubjects(Join(ps, ",")) == Filter(NonEmpty, TrimAll(ps))
  {
    ParseOtherSubjectsPieces(Join(ps, ","));
    if ps == [] {
      assert Trim("") == "";
      assert TrimAll(Split("", ',')) == [""];
    } else {
      SplitJoin(ps, ',');
    }
  }

  /** Joining non-empty trimmed pieces gives non-empty trimmed text. */
  lemma JoinOfTrimmed(subjects: seq<string>)
    requires subjects != []
    requires forall i :: 0 <= i < |subjects| ==> subjects[i] != "" && IsTrimmed(subjects[i])
    ensures var text := Join(subjects, ","); text != "" && IsTrimmed(text)
  {
    var text := Join(subjects, ",");
    JoinEnds(subjects, ",");
    var first := subjects[0];
    var last := subjects[|subjects| - 1];
    assert text[0] == text[..|first|][0];
    assert text[|text| - 1] == text[|text| - |last|..][|last| - 1];
  }
}
