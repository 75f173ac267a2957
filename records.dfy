/**
 * The stored lists of the exam application: users and submitted results.
 * `saveExamResult` appends a result under a fresh id, `handleRegister`
 * appends a student, and the admin pages' `deleteResult` and `deleteUser`
 * filter the lists. The page passes ids to the two delete functions as the
 * text written into their buttons.
 */
module Records {
  import opened Wrappers
  import opened Accounts
  import Exam

  /** A result as it is stored: the record of `submitExam` and the id `saveExamResult` gave it. */
  datatype StoredResult = StoredResult(id: string, result: Exam.ExamResult)

  /** `s.filter(keep)`: the elements `keep` accepts, in their order. */
  function Filter<T>(s: seq<T>, keep: T -> bool): (r: seq<T>)
    ensures |r| <= |s|
    decreases |s|
  {
    if s == [] then []
    else
      var n := |s| - 1;
      Filter(s[..n], keep) + (if keep(s[n]) then [s[n]] else [])
  }

  /** The filter keeps exactly the elements `keep` accepts. */
  lemma {:induction false} FilterMembers<T>(s: seq<T>, keep: T -> bool)
    ensures forall x :: x in Filter(s, keep) <==> x in s && keep(x)
    decreases |s|
  {
    if s != [] {
      var n := |s| - 1;
      FilterMembers(s[..n], keep);
      assert s == s[..n] + [s[n]];
    }
  }

  /** A filter that accepts every element changes nothing. */
  lemma {:induction false} FilterKeepsAll<T>(s: seq<T>, keep: T -> bool)
    requires forall k :: 0 <= k < |s| ==> keep(s[k])
    ensures Filter(s, keep) == s
    decreases |s|
  {
    if s != [] {
      var n := |s| - 1;
      var init := s[..n];
      assert forall k :: 0 <= k < |init| ==> init[k] == s[k];
      FilterKeepsAll(init, keep);
      assert keep(s[n]);
      assert s == init + [s[n]];
    }
  }

  /** A filter that rejects exactly one position removes that element and keeps the rest in order. */
  lemma {:induction false} FilterRemovesOne<T>(s: seq<T>, keep: T -> bool, i: nat)
    requires i < |s| && !keep(s[i])
    requires forall j :: 0 <= j < |s| && j != i ==> keep(s[j])
    ensures Filter(s, keep) == s[..i] + s[i + 1..]
    decreases |s|
  {
    var n := |s| - 1;
    var init := s[..n];
    if i == n {
      assert forall k :: 0 <= k < |init| ==> init[k] == s[k];
      FilterKeepsAll(init, keep);
    } else {
      assert !keep(init[i]);
      assert forall j :: 0 <= j < |init| && j != i ==> keep(init[j]);
      FilterRemovesOne(init, keep, i);
      assert keep(s[n]);
      assert Filter(s, keep) == Filter(init, keep) + [s[n]];
      assert init[..i] == s[..i];
      assert s[i + 1..] == init[i + 1..] + [s[n]];
    }
  }

  /** Result ids are unique, as `generateId` intends. */
  predicate UniqueResultIds(results: seq<StoredResult>) {
    forall i, j :: 0 <= i < j < |results| ==> results[i].id != results[j].id
  }

  /** User ids are unique as the page writes them. */
  predicate UniqueUserKeys(users: seq<User>) {
    forall i, j :: 0 <= i < j < |users| ==> IdKey(users[i].id) != IdKey(users[j].id)
  }

  /** `results.filter(r => r.id !== resultId)`. */
  function WithoutResult(results: seq<StoredResult>, resultId: string): (r: seq<StoredResult>)
    ensures forall x :: x in r <==> x in results && x.id != resultId
  {
    FilterMembers(results, (x: StoredResult) => x.id != resultId);
    Filter(results, (x: StoredResult) => x.id != resultId)
  }

  /** Deleting a result whose id is unique removes that one result and keeps the others in order. */
  lemma DeleteResultRemovesOne(results: seq<StoredResult>, i: nat)
    requires UniqueResultIds(results) && i < |results|
    ensures WithoutResult(results, results[i].id) == results[..i] + results[i + 1..]
  {
    FilterRemovesOne(results, (x: StoredResult) => x.id != results[i].id, i);
  }

  /** Deleting an id that no result has changes nothing. */
  lemma DeleteMissingResult(results: seq<StoredResult>, resultId: string)
    requires forall x :: x in results ==> x.id != resultId
    ensures WithoutResult(results, resultId) == results
  {
    FilterKeepsAll(results, (x: StoredResult) => x.id != resultId);
  }

  datatype DeleteOutcome = CannotDeleteSelf | Cancelled | Deleted(users: seq<User>, results: seq<StoredResult>)

  /** `deleteUser` as written: the id arrives as text and is compared with
      `===` to the stored ids, so a built-in user, whose id is a number,
      is never matched. */
  function UserDeletionAsWritten(users: seq<User>, results: seq<StoredResult>, userId: string, current: Id, confirmed: bool): (r: DeleteOutcome)
    ensures r == CannotDeleteSelf <==> current == Str(userId)
    ensures r.Deleted? ==> forall u :: u in r.users <==> u in users && u.id != Str(userId)
  {
    if Str(userId) == current then CannotDeleteSelf
    else if !confirmed then Cancelled
    else
      FilterMembers(users, (u: User) => u.id != Str(userId));
      Deleted(Filter(users, (u: User) => u.id != Str(userId)),
                 Filter(results, (x: StoredResult) => x.result.userId != Str(userId)))
  }

  /** Deleting the second built-in student from its button removes neither
      the account nor its results. */
  lemma DeleteDefaultUserAsWritten(results: seq<StoredResult>)
    requires forall x :: x in results ==> x.result.userId.Num?
    ensures UserDeletionAsWritten(DefaultUsers, results, "2", Num(1), true) == Deleted(DefaultUsers, results)
  {
    FilterKeepsAll(DefaultUsers, (u: User) => u.id != Str("2"));
    FilterKeepsAll(results, (x: StoredResult) => x.result.userId != Str("2"));
  }

  /** `deleteUser` comparing ids as the page writes them: one's own account
      is refused; otherwise, once confirmed, the user and every result of
      theirs are removed. */
  function UserDeletion(users: seq<User>, results: seq<StoredResult>, userId: string, current: Id, confirmed: bool): (r: DeleteOutcome)
    ensures r == CannotDeleteSelf <==> IdKey(current) == userId
    ensures r == Cancelled <==> IdKey(current) != userId && !confirmed
    ensures r.Deleted? ==> forall u :: u in r.users <==> u in users && IdKey(u.id) != userId
    ensures r.Deleted? ==> forall x :: x in r.results <==> x in results && IdKey(x.result.userId) != userId
  {
    if IdKey(current) == userId then CannotDeleteSelf
    else if !confirmed then Cancelled
    else
      FilterMembers(users, (u: User) => IdKey(u.id) != userId);
      FilterMembers(results, (x: StoredResult) => IdKey(x.result.userId) != userId);
      Deleted(Filter(users, (u: User) => IdKey(u.id) != userId),
                 Filter(results, (x: StoredResult) => IdKey(x.result.userId) != userId))
  }

  /** With unique ids, deleting user `i` removes exactly that user and keeps the others in order. */
  lemma DeleteUserRemovesOne(users: seq<User>, results: seq<StoredResult>, i: nat, current: Id)
    requires UniqueUserKeys(users) && i < |users|
    requires IdKey(current) != IdKey(users[i].id)
    ensures UserDeletion(users, results, IdKey(users[i].id), current, true).users == users[..i] + users[i + 1..]
  {
    FilterRemovesOne(users, (u: User) => IdKey(u.id) != IdKey(users[i].id), i);
  }

  /** The built-in student 2 is removed with the button's text. */
  lemma DeleteDefaultUser()
    ensures UserDeletion(DefaultUsers, [], "2", Num(1), true) == Deleted([DefaultUsers[0], DefaultUsers[2]], [])
  {
    assert IdKey(Num(1)) == "1" && IdKey(Num(2)) == "2" && IdKey(Num(3)) == "3";
    FilterRemovesOne(DefaultUsers, (u: User) => IdKey(u.id) != "2", 1);
  }

  /** The stored user and result lists. */
  class Store {
    var users: seq<User>
    var results: seq<StoredResult>

    /** The lists as `initializeStorage` leaves them. */
    constructor()
      ensures users == DefaultUsers && results == []
    {
      users := DefaultUsers;
      results := [];
    }

    /** `handleRegister`: on success the new student is appended. */
    method Register(name: string, email: string, password: string, newId: Id) returns (outcome: RegisterOutcome)
      modifies this
      ensures outcome == Accounts.Register(old(users), name, email, password, newId)
      ensures outcome.Registered? ==> users == outcome.users
      ensures !outcome.Registered? ==> users == old(users)
      ensures results == old(results)
      ensures UniqueEmails(old(users)) ==> UniqueEmails(users)
    {
      outcome := Accounts.Register(users, name, email, password, newId);
      if UniqueEmails(users) {
        RegisterKeepsUnique(users, name, email, password, newId);
      }
      if outcome.Registered? {
        users := outcome.users;
      }
    }

    /** `saveExamResult`: the result is appended under `newId`, which is returned. */
    method SaveExamResult(result: Exam.ExamResult, newId: string) returns (resultId: string)
      modifies this
      ensures resultId == newId
      ensures results == old(results) + [StoredResult(newId, result)]
      ensures users == old(users)
      ensures (UniqueResultIds(old(results)) && forall x :: x in old(results) ==> x.id != newId) ==> UniqueResultIds(results)
    {
      results := results + [StoredResult(newId, result)];
      resultId := newId;
    }

    /** `deleteResult`: once confirmed, every result with this id is removed. */
    method DeleteResult(resultId: string, confirmed: bool)
      modifies this
      ensures results == if confirmed then WithoutResult(old(results), resultId) else old(results)
      ensures users == old(users)
    {
      if confirmed {
        results := WithoutResult(results, resultId);
      }
    }

    /** `deleteUser` for the signed-in `current` user, with ids compared as the page writes them. */
    method DeleteUser(userId: string, current: Id, confirmed: bool) returns (outcome: DeleteOutcome)
      modifies this
      ensures outcome == UserDeletion(old(users), old(results), userId, current, confirmed)
      ensures outcome.Deleted? ==> users == outcome.users && results == outcome.results
      ensures !outcome.Deleted? ==> users == old(users) && results == old(results)
    {
      outcome := UserDeletion(users, results, userId, current, confirmed);
      if outcome.Deleted? {
        users, results := outcome.users, outcome.results;
      }
    }
  }
}
