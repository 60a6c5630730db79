/**
 The online-test session table: one session per test, holding the roster
 of participants (stored as a JSON array of participant objects) and the
 answers they have selected. Each operation reads one session, rewrites its
 roster or timestamps, and stores it back.
 */
module OnlineTests {
  import opened Wrappers
  import opened Collections
  import Nested

  /**
   A roster entry. Every field but the socket's client id is optional in
   the stored JSON.
   */
  datatype Participant = Participant(
    clientId: string,
    firstName: Option<string>,
    lastName: Option<string>,
    email: Option<string>,
    status: Option<string>)

  /** Selected answers per client id, then per section, task and question. */
  type Results = map<string, Nested.Trace<string>>

  /** A session; `ownerId` is the owner of the linked test, which lookups join in. */
  datatype OnlineTest = OnlineTest(
    id: string,
    testId: string,
    tempCodeId: string,
    ownerId: string,
    startedAt: Option<int>,
    finishedAt: Option<int>,
    participants: seq<Participant>,
    results: Option<Results>)

  type Store = seq<OnlineTest>

  function IdOf(t: OnlineTest): string { t.id }
  function TestOf(t: OnlineTest): string { t.testId }

  /** Session ids and test ids are unique across the table. */
  ghost predicate Unique(store: Store) {
    forall i, j :: 0 <= i < j < |store| ==> store[i].id != store[j].id && store[i].testId != store[j].testId
  }

  /** JavaScript truthiness of an optional string: present and non-empty. */
  predicate Truthy(s: Option<string>) {
    s.Some? && s.value != ""
  }

  /** A participant who has given both a first and a last name. */
  predicate Named(p: Participant) {
    Truthy(p.firstName) && Truthy(p.lastName)
  }

  const NotFoundMessage := "Online test not found"
  /** The database error an update of a missing row raises. */
  const MissingRecord := "Record to update not found."
  const UniqueViolation := "Unique constraint failed"

  /** The position of the session with this id. */
  function IndexById(store: Store, id: string): (r: Option<nat>)
    ensures r.None? <==> forall i :: 0 <= i < |store| ==> store[i].id != id
    ensures r.Some? ==> r.value < |store| && store[r.value].id == id
    ensures r.Some? ==> forall k :: 0 <= k < r.value ==> store[k].id != id
  {
    FirstIndex(store, IdOf, id)
  }

  /** The position of the session for this test. */
  function IndexByTestId(store: Store, testId: string): (r: Option<nat>)
    ensures r.None? <==> forall i :: 0 <= i < |store| ==> store[i].testId != testId
    ensures r.Some? ==> r.value < |store| && store[r.value].testId == testId
    ensures r.Some? ==> forall k :: 0 <= k < r.value ==> store[k].testId != testId
  {
    FirstIndex(store, TestOf, testId)
  }

  /** `getOnlineTestByTestId(testId)`. */
  function ByTestId(store: Store, testId: string): (r: Option<OnlineTest>)
    ensures r.None? <==> forall i :: 0 <= i < |store| ==> store[i].testId != testId
    ensures r.Some? ==> r.value in store && r.value.testId == testId
  {
    match IndexByTestId(store, testId)
    case None => None
    case Some(i) => Some(store[i])
  }

  /**
   `createOnlineTest({ testId, tempCodeId })`: a session with an empty roster
   and neither timestamp. Its id comes from the column default and the owner
   from the linked test. A second session for the same test (or a clashing
   id) violates the unique constraint and stores nothing.
   */
  function Create(store: Store, id: string, testId: string, tempCodeId: string, ownerId: string)
    : (r: Result<(Store, OnlineTest)>)
    ensures r.Failure? <==> exists i :: 0 <= i < |store| && (store[i].id == id || store[i].testId == testId)
    ensures r.Failure? ==> r.error == Plain(UniqueViolation)
    ensures r.Success? ==>
      var (store', t) := r.value;
      && store' == store + [t]
      && t.id == id && t.testId == testId && t.tempCodeId == tempCodeId && t.ownerId == ownerId
      && t.participants == [] && t.startedAt.None? && t.finishedAt.None? && t.results.None?
  {
    if IndexById(store, id).Some? || IndexByTestId(store, testId).Some? then
      Failure(Plain(UniqueViolation))
    else
      var t := OnlineTest(id, testId, tempCodeId, ownerId, None, None, [], None);
      Success((store + [t], t))
  }

  /**
   `startOnlineTest(id)`: drops every participant without both names and
   stamps `startedAt`. Fails without writing when the session is missing or
   no named participant remains. A session that is already started is
   started again.
   */
  function Start(store: Store, id: string, now: int): (r: Result<(Store, OnlineTest)>)
    ensures IndexById(store, id).None? ==> r == Failure(Plain(NotFoundMessage))
    ensures IndexById(store, id).Some? ==>
      var i := IndexById(store, id).value;
      && (r.Failure? <==> forall k :: 0 <= k < |store[i].participants| ==> !Named(store[i].participants[k]))
      && (r.Failure? ==> r.error == Plain("No valid participants found"))
      && (r.Success? ==>
            var (store', t) := r.value;
            && store' == store[i := t]
            && t == store[i].(participants := t.participants, startedAt := Some(now))
            && t.participants == Filter(store[i].participants, Named)
            && (forall k :: 0 <= k < |t.participants| ==>
                  t.participants[k] in store[i].participants && Named(t.participants[k]))
            && (forall k :: 0 <= k < |store[i].participants| && Named(store[i].participants[k]) ==>
                  store[i].participants[k] in t.participants))
  {
    match IndexById(store, id)
    case None => Failure(Plain(NotFoundMessage))
    case Some(i) =>
      var valid := Filter(store[i].participants, Named);
      if |valid| == 0 then
        FilterLength(store[i].participants, Named);
        Failure(Plain("No valid participants found"))
      else
        FilterLength(store[i].participants, Named);
        var t := store[i].(participants := valid, startedAt := Some(now));
        Success((store[i := t], t))
  }

  /**
   `finishOnlineTest(id)`: stamps `finishedAt`, overwriting an earlier
   stamp; the roster, the results and the start stamp stay. An unknown id
   fails as the database update does.
   */
  function Finish(store: Store, id: string, now: int): (r: Result<(Store, OnlineTest)>)
    ensures r.Failure? <==> IndexById(store, id).None?
    ensures r.Failure? ==> r.error == Plain(MissingRecord)
    ensures r.Success? ==>
      var i := IndexById(store, id).value;
      var (store', t) := r.value;
      && store' == store[i := t]
      && t.finishedAt == Some(now)
      && t.participants == store[i].participants && t.results == store[i].results
      && t.startedAt == store[i].startedAt && t.id == id && t.testId == store[i].testId
  {
    match IndexById(store, id)
    case None => Failure(Plain(MissingRecord))
    case Some(i) =>
      var t := store[i].(finishedAt := Some(now));
      Success((store[i := t], t))
  }

  /**
   `addParticipantToOnlineTest(testId, p)`: appends `p` to the roster of the
   test's session, even when its client id is already there.
   */
  function Add(store: Store, testId: string, p: Participant): (r: Result<(Store, OnlineTest)>)
    ensures r.Failure? <==> IndexByTestId(store, testId).None?
    ensures r.Failure? ==> r.error == Plain(NotFoundMessage)
    ensures r.Success? ==>
      var i := IndexByTestId(store, testId).value;
      var (store', t) := r.value;
      && store' == store[i := t]
      && t.participants == store[i].participants + [p]
      && t == store[i].(participants := t.participants)
  {
    match IndexByTestId(store, testId)
    case None => Failure(Plain(NotFoundMessage))
    case Some(i) =>
      var t := store[i].(participants := store[i].participants + [p]);
      Success((store[i := t], t))
  }

  /** Copies the names and e-mail of `p` onto an entry with the same client id; keeps the status. */
  function CopyContact(q: Participant, p: Participant): Participant {
    if q.clientId == p.clientId then q.(firstName := p.firstName, lastName := p.lastName, email := p.email) else q
  }

  /**
   `updateParticipantData(id, p)`: every roster entry with `p`'s client id
   takes `p`'s names and e-mail. Statuses, other entries and the length of
   the roster do not change.
   */
  function UpdateParticipant(store: Store, id: string, p: Participant): (r: Result<(Store, OnlineTest)>)
    ensures r.Failure? <==> IndexById(store, id).None?
    ensures r.Failure? ==> r.error == Plain(NotFoundMessage)
    ensures r.Success? ==>
      var i := IndexById(store, id).value;
      var before := store[i].participants;
      var (store', t) := r.value;
      && store' == store[i := t]
      && t == store[i].(participants := t.participants)
      && |t.participants| == |before|
      && (forall k :: 0 <= k < |before| ==>
            && t.participants[k].clientId == before[k].clientId
            && t.participants[k].status == before[k].status
            && (before[k].clientId == p.clientId ==>
                  && t.participants[k].firstName == p.firstName
                  && t.participants[k].lastName == p.lastName
                  && t.participants[k].email == p.email)
            && (before[k].clientId != p.clientId ==> t.participants[k] == before[k]))
  {
    match IndexById(store, id)
    case None => Failure(Plain(NotFoundMessage))
    case Some(i) =>
      var before := store[i].participants;
      var after := seq(|before|, k requires 0 <= k < |before| => CopyContact(before[k], p));
      var t := store[i].(participants := after);
      Success((store[i := t], t))
  }

  /**
   The roster after `participants.splice(participants.indexOf(p), 1)` on a
   freshly parsed array: `indexOf` compares by reference and so finds
   nothing, and `splice(-1, 1)` removes the last entry (none from an empty
   array).
   */
  function SpliceLast(roster: seq<Participant>): (r: seq<Participant>)
    ensures roster == [] ==> r == []
    ensures roster != [] ==> |r| == |roster| - 1 && roster == r + [roster[|roster| - 1]]
  {
    if roster == [] then [] else roster[..|roster| - 1]
  }

  /**
   `removeParticipantFromOnlineTest(id, p)`: whichever participant `p`
   names, the last roster entry is the one dropped.
   */
  function Remove(store: Store, id: string, p: Participant): (r: Result<(Store, OnlineTest)>)
    ensures r.Failure? <==> IndexById(store, id).None?
    ensures r.Failure? ==> r.error == Plain(NotFoundMessage)
    ensures r.Success? ==>
      var i := IndexById(store, id).value;
      var (store', t) := r.value;
      && store' == store[i := t]
      && t == store[i].(participants := t.participants)
      && (store[i].participants == [] ==> t.participants == [])
      && (store[i].participants != [] ==>
            && |t.participants| == |store[i].participants| - 1
            && t.participants == store[i].participants[..|t.participants|])
  {
    match IndexById(store, id)
    case None => Failure(Plain(NotFoundMessage))
    case Some(i) =>
      var t := store[i].(participants := SpliceLast(store[i].participants));
      Success((store[i := t], t))
  }

  /**
   Writes the results map of a session. The session service the gateway
   relies on offers no such operation; this is the write the gateway's
   answer handler evidently intends.
   */
  function UpdateResults(store: Store, id: string, results: Results): (r: Result<(Store, OnlineTest)>)
    ensures r.Failure? <==> IndexById(store, id).None?
    ensures r.Failure? ==> r.error == Plain(MissingRecord)
    ensures r.Success? ==>
      var i := IndexById(store, id).value;
      var (store', t) := r.value;
      && store' == store[i := t]
      && t == store[i].(results := Some(results))
  {
    match IndexById(store, id)
    case None => Failure(Plain(MissingRecord))
    case Some(i) =>
      var t := store[i].(results := Some(results));
      Success((store[i := t], t))
  }

  // ----- properties across operations -----

  /** Removing right after adding restores the roster, whoever was named as leaving. */
  lemma AddThenRemove(store: Store, testId: string, p: Participant, q: Participant)
    requires Unique(store) && Add(store, testId, p).Success?
    ensures
      var (store1, t1) := Add(store, testId, p).value;
      var i := IndexByTestId(store, testId).value;
      && Remove(store1, t1.id, q).Success?
      && Remove(store1, t1.id, q).value.1 == store[i]
      && Remove(store1, t1.id, q).value.0 == store
  {
    var (store1, t1) := Add(store, testId, p).value;
    var i := IndexByTestId(store, testId).value;
    ReplaceKeepsIndex(store, i, t1, t1.id);
    assert t1.participants[..|t1.participants| - 1] == store[i].participants;
  }

  /** Starting filters the roster once and for all: starting again keeps the same roster. */
  lemma StartTwice(store: Store, id: string, now: int, later: int)
    requires Start(store, id, now).Success?
    ensures
      var (store1, t1) := Start(store, id, now).value;
      && Start(store1, id, later).Success?
      && Start(store1, id, later).value.1 == t1.(startedAt := Some(later))
  {
    var i := IndexById(store, id).value;
    var (store1, t1) := Start(store, id, now).value;
    ReplaceKeepsIndex(store, i, t1, id);
    FilterAllKept(t1.participants, Named);
  }

  /** Filtering a sequence whose elements all pass returns it unchanged. */
  lemma {:induction false} FilterAllKept<T>(xs: seq<T>, p: T -> bool)
    requires forall k :: 0 <= k < |xs| ==> p(xs[k])
    ensures Filter(xs, p) == xs
  {
    if xs != [] {
      FilterAllKept(xs[1..], p);
      assert xs == [xs[0]] + xs[1..];
    }
  }

  /** Finishing twice keeps only the later stamp; nothing else about the session changes. */
  lemma FinishTwice(store: Store, id: string, now: int, later: int)
    requires Finish(store, id, now).Success?
    ensures
      var (store1, t1) := Finish(store, id, now).value;
      && Finish(store1, id, later).Success?
      && Finish(store1, id, later).value.1 == t1.(finishedAt := Some(later))
      && Finish(store1, id, later).value.0 == Finish(store, id, later).value.0
  {
    var i := IndexById(store, id).value;
    var (store1, t1) := Finish(store, id, now).value;
    ReplaceKeepsIndex(store, i, t1, id);
  }

  /** Sending the same contact data twice has the effect of sending it once. */
  lemma UpdateParticipantIdempotent(store: Store, id: string, p: Participant)
    requires UpdateParticipant(store, id, p).Success?
    ensures
      var (store1, t1) := UpdateParticipant(store, id, p).value;
      && UpdateParticipant(store1, id, p).Success?
      && UpdateParticipant(store1, id, p).value == (store1, t1)
  {
    var i := IndexById(store, id).value;
    var (store1, t1) := UpdateParticipant(store, id, p).value;
    ReplaceKeepsIndex(store, i, t1, id);
    var (store2, t2) := UpdateParticipant(store1, id, p).value;
    assert t2.participants == t1.participants by {
      forall k | 0 <= k < |t1.participants|
        ensures t2.participants[k] == t1.participants[k]
      {
        assert t1.participants[k] == CopyContact(store[i].participants[k], p);
      }
    }
    assert t2 == t1 && store1[i] == t1;
    assert store2 == store1;
  }

  /** Rewriting a session in place, under the same id and test, leaves every lookup where it was. */
  lemma ReplaceKeepsIndex(store: Store, i: int, t: OnlineTest, key: string)
    requires 0 <= i < |store| && t.id == store[i].id && t.testId == store[i].testId
    ensures IndexById(store[i := t], key) == IndexById(store, key)
    ensures IndexByTestId(store[i := t], key) == IndexByTestId(store, key)
  {
    ReplaceKeepsIdIndex(store, i, t, key);
    ReplaceKeepsTestIndex(store, i, t, key);
  }

  lemma ReplaceKeepsIdIndex(store: Store, i: int, t: OnlineTest, key: string)
    requires 0 <= i < |store| && t.id == store[i].id
    ensures IndexById(store[i := t], key) == IndexById(store, key)
  {
    var store' := store[i := t];
    assert forall k :: 0 <= k < |store| ==> store'[k].id == store[k].id;
    var a, b := IndexById(store, key), IndexById(store', key);
    if a.Some? && b.Some? {
      assert !(a.value < b.value) && !(b.value < a.value);
    }
  }

  lemma ReplaceKeepsTestIndex(store: Store, i: int, t: OnlineTest, key: string)
    requires 0 <= i < |store| && t.testId == store[i].testId
    ensures IndexByTestId(store[i := t], key) == IndexByTestId(store, key)
  {
    var store' := store[i := t];
    assert forall k :: 0 <= k < |store| ==> store'[k].testId == store[k].testId;
    var c, d := IndexByTestId(store, key), IndexByTestId(store', key);
    if c.Some? && d.Some? {
      assert !(c.value < d.value) && !(d.value < c.value);
    }
  }

  /** With unique ids, looking up the id of the session found for a test finds that same session. */
  lemma FoundById(store: Store, testId: string)
    requires Unique(store) && IndexByTestId(store, testId).Some?
    ensures IndexById(store, store[IndexByTestId(store, testId).value].id) == IndexByTestId(store, testId)
  {
    var i := IndexByTestId(store, testId).value;
    var k := IndexById(store, store[i].id).value;
    assert store[k].id == store[i].id;
  }

  /** After a session is rewritten in place, the test's lookup returns the rewritten session. */
  lemma ReplaceFinds(store: Store, i: int, t: OnlineTest)
    requires 0 <= i < |store| && IndexByTestId(store, store[i].testId) == Some(i)
    requires t.id == store[i].id && t.testId == store[i].testId
    ensures ByTestId(store[i := t], t.testId) == Some(t)
  {
    ReplaceKeepsIndex(store, i, t, t.testId);
  }

  /** A session appended for a test that had none is the one its lookup returns. */
  lemma AppendFinds(store: Store, t: OnlineTest)
    requires forall i :: 0 <= i < |store| ==> store[i].testId != t.testId
    ensures ByTestId(store + [t], t.testId) == Some(t)
  {
    assert (store + [t])[|store|].testId == t.testId;
    var k := IndexByTestId(store + [t], t.testId).value;
    assert k == |store|;
  }

  /** Rewriting a session in place keeps ids and test ids unique. */
  lemma ReplaceKeepsUnique(store: Store, i: int, t: OnlineTest)
    requires Unique(store) && 0 <= i < |store|
    requires t.id == store[i].id && t.testId == store[i].testId
    ensures Unique(store[i := t])
  {
  }

  /** Every roster or timestamp operation keeps the table's keys unique. */
  lemma OperationsKeepUnique(store: Store, id: string, testId: string, p: Participant, now: int)
    requires Unique(store)
    ensures Start(store, id, now).Success? ==> Unique(Start(store, id, now).value.0)
    ensures Finish(store, id, now).Success? ==> Unique(Finish(store, id, now).value.0)
    ensures Add(store, testId, p).Success? ==> Unique(Add(store, testId, p).value.0)
    ensures UpdateParticipant(store, id, p).Success? ==> Unique(UpdateParticipant(store, id, p).value.0)
    ensures Remove(store, id, p).Success? ==> Unique(Remove(store, id, p).value.0)
  {
    var i := IndexById(store, id);
    if i.Some? {
      if Start(store, id, now).Success? {
        ReplaceKeepsUnique(store, i.value, Start(store, id, now).value.1);
      }
      ReplaceKeepsUnique(store, i.value, Finish(store, id, now).value.1);
      ReplaceKeepsUnique(store, i.value, UpdateParticipant(store, id, p).value.1);
      ReplaceKeepsUnique(store, i.value, Remove(store, id, p).value.1);
    }
    var j := IndexByTestId(store, testId);
    if j.Some? {
      ReplaceKeepsUnique(store, j.value, Add(store, testId, p).value.1);
    }
  }

  /** Creating a session keeps the table's keys unique. */
  lemma CreateKeepsUnique(store: Store, id: string, testId: string, tempCodeId: string, ownerId: string)
    requires Unique(store) && Create(store, id, testId, tempCodeId, ownerId).Success?
    ensures Unique(Create(store, id, testId, tempCodeId, ownerId).value.0)
  {
  }
}
