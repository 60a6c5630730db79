/**
 The registry of join codes for online tests. Each test has at most one code
 record; a code is a six-digit number drawn at random. The store is the
 table of records; the code and the test id are each unique in it, as the
 repository's `findUnique` lookups on both columns require.
 */
module TempCodes {
  import opened Wrappers
  import opened Collections

  datatype TempCode = TempCode(id: string, code: int, testId: string, expiresAt: int)

  type Store = seq<TempCode>

  function CodeOf(t: TempCode): int { t.code }
  function TestOf(t: TempCode): string { t.testId }
  function IdOf(t: TempCode): string { t.id }

  /** Ids, codes and test ids are each unique across the store. */
  ghost predicate Unique(store: Store) {
    forall i, j :: 0 <= i < j < |store| ==>
      && store[i].id != store[j].id
      && store[i].code != store[j].code
      && store[i].testId != store[j].testId
  }

  /**
   `Math.floor(100000 + Math.random() * 900000)`, where `rand` is the value
   `Math.random()` returned.
   */
  function GenerateCode(rand: real): (r: int)
    requires 0.0 <= rand < 1.0
    ensures 100000 <= r <= 999999
    ensures r as real <= 100000.0 + rand * 900000.0 < r as real + 1.0
  {
    (100000.0 + rand * 900000.0).Floor
  }

  /** Every six-digit code is drawn for some value of the random source. */
  lemma GenerateCodeCovers(code: int)
    requires 100000 <= code <= 999999
    ensures GenerateCode((code - 100000) as real / 900000.0) == code
  {
    var rand := (code - 100000) as real / 900000.0;
    assert rand * 900000.0 == (code - 100000) as real;
  }

  /** `findUnique({ where: { code } })`. */
  function ByCode(store: Store, code: int): (r: Option<TempCode>)
    ensures r.None? <==> forall i :: 0 <= i < |store| ==> store[i].code != code
    ensures r.Some? ==> r.value in store && r.value.code == code
  {
    Find(store, CodeOf, code)
  }

  /** `findUnique({ where: { testId } })`. */
  function ByTestId(store: Store, testId: string): (r: Option<TempCode>)
    ensures r.None? <==> forall i :: 0 <= i < |store| ==> store[i].testId != testId
    ensures r.Some? ==> r.value in store && r.value.testId == testId
  {
    Find(store, TestOf, testId)
  }

  /** The message of the database error a unique-constraint clash raises. */
  const UniqueViolation := "Unique constraint failed"
  /** The message of the database error a delete of a missing row raises. */
  const MissingRecord := "Record to delete does not exist."

  /**
   Creates a record for `testId` with the code drawn from `rand`. The
   record's id and expiry come from the database's column defaults and are
   parameters here. A clash on the id, the code or the test id fails and
   stores nothing.
   */
  function Create(store: Store, testId: string, rand: real, id: string, expiresAt: int): (r: Result<(Store, TempCode)>)
    requires 0.0 <= rand < 1.0
    ensures r.Success? ==>
      var (store', t) := r.value;
      && store' == store + [t]
      && t == TempCode(id, GenerateCode(rand), testId, expiresAt)
    ensures r.Failure? <==>
      exists i :: 0 <= i < |store| &&
        (store[i].id == id || store[i].code == GenerateCode(rand) || store[i].testId == testId)
    ensures r.Failure? ==> r.error == Plain(UniqueViolation)
  {
    var code := GenerateCode(rand);
    if Find(store, IdOf, id).Some? || ByCode(store, code).Some? || ByTestId(store, testId).Some? then
      Failure(Plain(UniqueViolation))
    else
      var t := TempCode(id, code, testId, expiresAt);
      Success((store + [t], t))
  }

  /** `delete({ where: { code } })`: removes the record with that code, or fails when there is none. */
  function DeleteByCode(store: Store, code: int): (r: Result<Store>)
    ensures r.Failure? <==> ByCode(store, code).None?
    ensures r.Failure? ==> r.error == Plain(MissingRecord)
    ensures r.Success? ==> forall t :: t in r.value <==> t in store && t.code != code
    ensures r.Success? ==> |r.value| < |store|
  {
    if ByCode(store, code).None? then Failure(Plain(MissingRecord))
    else
      var kept := Filter(store, (t: TempCode) => t.code != code);
      FilterMissesOne(store, (t: TempCode) => t.code != code, ByCode(store, code).value);
      Success(kept)
  }

  /** Filtering out an element that is present shortens the sequence. */
  lemma {:induction false} FilterMissesOne<T>(xs: seq<T>, p: T -> bool, x: T)
    requires x in xs && !p(x)
    ensures |Filter(xs, p)| < |xs|
  {
    if xs[0] == x {
      assert Filter(xs, p) == Filter(xs[1..], p);
    } else {
      FilterMissesOne(xs[1..], p, x);
    }
  }

  /**
   `createTestTempCode(testId)`: a live code for the test is returned as it
   is; an expired one is deleted and the call fails with 'Test temp code
   expired' (the deletion stays); otherwise a new code is created. A code
   that expires exactly at `now` is neither live nor expired, so the create
   path runs and clashes with it on the test id.
   */
  function CreateTestTempCode(store: Store, testId: string, now: int, rand: real, id: string, expiresAt: int)
    : (r: Step<Store, TempCode>)
    requires 0.0 <= rand < 1.0
    ensures ByTestId(store, testId).Some? && ByTestId(store, testId).value.expiresAt > now ==>
              r == Step(store, Success(ByTestId(store, testId).value))
    ensures ByTestId(store, testId).Some? && ByTestId(store, testId).value.expiresAt < now ==>
              && r.result == Failure(BadRequest("Test temp code expired"))
              && (forall t :: t in r.next <==> t in store && t.code != ByTestId(store, testId).value.code)
    ensures r.result.Success? && r.next != store ==>
              && ByTestId(store, testId).None?
              && r.next == store + [r.result.value]
              && r.result.value.testId == testId && r.result.value.expiresAt == expiresAt
    ensures r.result.Failure? && r.result.error != BadRequest("Test temp code expired") ==> r.next == store
    ensures ByTestId(store, testId).None? ==>
      var t := TempCode(id, GenerateCode(rand), testId, expiresAt);
      && (r.result.Success? <==> forall i :: 0 <= i < |store| ==> store[i].id != id && store[i].code != t.code)
      && (r.result.Success? ==> r == Step(store + [t], Success(t)))
      && (r.result.Failure? ==> r == Step(store, Failure(Plain(UniqueViolation))))
    ensures ByTestId(store, testId).Some? && ByTestId(store, testId).value.expiresAt == now ==>
      r == Step(store, Failure(Plain(UniqueViolation)))
  {
    var existing := ByTestId(store, testId);
    if existing.Some? && existing.value.expiresAt > now then
      Step(store, Success(existing.value))
    else if existing.Some? && existing.value.expiresAt < now then
      var deleted := DeleteByCode(store, existing.value.code);
      Step(deleted.value, Failure(BadRequest("Test temp code expired")))
    else
      match Create(store, testId, rand, id, expiresAt)
      case Success((store', t)) => Step(store', Success(t))
      case Failure(e) => Step(store, Failure(e))
  }

  /** `getTestTempCode(code)`: the record, with no expiry check, or 'Invalid test temp code'. */
  function GetTestTempCode(store: Store, code: int): (r: Result<TempCode>)
    ensures r.Success? <==> exists i :: 0 <= i < |store| && store[i].code == code
    ensures r.Success? ==> r.value in store && r.value.code == code
    ensures r.Failure? ==> r.error == BadRequest("Invalid test temp code")
  {
    match ByCode(store, code)
    case Some(t) => Success(t)
    case None => Failure(BadRequest("Invalid test temp code"))
  }

  /** `getTestTempCodeByTestId(testId)`: a read without side effects. */
  function GetTestTempCodeByTestId(store: Store, testId: string): (r: Option<TempCode>)
    ensures r.Some? <==> exists i :: 0 <= i < |store| && store[i].testId == testId
    ensures r.Some? ==> r.value in store && r.value.testId == testId
  {
    ByTestId(store, testId)
  }

  /** With unique codes, the record found by code is the one record holding it. */
  lemma ByCodeUnique(store: Store, i: int)
    requires Unique(store) && 0 <= i < |store|
    ensures ByCode(store, store[i].code) == Some(store[i])
  {
    var r := ByCode(store, store[i].code).value;
    var k := FirstIndex(store, CodeOf, store[i].code).value;
    assert store[k].code == store[i].code;
    assert k == i;
  }

  /** With unique test ids, the record found by test id is the one record for that test. */
  lemma ByTestIdUnique(store: Store, i: int)
    requires Unique(store) && 0 <= i < |store|
    ensures ByTestId(store, store[i].testId) == Some(store[i])
  {
    var k := FirstIndex(store, TestOf, store[i].testId).value;
    assert store[k].testId == store[i].testId;
    assert k == i;
  }

  /** A created code can be looked up again, by its code and by its test. */
  lemma CreateThenLookup(store: Store, testId: string, rand: real, id: string, expiresAt: int)
    requires Unique(store) && 0.0 <= rand < 1.0
    requires Create(store, testId, rand, id, expiresAt).Success?
    ensures var (store', t) := Create(store, testId, rand, id, expiresAt).value;
      && Unique(store')
      && GetTestTempCode(store', t.code) == Success(t)
      && GetTestTempCodeByTestId(store', testId) == Some(t)
  {
    var (store', t) := Create(store, testId, rand, id, expiresAt).value;
    assert Unique(store');
    ByCodeUnique(store', |store|);
    ByTestIdUnique(store', |store|);
  }

  /** Deleting a code keeps the store unique and the code can no longer be found. */
  lemma DeleteThenLookup(store: Store, code: int)
    requires Unique(store) && DeleteByCode(store, code).Success?
    ensures Unique(DeleteByCode(store, code).value)
    ensures GetTestTempCode(DeleteByCode(store, code).value, code).Failure?
  {
    FilterKeepsUnique(store, (t: TempCode) => t.code != code);
  }

  /** Two records that clash on no unique column. */
  predicate Apart(a: TempCode, b: TempCode) {
    a.id != b.id && a.code != b.code && a.testId != b.testId
  }

  /** Keeping some of the records of a unique store keeps it unique. */
  lemma FilterKeepsUnique(store: Store, p: TempCode -> bool)
    requires Unique(store)
    ensures Unique(Filter(store, p))
  {
    assert Pairwise(store, Apart);
    FilterKeepsPairwise(store, p, Apart);
  }

  /** Creating a code keeps ids, codes and test ids unique. */
  lemma CreateTestTempCodeKeepsUnique(store: Store, testId: string, now: int, rand: real, id: string, expiresAt: int)
    requires Unique(store) && 0.0 <= rand < 1.0
    ensures Unique(CreateTestTempCode(store, testId, now, rand, id, expiresAt).next)
  {
    var existing := ByTestId(store, testId);
    if existing.Some? && existing.value.expiresAt > now {
    } else if existing.Some? && existing.value.expiresAt < now {
      DeleteThenLookup(store, existing.value.code);
    }
  }

  /**
   A code expiring exactly at `now` makes the call fail: the create path is
   taken and clashes with the existing record on the test id.
   */
  lemma ExpiryBoundaryClashes(store: Store, testId: string, now: int, rand: real, id: string, expiresAt: int)
    requires 0.0 <= rand < 1.0
    requires ByTestId(store, testId).Some? && ByTestId(store, testId).value.expiresAt == now
    ensures CreateTestTempCode(store, testId, now, rand, id, expiresAt) == Step(store, Failure(Plain(UniqueViolation)))
  {
  }

  /**
   A code the service has just created is handed back unchanged by every
   later call for the same test until it expires.
   */
  lemma CreatedCodeIsReused(store: Store, testId: string, now: int, rand: real, id: string, expiresAt: int,
                            later: int, rand': real, id': string, expiresAt': int)
    requires Unique(store) && 0.0 <= rand < 1.0 && 0.0 <= rand' < 1.0
    requires ByTestId(store, testId).None?
    requires CreateTestTempCode(store, testId, now, rand, id, expiresAt).result.Success?
    requires later < expiresAt
    ensures
      var first := CreateTestTempCode(store, testId, now, rand, id, expiresAt);
      CreateTestTempCode(first.next, testId, later, rand', id', expiresAt') == first
  {
    CreateThenLookup(store, testId, rand, id, expiresAt);
  }
}
