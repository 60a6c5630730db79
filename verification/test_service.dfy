/**
 The guards of the test service: the caller must be a known user, and a test
 is visible only to its owner, with a missing test and a foreign test
 reported alike. Also the owner listing's page arithmetic and the choice of
 export format for a download.
 */
module TestService {
  import opened Wrappers
  import opened Collections
  import Paging

  /** A stored test; `title` stands for the editable content. */
  datatype TestRecord = TestRecord(id: string, ownerId: string, title: string)

  type Tests = seq<TestRecord>

  function IdOf(t: TestRecord): string { t.id }

  /** `getTestById(id)` on the repository: the stored test or nothing. */
  function Lookup(tests: Tests, id: string): (r: Option<TestRecord>)
    ensures r.None? <==> forall i :: 0 <= i < |tests| ==> tests[i].id != id
    ensures r.Some? ==> r.value in tests && r.value.id == id
  {
    Find(tests, IdOf, id)
  }

  /**
   `validateTestOwnership(test, user)`: passes the test through when the
   caller owns it; a missing test and someone else's test both give
   NotFound 'Test not found', so the caller cannot tell them apart.
   */
  function ValidateTestOwnership(test: Option<TestRecord>, userId: string): (r: Result<TestRecord>)
    ensures r.Success? <==> test.Some? && test.value.ownerId == userId
    ensures r.Success? ==> r.value == test.value
    ensures r.Failure? ==> r.error == NotFound("Test not found")
  {
    if test.None? || test.value.ownerId != userId then Failure(NotFound("Test not found")) else Success(test.value)
  }

  /** `getTestById(id, user)`: the test, when the caller owns it. */
  function GetTestById(tests: Tests, id: string, userId: string): (r: Result<TestRecord>)
    ensures r.Success? <==> exists i :: 0 <= i < |tests| && tests[i].id == id && Lookup(tests, id).value.ownerId == userId
    ensures r.Success? ==> r.value in tests && r.value.id == id && r.value.ownerId == userId
    ensures r.Failure? ==> r.error == NotFound("Test not found")
  {
    ValidateTestOwnership(Lookup(tests, id), userId)
  }

  /** A missing test and another owner's test produce the same failure. */
  lemma ForeignLooksMissing(tests: Tests, other: Tests, id: string, userId: string)
    requires Lookup(tests, id).Some? && Lookup(tests, id).value.ownerId != userId
    requires Lookup(other, id).None?
    ensures GetTestById(tests, id, userId) == GetTestById(other, id, userId)
  {
  }

  /**
   `validateUser(user)`: an empty id gives Unauthorized 'Unauthorized', an id
   that names no user gives Unauthorized 'User not found'.
   */
  function ValidateUser(users: seq<string>, userId: string): (r: Result<string>)
    ensures r.Success? <==> userId != "" && userId in users
    ensures r.Success? ==> r.value == userId
    ensures userId == "" ==> r == Failure(Unauthorized("Unauthorized"))
    ensures userId != "" && userId !in users ==> r == Failure(Unauthorized("User not found"))
  {
    if userId == "" then Failure(Unauthorized("Unauthorized"))
    else if userId !in users then Failure(Unauthorized("User not found"))
    else Success(userId)
  }

  datatype Pagination = Pagination(page: int, pages: nat, limit: int, total: nat)

  /**
   The pagination block of `getTestsByOwnerId`: page and limit are echoed,
   `total` is the count of matching tests and `pages = ceil(total / limit)`.
   The request's validation guarantees `page >= 1` and `limit >= 1`.
   */
  function OwnerPagination(count: nat, page: int, limit: int): (r: Pagination)
    requires page >= 1 && limit >= 1
    ensures r.page == page && r.limit == limit && r.total == count
    ensures r.pages * limit >= count
    ensures r.pages > 0 ==> (r.pages - 1) * limit < count
  {
    Pagination(page, Paging.CeilDiv(count, limit), limit, count)
  }

  /** A requested page lies within `pages` exactly when it has rows to show. */
  lemma OwnerPageInRange(count: nat, page: int, limit: int)
    requires page >= 1 && limit >= 1
    ensures page <= OwnerPagination(count, page, limit).pages <==> Paging.Skip(page, limit) < count
  {
    Paging.PageHasRows(count, page, limit);
  }

  const DocxContentType := "application/vnd.openxmlformats-officedocument.wordprocessingml.document"
  const PdfContentType := "application/zip"

  /**
   Keys every plain JavaScript object inherits from `Object.prototype`.
   Looking one of them up in the handler table yields a truthy value that
   is not a handler.
   */
  const InheritedKeys: set<string> := {
    "constructor", "toString", "toLocaleString", "valueOf", "hasOwnProperty", "isPrototypeOf",
    "propertyIsEnumerable", "__proto__", "__defineGetter__", "__defineSetter__",
    "__lookupGetter__", "__lookupSetter__"}

  /** The export a download request produces once the test is known to be the caller's. */
  datatype Download = Export(contentType: string, fileName: string)

  /**
   The plain `Error` the catch block raises when the handler has no
   generator: calling `undefined` throws a TypeError inside the `try`, and
   its message is wrapped.
   */
  function GeneratorMissing(fileType: string): (e: HttpError)
    ensures e.Plain? && e.Status() != 403
  {
    Plain("Error generating " + fileType + " file: handler.generator is not a function")
  }

  /**
   `downloadTest`: ownership is checked first; then 'docx' and 'pdf' select
   their export, an inherited object key gets past the handler check but
   calling its missing generator throws and is rethrown as a plain error,
   and any other type is NotFound 'Unsupported file type'.
   */
  function DownloadTest(tests: Tests, userId: string, testId: string, fileType: string): (r: Result<Download>)
    ensures GetTestById(tests, testId, userId).Failure? ==> r == Failure(NotFound("Test not found"))
    ensures GetTestById(tests, testId, userId).Success? ==>
      && (fileType == "docx" ==> r == Success(Export(DocxContentType, testId + "_test.zip")))
      && (fileType == "pdf" ==> r == Success(Export(PdfContentType, testId + "_test.zip")))
      && (fileType in InheritedKeys ==> r == Failure(GeneratorMissing(fileType)))
      && (fileType !in InheritedKeys && fileType != "docx" && fileType != "pdf" ==>
            r == Failure(NotFound("Unsupported file type")))
  {
    var test :- GetTestById(tests, testId, userId);
    if fileType == "docx" then Success(Export(DocxContentType, test.id + "_test.zip"))
    else if fileType == "pdf" then Success(Export(PdfContentType, test.id + "_test.zip"))
    else if fileType in InheritedKeys then
      Failure(GeneratorMissing(fileType))
    else Failure(NotFound("Unsupported file type"))
  }

  /** The position of the test with this id. */
  function IndexOf(tests: Tests, id: string): (r: Option<nat>)
    ensures r.None? <==> forall i :: 0 <= i < |tests| ==> tests[i].id != id
    ensures r.Some? ==> r.value < |tests| && tests[r.value].id == id
  {
    FirstIndex(tests, IdOf, id)
  }

  /**
   `updateTest`: the user is validated, then ownership, and only then is the
   stored test rewritten. Any failure leaves the tests as they were.
   */
  function UpdateTest(users: seq<string>, tests: Tests, userId: string, id: string, title: string)
    : (r: Result<(Tests, TestRecord)>)
    ensures ValidateUser(users, userId).Failure? ==> r == Failure(ValidateUser(users, userId).error)
    ensures ValidateUser(users, userId).Success? ==>
      (r.Failure? <==> GetTestById(tests, id, userId).Failure?)
    ensures r.Failure? && ValidateUser(users, userId).Success? ==> r.error == NotFound("Test not found")
    ensures r.Success? ==>
      var (tests', t) := r.value;
      && |tests'| == |tests|
      && t == Lookup(tests, id).value.(title := title)
      && t.ownerId == userId
      && (forall i :: 0 <= i < |tests| && i != IndexOf(tests, id).value ==> tests'[i] == tests[i])
      && tests'[IndexOf(tests, id).value] == t
  {
    var _ :- ValidateUser(users, userId);
    var test :- GetTestById(tests, id, userId);
    var i := IndexOf(tests, id).value;
    var t := tests[i].(title := title);
    Success((tests[i := t], t))
  }

  /**
   `deleteTest`: the same guards in the same order, then the test is
   removed. Any failure leaves the tests as they were.
   */
  function DeleteTest(users: seq<string>, tests: Tests, userId: string, id: string): (r: Result<(Tests, TestRecord)>)
    ensures ValidateUser(users, userId).Failure? ==> r == Failure(ValidateUser(users, userId).error)
    ensures ValidateUser(users, userId).Success? ==>
      (r.Failure? <==> GetTestById(tests, id, userId).Failure?)
    ensures r.Failure? && ValidateUser(users, userId).Success? ==> r.error == NotFound("Test not found")
    ensures r.Success? ==>
      var (tests', t) := r.value;
      && t == Lookup(tests, id).value && t.ownerId == userId
      && |tests'| == |tests| - 1
      && tests' == tests[..IndexOf(tests, id).value] + tests[IndexOf(tests, id).value + 1..]
  {
    var _ :- ValidateUser(users, userId);
    var test :- GetTestById(tests, id, userId);
    var i := IndexOf(tests, id).value;
    Success((tests[..i] + tests[i + 1..], tests[i]))
  }

  /** The record `Lookup` returns sits at the index `IndexOf` gives. */
  lemma LookupAtIndex(tests: Tests, id: string)
    ensures Lookup(tests, id).Some? <==> IndexOf(tests, id).Some?
    ensures Lookup(tests, id).Some? ==> Lookup(tests, id).value == tests[IndexOf(tests, id).value]
  {
  }

  /** Nobody but the owner can change or delete a test. */
  lemma OnlyOwnerMutates(users: seq<string>, tests: Tests, userId: string, id: string, title: string)
    requires Lookup(tests, id).Some? && Lookup(tests, id).value.ownerId != userId
    ensures UpdateTest(users, tests, userId, id, title).Failure?
    ensures DeleteTest(users, tests, userId, id).Failure?
  {
  }
}
