/**
 One-time e-mail codes for registration and account restore. A code record
 is keyed by e-mail (one per address) and found again by its token and its
 six-digit code; it lives fifteen minutes.
 */
module Verification {
  import opened Wrappers
  import opened Collections
  import opened Text

  datatype VerificationCode = VerificationCode(
    code: string,
    token: string,
    email: string,
    firstName: string,
    lastName: string,
    password: string,
    expiresAt: int)

  type Store = seq<VerificationCode>

  /** Who a code is issued for: the registration form, or the stored user on restore. */
  datatype Applicant = Applicant(email: string, firstName: string, lastName: Option<string>, password: string)

  /** Fifteen minutes, in milliseconds. */
  const Lifetime := 1000 * 60 * 15

  /** E-mails, tokens and codes are each unique across the store. */
  ghost predicate Unique(store: Store) {
    forall i, j :: 0 <= i < j < |store| ==>
      && store[i].email != store[j].email
      && store[i].token != store[j].token
      && store[i].code != store[j].code
  }

  /** `Math.floor(100000 + Math.random() * 900000).toString()`. */
  function GenerateCode(rand: real): (s: string)
    requires 0.0 <= rand < 1.0
    ensures |s| == 6 && forall i :: 0 <= i < 6 ==> IsDigit(s[i])
    ensures 100000 <= ParseDecimal(s) <= 999999
  {
    var n := (100000.0 + rand * 900000.0).Floor;
    assert 100000 <= n <= 999999;
    assert Pow10(5) == 100000 && Pow10(6) == 1000000 by {
      assert Pow10(1) == 10 && Pow10(2) == 100 && Pow10(3) == 1000 && Pow10(4) == 10000;
    }
    DecimalLength(n, 6);
    DecimalRoundTrip(n);
    Decimal(n)
  }

  // ----- store operations -----

  function EmailOf(v: VerificationCode): string { v.email }

  function ByEmail(store: Store, email: string): (r: Option<VerificationCode>)
    ensures r.None? <==> forall i :: 0 <= i < |store| ==> store[i].email != email
    ensures r.Some? ==> r.value in store && r.value.email == email
  {
    Find(store, EmailOf, email)
  }

  /** `findUnique({ where: { token, code } })`: the record with both. */
  function ByTokenAndCode(store: Store, token: string, code: string): (r: Option<VerificationCode>)
    ensures r.None? <==> forall i :: 0 <= i < |store| ==> !(store[i].token == token && store[i].code == code)
    ensures r.Some? ==> r.value in store && r.value.token == token && r.value.code == code
  {
    if store == [] then None
    else if store[0].token == token && store[0].code == code then Some(store[0])
    else ByTokenAndCode(store[1..], token, code)
  }

  /** Two records that clash on no unique column. */
  predicate Apart(a: VerificationCode, b: VerificationCode) {
    a.email != b.email && a.token != b.token && a.code != b.code
  }

  /** Keeping some of the records of a unique store keeps it unique. */
  lemma FilterKeepsUnique(store: Store, p: VerificationCode -> bool)
    requires Unique(store)
    ensures Unique(Filter(store, p))
  {
    assert Pairwise(store, Apart);
    FilterKeepsPairwise(store, p, Apart);
  }

  const UniqueViolation := "Unique constraint failed"

  /** `deleteMany({ where: { email } })`: every record for the address goes. */
  function WithoutEmail(store: Store, email: string): (r: Store)
    ensures forall v :: v in r <==> v in store && v.email != email
    ensures ByEmail(r, email).None?
  {
    Filter(store, (v: VerificationCode) => v.email != email)
  }

  /** `delete({ where: { code } })` once the record is known to exist. */
  function WithoutCode(store: Store, code: string): (r: Store)
    ensures forall v :: v in r <==> v in store && v.code != code
  {
    Filter(store, (v: VerificationCode) => v.code != code)
  }

  /**
   The record a fresh code gets: the applicant's names (an absent last name
   becomes ''), the password hash on registration or '' on restore, and a
   fifteen-minute lifetime. `hashed` is the hash of the applicant's password.
   */
  function Fresh(a: Applicant, isRestore: bool, now: int, rand: real, token: string, hashed: string)
    : (v: VerificationCode)
    requires 0.0 <= rand < 1.0
    ensures v.email == a.email && v.token == token && v.firstName == a.firstName
    ensures a.lastName.None? ==> v.lastName == ""
    ensures a.lastName.Some? ==> v.lastName == a.lastName.value
    ensures isRestore ==> v.password == ""
    ensures !isRestore ==> v.password == hashed
    ensures v.expiresAt - now == 15 * 60 * 1000
    ensures |v.code| == 6
  {
    VerificationCode(GenerateCode(rand), token, a.email, a.firstName, a.lastName.GetOr(""),
                     if isRestore then "" else hashed, now + Lifetime)
  }

  /** `create({ data })`: stores the record unless its token or code is already taken. */
  function Insert(store: Store, v: VerificationCode): (r: Step<Store, VerificationCode>)
    ensures r.result.Failure? <==> exists i :: 0 <= i < |store| && (store[i].token == v.token || store[i].code == v.code)
    ensures r.result.Failure? ==> r == Step(store, Failure(Plain(UniqueViolation)))
    ensures r.result.Success? ==> r == Step(store + [v], Success(v))
  {
    if exists i :: 0 <= i < |store| && (store[i].token == v.token || store[i].code == v.code) then
      Step(store, Failure(Plain(UniqueViolation)))
    else
      Step(store + [v], Success(v))
  }

  /**
   `createCode(data, isRestore)`. On restore every code for the address is
   deleted first. A live code (expiring after `now`) is then returned as it
   is; otherwise any expired one is deleted and a fresh code is inserted.
   The deletions stay even when the insert fails.
   */
  function CreateCode(store: Store, a: Applicant, isRestore: bool, now: int, rand: real, token: string, hashed: string)
    : (r: Step<Store, VerificationCode>)
    requires 0.0 <= rand < 1.0
    ensures
      var cleared := if isRestore then WithoutEmail(store, a.email) else store;
      var existing := ByEmail(cleared, a.email);
      && (existing.Some? && existing.value.expiresAt > now ==> r == Step(cleared, Success(existing.value)))
      && (existing.None? || existing.value.expiresAt <= now ==>
            r == Insert(WithoutEmail(cleared, a.email), Fresh(a, isRestore, now, rand, token, hashed)))
  {
    var cleared := if isRestore then WithoutEmail(store, a.email) else store;
    var existing := ByEmail(cleared, a.email);
    if existing.Some? && existing.value.expiresAt > now then Step(cleared, Success(existing.value))
    else Insert(WithoutEmail(cleared, a.email), Fresh(a, isRestore, now, rand, token, hashed))
  }

  /**
   `verifyVerificationCode({ token, code })`: 'Invalid verification code'
   when no record has both; a record that expired before `now` is deleted
   and 'Verification code expired' is reported; otherwise the record is
   returned and kept, so a code expiring exactly at `now` is accepted.
   */
  function VerifyCode(store: Store, token: string, code: string, now: int): (r: Step<Store, VerificationCode>)
    ensures ByTokenAndCode(store, token, code).None? ==>
      r == Step(store, Failure(BadRequest("Invalid verification code")))
    ensures ByTokenAndCode(store, token, code).Some? ==>
      var v := ByTokenAndCode(store, token, code).value;
      && (v.expiresAt < now ==>
            && r.result == Failure(BadRequest("Verification code expired"))
            && r.next == WithoutCode(store, code))
      && (v.expiresAt >= now ==> r == Step(store, Success(v)))
  {
    match ByTokenAndCode(store, token, code)
    case None => Step(store, Failure(BadRequest("Invalid verification code")))
    case Some(v) =>
      if v.expiresAt < now then
        Step(WithoutCode(store, code), Failure(BadRequest("Verification code expired")))
      else Step(store, Success(v))
  }

  // ----- properties -----

  /** Removing every record for an address keeps the store unique. */
  lemma WithoutEmailKeepsUnique(store: Store, email: string)
    requires Unique(store)
    ensures Unique(WithoutEmail(store, email))
  {
    FilterKeepsUnique(store, (v: VerificationCode) => v.email != email);
  }

  /** Inserting a record for an address with no record keeps the store unique. */
  lemma InsertKeepsUnique(store: Store, v: VerificationCode)
    requires Unique(store) && ByEmail(store, v.email).None?
    ensures Unique(Insert(store, v).next)
  {
    if Insert(store, v).result.Success? {
      forall i | 0 <= i < |store| ensures Apart(store[i], v) { }
    }
  }

  /** Issuing a code keeps e-mails, tokens and codes unique. */
  lemma CreateCodeKeepsUnique(store: Store, a: Applicant, isRestore: bool, now: int, rand: real, token: string, hashed: string)
    requires Unique(store) && 0.0 <= rand < 1.0
    ensures Unique(CreateCode(store, a, isRestore, now, rand, token, hashed).next)
  {
    var cleared := if isRestore then WithoutEmail(store, a.email) else store;
    if isRestore {
      WithoutEmailKeepsUnique(store, a.email);
    }
    var existing := ByEmail(cleared, a.email);
    if !(existing.Some? && existing.value.expiresAt > now) {
      WithoutEmailKeepsUnique(cleared, a.email);
      InsertKeepsUnique(WithoutEmail(cleared, a.email), Fresh(a, isRestore, now, rand, token, hashed));
    }
  }

  /** With unique tokens, the record found by token and code is the one holding that token. */
  lemma ByTokenAndCodeFinds(store: Store, i: int)
    requires Unique(store) && 0 <= i < |store|
    ensures ByTokenAndCode(store, store[i].token, store[i].code) == Some(store[i])
  {
    if i > 0 {
      assert Unique(store[1..]);
      assert store[1..][i - 1] == store[i];
      ByTokenAndCodeFinds(store[1..], i - 1);
    }
  }

  /** A freshly issued code verifies until it expires, and returns the record issued. */
  lemma IssueThenVerify(store: Store, a: Applicant, isRestore: bool, now: int, rand: real, token: string,
                        hashed: string, later: int)
    requires Unique(store) && 0.0 <= rand < 1.0
    requires CreateCode(store, a, isRestore, now, rand, token, hashed).result.Success?
    requires later <= CreateCode(store, a, isRestore, now, rand, token, hashed).result.value.expiresAt
    ensures
      var issued := CreateCode(store, a, isRestore, now, rand, token, hashed);
      VerifyCode(issued.next, issued.result.value.token, issued.result.value.code, later)
      == Step(issued.next, Success(issued.result.value))
  {
    var issued := CreateCode(store, a, isRestore, now, rand, token, hashed);
    CreateCodeKeepsUnique(store, a, isRestore, now, rand, token, hashed);
    var v := issued.result.value;
    var k :| 0 <= k < |issued.next| && issued.next[k] == v;
    ByTokenAndCodeFinds(issued.next, k);
  }

  /** On restore no earlier code survives: the code returned is always a fresh one. */
  lemma RestoreIssuesFresh(store: Store, a: Applicant, now: int, rand: real, token: string, hashed: string)
    requires 0.0 <= rand < 1.0
    requires CreateCode(store, a, true, now, rand, token, hashed).result.Success?
    ensures
      var v := CreateCode(store, a, true, now, rand, token, hashed).result.value;
      && v.token == token && v.password == "" && v.expiresAt == now + Lifetime
  {
    assert ByEmail(WithoutEmail(store, a.email), a.email).None?;
  }

  /** An expired code is gone after the failed attempt: trying it again reports it as invalid. */
  lemma ExpiredThenInvalid(store: Store, token: string, code: string, now: int, later: int)
    requires ByTokenAndCode(store, token, code).Some? && ByTokenAndCode(store, token, code).value.expiresAt < now
    ensures VerifyCode(VerifyCode(store, token, code, now).next, token, code, later).result
         == Failure(BadRequest("Invalid verification code"))
  {
    var next := VerifyCode(store, token, code, now).next;
    assert forall i :: 0 <= i < |next| ==> next[i] in next && next[i].code != code;
  }
}
