/**
 The socket handlers of the online-test namespace, as transitions of the
 backend state (tests, join codes and sessions) that also report what the
 client observes. Emits become `Outcome` values; rooms and broadcasting
 are not modelled. The result of verifying the socket's access token is an
 input: `Some(userId)` for a valid token, `None` otherwise.
 */
module OnlineTestGateway {
  import opened Wrappers
  import TempCodes
  import OnlineTests
  import TestService
  import Nested

  datatype Backend = Backend(tests: TestService.Tests, codes: TempCodes.Store, sessions: OnlineTests.Store)

  /** What a handler call leads to, as seen from the sockets. */
  datatype Outcome =
    /** The handler returns without emitting anything. */
    | Ignored
    /** 'Invalid token' is emitted to the client and the socket is disconnected. */
    | InvalidToken
    /** An ERROR event with this message is emitted to the client. */
    | ClientError(message: string)
    /** An exception was caught and logged; nothing is emitted. */
    | Logged(error: HttpError)
    /** An exception escapes the handler. */
    | Unhandled(error: HttpError)
    | TestStarted(testId: string, tempCode: TempCodes.TempCode)
    | OnlineTestStarted(testId: string, durationInMinutes: int)
    | OnlineTestFinished(testId: string, results: Option<OnlineTests.Results>)
    /** The roster after a join; `tokenRejected` when a token was sent and failed verification. */
    | Joined(testId: string, onlineUsers: seq<OnlineTests.Participant>, tokenRejected: bool)
    | Left(onlineUsers: seq<OnlineTests.Participant>)
    | UserDataChanged(testId: string, onlineUsers: seq<OnlineTests.Participant>)
    | AnswerSelected(clientId: string, sectionId: string, taskId: string, questionId: string, answer: string)

  datatype Handled = Handled(next: Backend, outcome: Outcome)

  /**
   START_TEST: the owner of a test opens a session for it. The test must be
   the caller's; a join code is issued (or reused) and a session created.
   Every failure is caught and logged; a code issued or deleted before the
   failure stays.
   */
  function StartTest(b: Backend, user: Option<string>, testId: string, now: int,
                     rand: real, codeId: string, expiresAt: int, sessionId: string): (h: Handled)
    requires 0.0 <= rand < 1.0
    ensures user.None? ==> h == Handled(b, InvalidToken)
    ensures h.next.tests == b.tests
    ensures h.outcome.TestStarted? ==>
      && user.Some?
      && TestService.GetTestById(b.tests, testId, user.value).Success?
      && h.outcome.testId == testId
      && OnlineTests.ByTestId(h.next.sessions, testId).Some?
      && OnlineTests.ByTestId(h.next.sessions, testId).value.tempCodeId == h.outcome.tempCode.id
      && OnlineTests.ByTestId(h.next.sessions, testId).value.participants == []
    ensures !h.outcome.TestStarted? ==> h.next.sessions == b.sessions
    ensures user.Some? && TestService.GetTestById(b.tests, testId, user.value).Failure? ==>
      h == Handled(b, Logged(NotFound("Test not found")))
    ensures user.Some? && TestService.GetTestById(b.tests, testId, user.value).Success? ==>
      var step := TempCodes.CreateTestTempCode(b.codes, testId, now, rand, codeId, expiresAt);
      && h.next.codes == step.next
      && (step.result.Failure? ==> h.outcome == Logged(step.result.error))
      && (step.result.Success? ==>
            var created := OnlineTests.Create(b.sessions, sessionId, testId, step.result.value.id, user.value);
            && (created.Failure? ==> h.outcome == Logged(created.error))
            && (created.Success? ==>
                  && h.outcome == TestStarted(testId, step.result.value)
                  && h.next.sessions == b.sessions + [created.value.1]))
  {
    match user
    case None => Handled(b, InvalidToken)
    case Some(userId) =>
      match TestService.GetTestById(b.tests, testId, userId)
      case Failure(e) => Handled(b, Logged(e))
      case Success(test) =>
        var step := TempCodes.CreateTestTempCode(b.codes, testId, now, rand, codeId, expiresAt);
        var b1 := b.(codes := step.next);
        match step.result
        case Failure(e) => Handled(b1, Logged(e))
        case Success(tc) =>
          match OnlineTests.Create(b.sessions, sessionId, testId, tc.id, test.ownerId)
          case Failure(e) => Handled(b1, Logged(e))
          case Success((sessions', _)) =>
            OnlineTests.AppendFinds(b.sessions, sessions'[|b.sessions|]);
            Handled(b1.(sessions := sessions'), TestStarted(testId, tc))
  }

  /**
   The owner of a test with no join code and no session yet, given fresh
   ids, starts it: the new code and an empty, unstarted session for the
   test are stored, and nothing else changes.
   */
  lemma StartFreshTest(b: Backend, userId: string, testId: string, now: int,
                       rand: real, codeId: string, expiresAt: int, sessionId: string)
    requires 0.0 <= rand < 1.0
    requires TestService.GetTestById(b.tests, testId, userId).Success?
    requires forall i :: 0 <= i < |b.codes| ==>
      b.codes[i].testId != testId && b.codes[i].id != codeId && b.codes[i].code != TempCodes.GenerateCode(rand)
    requires forall i :: 0 <= i < |b.sessions| ==> b.sessions[i].testId != testId && b.sessions[i].id != sessionId
    ensures
      var code := TempCodes.TempCode(codeId, TempCodes.GenerateCode(rand), testId, expiresAt);
      StartTest(b, Some(userId), testId, now, rand, codeId, expiresAt, sessionId)
        == Handled(Backend(b.tests, b.codes + [code],
                           b.sessions + [OnlineTests.OnlineTest(sessionId, testId, codeId, userId, None, None, [], None)]),
                   TestStarted(testId, code))
  {
  }

  /**
   START_ONLINE_TEST: the owner starts the session the join code points
   at. Nothing happens unless the session exists, is not finished and
   belongs to the caller; whether it already started is not checked. An
   unknown code throws, which is caught and logged.
   */
  function StartOnlineTest(b: Backend, user: Option<string>, code: int, durationInMinutes: int, now: int): (h: Handled)
    ensures user.None? ==> h == Handled(b, InvalidToken)
    ensures h.next.tests == b.tests && h.next.codes == b.codes
    ensures user.Some? && TempCodes.GetTestTempCode(b.codes, code).Failure? ==>
      h == Handled(b, Logged(BadRequest("Invalid test temp code")))
    ensures user.Some? && TempCodes.GetTestTempCode(b.codes, code).Success? ==>
      var testId := TempCodes.GetTestTempCode(b.codes, code).value.testId;
      var session := OnlineTests.ByTestId(b.sessions, testId);
      && (session.None? || session.value.finishedAt.Some? || session.value.ownerId != user.value ==>
            h == Handled(b, Ignored))
      && (session.Some? && session.value.finishedAt.None? && session.value.ownerId == user.value ==>
            var started := OnlineTests.Start(b.sessions, session.value.id, now);
            && (started.Failure? ==> h == Handled(b, Logged(started.error)))
            && (started.Success? ==>
                  h == Handled(b.(sessions := started.value.0), OnlineTestStarted(testId, durationInMinutes))))
  {
    match user
    case None => Handled(b, InvalidToken)
    case Some(userId) =>
      match TempCodes.GetTestTempCode(b.codes, code)
      case Failure(e) => Handled(b, Logged(e))
      case Success(tc) =>
        match OnlineTests.ByTestId(b.sessions, tc.testId)
        case None => Handled(b, Ignored)
        case Some(existing) =>
          if existing.finishedAt.Some? || existing.ownerId != userId then Handled(b, Ignored)
          else
            match OnlineTests.Start(b.sessions, existing.id, now)
            case Failure(e) => Handled(b, Logged(e))
            case Success((sessions', _)) =>
              Handled(b.(sessions := sessions'), OnlineTestStarted(tc.testId, durationInMinutes))
  }

  /**
   FINISH_ONLINE_TEST: any caller with a valid token finishes the session
   of the test; the owner is not checked and an earlier finish is
   overwritten. The results broadcast are those read before finishing.
   */
  function FinishOnlineTest(b: Backend, user: Option<string>, testId: string, now: int): (h: Handled)
    requires OnlineTests.Unique(b.sessions)
    ensures user.None? ==> h == Handled(b, InvalidToken)
    ensures user.Some? && OnlineTests.ByTestId(b.sessions, testId).None? ==> h == Handled(b, Ignored)
    ensures user.Some? && OnlineTests.ByTestId(b.sessions, testId).Some? ==>
      var session := OnlineTests.ByTestId(b.sessions, testId).value;
      && h.outcome == OnlineTestFinished(testId, session.results)
      && h.next.tests == b.tests && h.next.codes == b.codes
      && OnlineTests.ByTestId(h.next.sessions, testId) == Some(session.(finishedAt := Some(now)))
      && |h.next.sessions| == |b.sessions|
      && (forall k :: 0 <= k < |b.sessions| && b.sessions[k].testId != testId ==> h.next.sessions[k] == b.sessions[k])
  {
    match user
    case None => Handled(b, InvalidToken)
    case Some(_) =>
      match OnlineTests.ByTestId(b.sessions, testId)
      case None => Handled(b, Ignored)
      case Some(session) =>
        OnlineTests.FoundById(b.sessions, testId);
        match OnlineTests.Finish(b.sessions, session.id, now)
        case Failure(e) => Handled(b, Unhandled(e))
        case Success((sessions', t)) =>
          OnlineTests.ReplaceFinds(b.sessions, OnlineTests.IndexByTestId(b.sessions, testId).value, t);
          Handled(b.(sessions := sessions'), OnlineTestFinished(testId, session.results))
  }

  /** The roster entry a join adds. */
  function PendingParticipant(clientId: string): OnlineTests.Participant {
    OnlineTests.Participant(clientId, None, None, None, Some("pending"))
  }

  /**
   JOIN_ONLINE_TEST: a socket joins the session behind a join code. A
   socket that sent no token, or whose token failed verification, is
   appended to the roster as pending, even if its client id is already
   there; a verified user is not added. Neither the start nor the finish of
   the session is checked. An unknown code throws, which is caught and
   logged.
   */
  function JoinOnlineTest(b: Backend, clientId: string, code: int, hasToken: bool, user: Option<string>): (h: Handled)
    ensures h.next.tests == b.tests && h.next.codes == b.codes
    ensures TempCodes.GetTestTempCode(b.codes, code).Failure? ==>
      h == Handled(b, Logged(BadRequest("Invalid test temp code")))
    ensures TempCodes.GetTestTempCode(b.codes, code).Success? ==>
      var testId := TempCodes.GetTestTempCode(b.codes, code).value.testId;
      && (OnlineTests.ByTestId(b.sessions, testId).None? ==> h == Handled(b, ClientError("Test not found")))
      && (OnlineTests.ByTestId(b.sessions, testId).Some? ==>
            var before := OnlineTests.ByTestId(b.sessions, testId).value.participants;
            var anonymous := !hasToken || user.None?;
            && h.outcome.Joined?
            && h.outcome.testId == testId
            && h.outcome.tokenRejected == (hasToken && user.None?)
            && (anonymous ==> h.outcome.onlineUsers == before + [PendingParticipant(clientId)])
            && (!anonymous ==> h.outcome.onlineUsers == before && h.next == b)
            && OnlineTests.ByTestId(h.next.sessions, testId).Some?
            && OnlineTests.ByTestId(h.next.sessions, testId).value.participants == h.outcome.onlineUsers)
  {
    match TempCodes.GetTestTempCode(b.codes, code)
    case Failure(e) => Handled(b, Logged(e))
    case Success(tc) =>
      match OnlineTests.ByTestId(b.sessions, tc.testId)
      case None => Handled(b, ClientError("Test not found"))
      case Some(session) =>
        var verified := if hasToken then user else None;
        var tokenRejected := hasToken && user.None?;
        if verified.Some? then
          Handled(b, Joined(tc.testId, session.participants, tokenRejected))
        else
          match OnlineTests.Add(b.sessions, tc.testId, PendingParticipant(clientId))
          case Failure(e) => Handled(b, Logged(e))
          case Success((sessions', t)) =>
            OnlineTests.ReplaceFinds(b.sessions, OnlineTests.IndexByTestId(b.sessions, tc.testId).value, t);
            Handled(b.(sessions := sessions'), Joined(tc.testId, t.participants, tokenRejected))
  }

  /**
   LEAVE_ONLINE_TEST: the socket leaves the session behind a join code; the
   last roster entry is dropped, whoever it belongs to. An unknown code
   throws out of the handler.
   */
  function LeaveOnlineTest(b: Backend, clientId: string, code: int): (h: Handled)
    requires OnlineTests.Unique(b.sessions)
    ensures h.next.tests == b.tests && h.next.codes == b.codes
    ensures TempCodes.GetTestTempCode(b.codes, code).Failure? ==>
      h == Handled(b, Unhandled(BadRequest("Invalid test temp code")))
    ensures TempCodes.GetTestTempCode(b.codes, code).Success? ==>
      var testId := TempCodes.GetTestTempCode(b.codes, code).value.testId;
      && (OnlineTests.ByTestId(b.sessions, testId).None? ==> h == Handled(b, Ignored))
      && (OnlineTests.ByTestId(b.sessions, testId).Some? ==>
            var before := OnlineTests.ByTestId(b.sessions, testId).value.participants;
            && h.outcome == Left(OnlineTests.SpliceLast(before))
            && OnlineTests.ByTestId(h.next.sessions, testId).Some?
            && OnlineTests.ByTestId(h.next.sessions, testId).value.participants == OnlineTests.SpliceLast(before))
  {
    match TempCodes.GetTestTempCode(b.codes, code)
    case Failure(e) => Handled(b, Unhandled(e))
    case Success(tc) =>
      match OnlineTests.ByTestId(b.sessions, tc.testId)
      case None => Handled(b, Ignored)
      case Some(session) =>
        OnlineTests.FoundById(b.sessions, tc.testId);
        var leaving := OnlineTests.Participant(clientId, None, None, None, None);
        match OnlineTests.Remove(b.sessions, session.id, leaving)
        case Failure(e) => Handled(b, Unhandled(e))
        case Success((sessions', t)) =>
          OnlineTests.ReplaceFinds(b.sessions, OnlineTests.IndexByTestId(b.sessions, tc.testId).value, t);
          Handled(b.(sessions := sessions'), Left(t.participants))
  }

  /** The first roster entry of this client, as `participants.find`. */
  function FindParticipant(roster: seq<OnlineTests.Participant>, clientId: string): (r: Option<OnlineTests.Participant>)
    ensures r.None? <==> forall k :: 0 <= k < |roster| ==> roster[k].clientId != clientId
    ensures r.Some? ==> r.value in roster && r.value.clientId == clientId
  {
    if roster == [] then None
    else if roster[0].clientId == clientId then Some(roster[0])
    else FindParticipant(roster[1..], clientId)
  }

  /**
   CHANGE_USER_DATA: a participant gives their names and e-mail. Missing or
   empty names, or a zero code, end the handler silently, as does a client
   not in the roster; an unknown code throws out of it. The handler marks
   the participant active, but the repository copies only the names and the
   e-mail, so the stored status does not change.
   */
  function ChangeUserData(b: Backend, clientId: string, firstName: Option<string>, lastName: Option<string>,
                          email: Option<string>, code: int): (h: Handled)
    requires OnlineTests.Unique(b.sessions)
    ensures h.next.tests == b.tests && h.next.codes == b.codes
    ensures !OnlineTests.Truthy(firstName) || !OnlineTests.Truthy(lastName) || code == 0 ==> h == Handled(b, Ignored)
    ensures OnlineTests.Truthy(firstName) && OnlineTests.Truthy(lastName) && code != 0 ==>
      && (TempCodes.GetTestTempCode(b.codes, code).Failure? ==>
            h == Handled(b, Unhandled(BadRequest("Invalid test temp code"))))
      && (TempCodes.GetTestTempCode(b.codes, code).Success? ==>
            var testId := TempCodes.GetTestTempCode(b.codes, code).value.testId;
            var session := OnlineTests.ByTestId(b.sessions, testId);
            && (session.None? ==> h == Handled(b, Ignored))
            && (session.Some? && FindParticipant(session.value.participants, clientId).None? ==>
                  h == Handled(b, Ignored))
            && (session.Some? && FindParticipant(session.value.participants, clientId).Some? ==>
                  var before := session.value.participants;
                  && h.outcome.UserDataChanged?
                  && h.outcome.testId == testId
                  && OnlineTests.ByTestId(h.next.sessions, testId).Some?
                  && OnlineTests.ByTestId(h.next.sessions, testId).value.participants == h.outcome.onlineUsers
                  && |h.next.sessions| == |b.sessions|
                  && (forall k :: 0 <= k < |b.sessions| && b.sessions[k].testId != testId ==>
                        h.next.sessions[k] == b.sessions[k])
                  && |h.outcome.onlineUsers| == |before|
                  && forall k :: 0 <= k < |before| ==>
                       && h.outcome.onlineUsers[k].status == before[k].status
                       && (before[k].clientId == clientId ==>
                             h.outcome.onlineUsers[k].firstName == firstName
                             && h.outcome.onlineUsers[k].lastName == lastName
                             && h.outcome.onlineUsers[k].email == email)
                       && (before[k].clientId != clientId ==> h.outcome.onlineUsers[k] == before[k])))
  {
    if !OnlineTests.Truthy(firstName) || !OnlineTests.Truthy(lastName) || code == 0 then Handled(b, Ignored)
    else
      match TempCodes.GetTestTempCode(b.codes, code)
      case Failure(e) => Handled(b, Unhandled(e))
      case Success(tc) =>
        match OnlineTests.ByTestId(b.sessions, tc.testId)
        case None => Handled(b, Ignored)
        case Some(session) =>
          match FindParticipant(session.participants, clientId)
          case None => Handled(b, Ignored)
          case Some(p) =>
            OnlineTests.FoundById(b.sessions, tc.testId);
            var user := p.(firstName := firstName, lastName := lastName, email := email, status := Some("active"));
            match OnlineTests.UpdateParticipant(b.sessions, session.id, user)
            case Failure(e) => Handled(b, Unhandled(e))
            case Success((sessions', t)) =>
              OnlineTests.ReplaceFinds(b.sessions, OnlineTests.IndexByTestId(b.sessions, tc.testId).value, t);
              Handled(b.(sessions := sessions'), UserDataChanged(tc.testId, t.participants))
  }

  /** Why an answer selection is turned down before anything is written, if it is. */
  function SelectAnswerGuard(b: Backend, clientId: string, testId: string): (r: Option<string>)
    ensures OnlineTests.ByTestId(b.sessions, testId).None? ==> r == Some("Test not found")
    ensures OnlineTests.ByTestId(b.sessions, testId).Some? ==>
      var s := OnlineTests.ByTestId(b.sessions, testId).value;
      && ((s.startedAt.None? || s.finishedAt.Some?) ==> r == Some("Test is not active"))
      && (s.startedAt.Some? && s.finishedAt.None? && FindParticipant(s.participants, clientId).None? ==>
            r == Some("Participant not found"))
      && (s.startedAt.Some? && s.finishedAt.None? && FindParticipant(s.participants, clientId).Some? ==> r.None?)
  {
    match OnlineTests.ByTestId(b.sessions, testId)
    case None => Some("Test not found")
    case Some(s) =>
      if s.startedAt.None? || s.finishedAt.Some? then Some("Test is not active")
      else if FindParticipant(s.participants, clientId).None? then Some("Participant not found")
      else None
  }

  /**
   SELECT_ANSWER as written: after the guards pass, the handler builds the
   new results and calls `_updateOnlineTestResults`, which the online-test
   service does not define. The call throws a TypeError, the handler
   catches it and reports 'Failed to process answer selection', and no
   answer is ever stored.
   */
  function SelectAnswer(b: Backend, clientId: string, testId: string, sectionId: string, taskId: string,
                        questionId: string, answer: string): (h: Handled)
    ensures h.next == b
    ensures h.outcome.ClientError?
    ensures SelectAnswerGuard(b, clientId, testId).Some? ==>
      h.outcome.message == SelectAnswerGuard(b, clientId, testId).value
  {
    match SelectAnswerGuard(b, clientId, testId)
    case Some(message) => Handled(b, ClientError(message))
    case None => Handled(b, ClientError("Failed to process answer selection"))
  }

  /** An accepted selection by a participant of an active session is still rejected and stores nothing. */
  lemma SelectAnswerNeverStores(b: Backend, clientId: string, testId: string, sectionId: string, taskId: string,
                                questionId: string, answer: string)
    requires OnlineTests.ByTestId(b.sessions, testId).Some?
    requires OnlineTests.ByTestId(b.sessions, testId).value.startedAt.Some?
    requires OnlineTests.ByTestId(b.sessions, testId).value.finishedAt.None?
    requires FindParticipant(OnlineTests.ByTestId(b.sessions, testId).value.participants, clientId).Some?
    ensures SelectAnswer(b, clientId, testId, sectionId, taskId, questionId, answer)
         == Handled(b, ClientError("Failed to process answer selection"))
  {
  }

  /** `results[client][section][task][question] = answer`, creating the missing levels. */
  function WriteAnswer(results: OnlineTests.Results, clientId: string, sectionId: string, taskId: string,
                       questionId: string, answer: string): (r: OnlineTests.Results)
    ensures clientId in r
    ensures Nested.Get(r[clientId], sectionId, taskId, questionId) == Some(answer)
    ensures forall s, t, q :: (s, t, q) != (sectionId, taskId, questionId) ==>
              Nested.Get(r[clientId], s, t, q)
              == (if clientId in results then Nested.Get(results[clientId], s, t, q) else None)
    ensures forall c :: c != clientId ==> (c in r <==> c in results)
    ensures forall c :: c != clientId && c in results ==> r[c] == results[c]
  {
    var mine := if clientId in results then results[clientId] else map[];
    results[clientId := Nested.Put(mine, sectionId, taskId, questionId, answer)]
  }

  /**
   SELECT_ANSWER as evidently intended: after the guards, the answer is
   written into the session's results (an absent results column counts as
   empty) and the selection is broadcast.
   */
  function SelectAnswerCorrected(b: Backend, clientId: string, testId: string, sectionId: string, taskId: string,
                                 questionId: string, answer: string): (h: Handled)
    requires OnlineTests.Unique(b.sessions)
    ensures h.next.tests == b.tests && h.next.codes == b.codes
    ensures SelectAnswerGuard(b, clientId, testId).Some? ==>
      h == Handled(b, ClientError(SelectAnswerGuard(b, clientId, testId).value))
    ensures SelectAnswerGuard(b, clientId, testId).None? ==>
      var s := OnlineTests.ByTestId(b.sessions, testId).value;
      var s' := OnlineTests.ByTestId(h.next.sessions, testId);
      && h.outcome == AnswerSelected(clientId, sectionId, taskId, questionId, answer)
      && s'.Some?
      && s'.value == s.(results := s'.value.results)
      && s'.value.results.Some?
      && s'.value.results.value
         == WriteAnswer(s.results.GetOr(map[]), clientId, sectionId, taskId, questionId, answer)
  {
    match SelectAnswerGuard(b, clientId, testId)
    case Some(message) => Handled(b, ClientError(message))
    case None =>
      var s := OnlineTests.ByTestId(b.sessions, testId).value;
      OnlineTests.FoundById(b.sessions, testId);
      var results := WriteAnswer(s.results.GetOr(map[]), clientId, sectionId, taskId, questionId, answer);
      match OnlineTests.UpdateResults(b.sessions, s.id, results)
      case Failure(e) => Handled(b, ClientError("Failed to process answer selection"))
      case Success((sessions', t)) =>
        OnlineTests.ReplaceFinds(b.sessions, OnlineTests.IndexByTestId(b.sessions, testId).value, t);
        Handled(b.(sessions := sessions'), AnswerSelected(clientId, sectionId, taskId, questionId, answer))
  }

  // ----- properties across handlers -----

  /** A token that fails verification changes nothing in any handler that requires one. */
  lemma InvalidTokenChangesNothing(b: Backend, testId: string, code: int, durationInMinutes: int, now: int,
                                   rand: real, codeId: string, expiresAt: int, sessionId: string)
    requires 0.0 <= rand < 1.0 && OnlineTests.Unique(b.sessions)
    ensures StartTest(b, None, testId, now, rand, codeId, expiresAt, sessionId) == Handled(b, InvalidToken)
    ensures StartOnlineTest(b, None, code, durationInMinutes, now) == Handled(b, InvalidToken)
    ensures FinishOnlineTest(b, None, testId, now) == Handled(b, InvalidToken)
  {
  }

  /** Anyone with a valid token can finish a session, not only its owner. */
  lemma FinishByNonOwner(b: Backend, userId: string, testId: string, now: int)
    requires OnlineTests.Unique(b.sessions)
    requires OnlineTests.ByTestId(b.sessions, testId).Some?
    requires OnlineTests.ByTestId(b.sessions, testId).value.ownerId != userId
    ensures FinishOnlineTest(b, Some(userId), testId, now).outcome.OnlineTestFinished?
    ensures OnlineTests.ByTestId(FinishOnlineTest(b, Some(userId), testId, now).next.sessions, testId).value.finishedAt
         == Some(now)
  {
  }

  /** Joining twice from the same anonymous socket puts it on the roster twice. */
  lemma JoinTwiceDuplicates(b: Backend, clientId: string, code: int)
    requires TempCodes.GetTestTempCode(b.codes, code).Success?
    requires OnlineTests.ByTestId(b.sessions, TempCodes.GetTestTempCode(b.codes, code).value.testId).Some?
    ensures
      var before := OnlineTests.ByTestId(b.sessions, TempCodes.GetTestTempCode(b.codes, code).value.testId).value;
      var h1 := JoinOnlineTest(b, clientId, code, false, None);
      var h2 := JoinOnlineTest(h1.next, clientId, code, false, None);
      && h2.outcome.Joined?
      && h2.outcome.onlineUsers == before.participants + [PendingParticipant(clientId), PendingParticipant(clientId)]
  {
    var before := OnlineTests.ByTestId(b.sessions, TempCodes.GetTestTempCode(b.codes, code).value.testId).value;
    assert before.participants + [PendingParticipant(clientId)] + [PendingParticipant(clientId)]
        == before.participants + [PendingParticipant(clientId), PendingParticipant(clientId)];
  }

  /** An anonymous join followed by any socket's leave on the same code restores the roster. */
  lemma JoinThenLeave(b: Backend, joiner: string, leaver: string, code: int)
    requires OnlineTests.Unique(b.sessions)
    requires TempCodes.GetTestTempCode(b.codes, code).Success?
    requires OnlineTests.ByTestId(b.sessions, TempCodes.GetTestTempCode(b.codes, code).value.testId).Some?
    ensures
      var before := OnlineTests.ByTestId(b.sessions, TempCodes.GetTestTempCode(b.codes, code).value.testId).value;
      var h1 := JoinOnlineTest(b, joiner, code, false, None);
      && OnlineTests.Unique(h1.next.sessions)
      && LeaveOnlineTest(h1.next, leaver, code).outcome == Left(before.participants)
  {
    var tc := TempCodes.GetTestTempCode(b.codes, code).value;
    var before := OnlineTests.ByTestId(b.sessions, tc.testId).value;
    var after := before.participants + [PendingParticipant(joiner)];
    var p := PendingParticipant(joiner);
    OnlineTests.OperationsKeepUnique(b.sessions, "", tc.testId, p, 0);
    assert OnlineTests.SpliceLast(after) == before.participants;
  }

  /** Starting does not look at `startedAt`: the owner can restart a running session, moving its start. */
  lemma RestartMovesStart(b: Backend, userId: string, code: int, durationInMinutes: int, now: int)
    requires TempCodes.GetTestTempCode(b.codes, code).Success?
    requires
      var session := OnlineTests.ByTestId(b.sessions, TempCodes.GetTestTempCode(b.codes, code).value.testId);
      && session.Some? && session.value.ownerId == userId
      && session.value.startedAt.Some? && session.value.finishedAt.None?
      && OnlineTests.Start(b.sessions, session.value.id, now).Success?
    ensures StartOnlineTest(b, Some(userId), code, durationInMinutes, now).outcome.OnlineTestStarted?
  {
  }
}
