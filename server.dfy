/** The quiz server (server.js): the question bank and category list loaded
    at start-up, the active sessions, the highscore ledger, the game log
    files and the admin tokens, with one method per HTTP handler. A handler
    answers either with its JSON body or with a status code and an error
    message. The clock, the random draws, the session id and the fresh admin
    token are supplied by the caller. */
module Server {
  import opened Wrappers
  import opened Js
  import opened QuestionsLoader
  import opened Shuffle
  import opened Scoring
  import opened Highscores
  import opened GameLog
  import opened AdminAuth
  import opened Sorting

  /** A handler's answer: status 200 with a body, or an error status with
      `{ error }`. An exception inside a handler is Express's 500. */
  datatype Reply<T> = Ok(body: T) | Fail(status: int, error: string)

  /** `Date.now()`, `new Date().toISOString()`, `getFullYear()` and
      `getMonth() + 1`, read once per request. */
  datatype Clock = Clock(ms: int, iso: string, year: int, month: int)

  const InvalidCategory := "Ung\U{00FC}ltige Kategorie"
  const SessionNotFound := "Quiz-Session nicht gefunden"
  const QuizOver := "Quiz bereits beendet"
  const InternalError := "Internal Server Error"
  const MissingParameters := "Fehlende Parameter"
  const UsernameTooLong := "Benutzername zu lang"
  const TokenMissingMessage := "Token fehlt"
  const TokenInvalidMessage := "Ung\U{00FC}ltiger Token"
  const InvalidMonth := "Ung\U{00FC}ltiges Monatsformat"

  /** `QUESTION_TIME_LIMIT` as sent to the client, in seconds. */
  const TimeLimitSeconds := 10
  /** A username may have at most this many characters. */
  const MaxUsernameLength := 20
  /** `process.env.ADMIN_PASSWORD || 'admin123'`. */
  const DefaultAdminPassword := "admin123"

  /** An entry of `GET /api/categories`. */
  datatype CategoryInfo = CategoryInfo(id: string, name: string, description: string, icon: string, order: int)

  /** The body of `POST /api/quiz/start`. */
  datatype Started = Started(sessionId: string, totalQuestions: nat, category: string, timeLimit: int)

  /** The body of `GET /api/quiz/:sessionId/question`: the shuffled question
      without `correct` and `originalCorrect`. */
  datatype QuestionView = QuestionView(
    id: int,
    text: string,
    answers: seq<string>,
    questionNumber: int,
    totalQuestions: int,
    timeLimit: int,
    startTime: int)

  /** The body of `POST /admin/login`. */
  datatype Login = LoggedIn(token: string) | WrongPassword(message: string)

  /** `categories.find(cat => cat.id === id)`, as the position of the
      first category with this id, or -1. */
  function FindCategory(cs: seq<Category>, id: string): (i: int)
    ensures -1 <= i < |cs|
    ensures i == -1 <==> forall k :: 0 <= k < |cs| ==> cs[k].id != id
    ensures 0 <= i ==> cs[i].id == id && forall k :: 0 <= k < i ==> cs[k].id != id
  {
    FindIndex(cs, (c: Category) => c.id == id)
  }

  /** `getCategoryDisplayName`: the display name of the first category with
      this id, or the id itself. */
  function DisplayName(cs: seq<Category>, id: string): (name: string)
    ensures (forall k :: 0 <= k < |cs| ==> cs[k].id != id) ==> name == id
    ensures forall k :: 0 <= k < |cs| && cs[k].id == id && (forall m :: 0 <= m < k ==> cs[m].id != id) ==>
      name == cs[k].displayName
  {
    var i := FindCategory(cs, id);
    if i == -1 then id else cs[i].displayName
  }

  function Info(c: Category): CategoryInfo {
    CategoryInfo(c.id, c.displayName, c.description, c.icon, c.order)
  }

  /** The question as the client sees it. */
  function View(q: ShuffledQuestion, number: int, total: int, startTime: int): QuestionView {
    QuestionView(q.id, q.text, q.answers, number, total, TimeLimitSeconds, startTime)
  }

  /** A category's stored list, `highscores.get(category) || []`. */
  function Ledger(h: map<string, seq<Entry>>, category: string): seq<Entry> {
    if category in h then h[category] else []
  }

  /** The game's length in whole seconds when the request names a live
      session, otherwise 0. */
  function GameDuration(sessions: map<string, Session>, sessionId: string, now: int): (d: int)
    ensures sessionId != "" && sessionId in sessions ==>
      2000 * d <= 2 * (now - sessions[sessionId].startTime) + 1000 < 2000 * (d + 1)
    ensures !(sessionId != "" && sessionId in sessions) ==> d == 0
  {
    if sessionId != "" && sessionId in sessions then RoundDiv(now - sessions[sessionId].startTime, 1000) else 0
  }

  /** The first k questions of the shuffled list come from the category. */
  lemma PrefixWithin<T>(s: seq<T>, k: nat)
    requires k <= |s|
    ensures multiset(s[..k]) <= multiset(s)
  {
    assert s == s[..k] + s[k..];
  }

  class QuizServer {
    /** `questions` as loaded: category id to its question list. */
    const bank: map<string, seq<Question>>
    /** `categories` as loaded, sorted by `order`. */
    const categories: seq<Category>
    const adminPassword: string

    /** `activeSessions`. */
    var sessions: map<string, Session>
    /** `highscores`. */
    var highscores: map<string, seq<Entry>>
    /** What `highscores.json` holds: the ledger as of the last save. */
    var persisted: map<string, seq<Entry>>
    /** The log directory. */
    const logs: LogDir
    /** `adminTokens`. */
    var adminTokens: set<string>

    /** A session as the handlers keep it: its invariant holds, its
        category is in the bank and its questions are drawn from it. */
    predicate SessionOk(s: Session) {
      && SessionInv(s)
      && s.category in bank
      && multiset(s.questions) <= multiset(bank[s.category])
    }

    ghost predicate Valid()
      reads this, logs
    {
      && adminPassword != ""
      && (forall i, j :: 0 <= i < j < |categories| ==> categories[i].order <= categories[j].order)
      && (forall id :: id in sessions ==> SessionOk(sessions[id]))
      && logs.Valid()
    }

    /** At most one entry per user in every category. */
    predicate LedgerUnique()
      reads this
    {
      forall c :: c in highscores ==> UniqueUsers(highscores[c])
    }

    /** Start-up: load the question bank from the listing of the questions
        directory, take the ledger from `highscores.json` (empty when the
        file is missing or unreadable) and the log directory as earlier runs
        wrote it. */
    constructor (listing: seq<DirEntry>, stored: map<string, seq<Entry>>, previous: map<string, seq<Game>>, envPassword: string)
      ensures bank == Bank(JsonFiles(listing)) && categories == SortBy(Categories(JsonFiles(listing)), OrderBefore)
      ensures adminPassword == if envPassword == "" then DefaultAdminPassword else envPassword
      ensures sessions == map[] && highscores == stored && persisted == stored && adminTokens == {}
      ensures fresh(logs) && logs.games == previous && logs.files == map name | name in previous :: FileOf(previous[name])
      ensures Valid()
    {
      var q, c := LoadQuestions(listing);
      LoadedCategoriesOrdered(listing);
      bank := q;
      categories := c;
      adminPassword := if envPassword == "" then DefaultAdminPassword else envPassword;
      sessions := map[];
      highscores := stored;
      persisted := stored;
      logs := new LogDir(previous);
      adminTokens := {};
    }

    /** `GET /api/categories`: every category in load order, which is by
        `order`. */
    function CategoryList(): (r: seq<CategoryInfo>)
      reads this, logs
      ensures |r| == |categories| && forall k :: 0 <= k < |r| ==> r[k] == Info(categories[k])
      ensures Valid() ==> forall i, j :: 0 <= i < j < |r| ==> r[i].order <= r[j].order
    {
      seq(|categories|, k requires 0 <= k < |categories| => Info(categories[k]))
    }

    /** `POST /api/quiz/start`: an unknown category is refused and no
        session is made; otherwise the category's questions are shuffled,
        the first twelve kept, and a fresh session stored under the id. */
    method Start(category: string, sessionId: string, draws: seq<nat>, now: int) returns (r: Reply<Started>)
      requires Valid()
      requires category in bank ==> DrawsFit(draws, |bank[category]|)
      modifies this
      ensures Valid()
      ensures category !in bank ==> r == Fail(400, InvalidCategory) && unchanged(this)
      ensures category in bank ==>
        var qs := Shuffled(bank[category], draws)[..SessionLength(|bank[category]|)];
        && sessions == old(sessions)[sessionId := NewSession(category, qs, now)]
        && r == Ok(Started(sessionId, |qs|, DisplayName(categories, category), TimeLimitSeconds))
      ensures highscores == old(highscores) && persisted == old(persisted) && adminTokens == old(adminTokens)
    {
      if category !in bank {
        return Fail(400, InvalidCategory);
      }
      var all := ShuffleArray(bank[category], draws);
      var qs := all[..SessionLength(|all|)];
      PrefixWithin(all, |qs|);
      sessions := sessions[sessionId := NewSession(category, qs, now)];
      r := Ok(Started(sessionId, |qs|, DisplayName(categories, category), TimeLimitSeconds));
    }

    /** `GET /api/quiz/:sessionId/question`: serve the current question with
        freshly shuffled answers, and remember the shuffle and the time. */
    method NextQuestion(sessionId: string, draws: seq<nat>, now: int) returns (r: Reply<QuestionView>)
      requires Valid()
      requires sessionId in sessions && !Finished(sessions[sessionId]) ==>
        DrawsFit(draws, |sessions[sessionId].questions[sessions[sessionId].index].answers|)
      modifies this
      ensures Valid()
      ensures sessionId !in old(sessions) ==> r == Fail(404, SessionNotFound) && unchanged(this)
      ensures sessionId in old(sessions) && Finished(old(sessions)[sessionId]) ==>
        r == Fail(400, QuizOver) && unchanged(this)
      ensures sessionId in old(sessions) && !Finished(old(sessions)[sessionId]) ==>
        var s := old(sessions)[sessionId];
        var q := ShuffleAnswers(s.questions[s.index], draws);
        && sessions == old(sessions)[sessionId := Served(s, q, now)]
        && r == Ok(View(q, s.index + 1, |s.questions|, now))
      ensures highscores == old(highscores) && persisted == old(persisted) && adminTokens == old(adminTokens)
    {
      if sessionId !in sessions {
        return Fail(404, SessionNotFound);
      }
      var s := sessions[sessionId];
      if s.index >= |s.questions| {
        return Fail(400, QuizOver);
      }
      var q := ShuffleAnswers(s.questions[s.index], draws);
      ServedKeepsInv(s, q, now);
      sessions := sessions[sessionId := Served(s, q, now)];
      r := Ok(View(q, s.index + 1, |s.questions|, now));
    }

    /** `POST /api/quiz/:sessionId/answer`: grade the answer against the
        stored shuffle and timer and advance. Before any question was served
        there is no shuffle to read and the handler fails without a change. */
    method Answer(sessionId: string, answerIndex: int, now: int) returns (r: Reply<Verdict>)
      requires Valid()
      modifies this
      ensures Valid()
      ensures sessionId !in old(sessions) ==> r == Fail(404, SessionNotFound) && unchanged(this)
      ensures sessionId in old(sessions) && Finished(old(sessions)[sessionId]) ==>
        r == Fail(400, QuizOver) && unchanged(this)
      ensures sessionId in old(sessions) && !Finished(old(sessions)[sessionId]) ==>
        var s := old(sessions)[sessionId];
        if s.shuffled.None? then r == Fail(500, InternalError) && unchanged(this)
        else
          var after := Answered(s, answerIndex, now);
          && sessions == old(sessions)[sessionId := after]
          && r == Ok(Report(after, s.shuffled.value.correct))
      ensures highscores == old(highscores) && persisted == old(persisted) && adminTokens == old(adminTokens)
    {
      if sessionId !in sessions {
        return Fail(404, SessionNotFound);
      }
      var s := sessions[sessionId];
      if s.index >= |s.questions| {
        return Fail(400, QuizOver);
      }
      if s.shuffled.None? {
        return Fail(500, InternalError);
      }
      var after := Answered(s, answerIndex, now);
      AnsweredKeepsInv(s, answerIndex, now);
      sessions := sessions[sessionId := after];
      r := Ok(Report(after, s.shuffled.value.correct));
    }

    /** `POST /api/quiz/:sessionId/timeout`: charge the full ten seconds,
        record a timeout and advance. The record is written before the
        missing shuffle is read, so a timeout before any question was served
        changes the session and then fails. */
    method Timeout(sessionId: string, now: int) returns (r: Reply<Verdict>)
      requires Valid()
      modifies this
      ensures Valid()
      ensures sessionId !in old(sessions) ==> r == Fail(404, SessionNotFound) && unchanged(this)
      ensures sessionId in old(sessions) && Finished(old(sessions)[sessionId]) ==>
        r == Fail(400, QuizOver) && unchanged(this)
      ensures sessionId in old(sessions) && !Finished(old(sessions)[sessionId]) ==>
        var s := old(sessions)[sessionId];
        var after := TimedOut(s, now);
        && sessions == old(sessions)[sessionId := after]
        && r == if s.shuffled.None? then Fail(500, InternalError) else Ok(Report(after, s.shuffled.value.correct))
      ensures highscores == old(highscores) && persisted == old(persisted) && adminTokens == old(adminTokens)
    {
      if sessionId !in sessions {
        return Fail(404, SessionNotFound);
      }
      var s := sessions[sessionId];
      if s.index >= |s.questions| {
        return Fail(400, QuizOver);
      }
      var after := TimedOut(s, now);
      TimedOutKeepsInv(s, now);
      sessions := sessions[sessionId := after];
      if s.shuffled.None? {
        return Fail(500, InternalError);
      }
      r := Ok(Report(after, s.shuffled.value.correct));
    }

    /** `GET /api/quiz/:sessionId/result`. */
    function Result(sessionId: string): (r: Reply<Summary>)
      reads this
      ensures sessionId !in sessions <==> r == Fail(404, SessionNotFound)
      ensures sessionId in sessions ==>
        r == Ok(Summarize(sessions[sessionId], DisplayName(categories, sessions[sessionId].category)))
    {
      if sessionId !in sessions then Fail(404, SessionNotFound)
      else Ok(Summarize(sessions[sessionId], DisplayName(categories, sessions[sessionId].category)))
    }

    /** `DELETE /api/quiz/:sessionId`. */
    method Delete(sessionId: string) returns (r: Reply<string>)
      requires Valid()
      modifies this
      ensures Valid()
      ensures sessionId in old(sessions) ==> r == Ok("Session beendet") && sessions == old(sessions) - {sessionId}
      ensures sessionId !in old(sessions) ==> r == Fail(404, "Session nicht gefunden") && unchanged(this)
      ensures highscores == old(highscores) && persisted == old(persisted) && adminTokens == old(adminTokens)
    {
      if sessionId in sessions {
        sessions := sessions - {sessionId};
        r := Ok("Session beendet");
      } else {
        r := Fail(404, "Session nicht gefunden");
      }
    }

    /** `GET /api/highscores/:category`: the stored list is sorted in place
        (so it stays sorted), and its first ten are sent. */
    method GetHighscores(category: string) returns (r: Reply<seq<Entry>>)
      requires Valid()
      modifies this
      ensures Valid()
      ensures category !in bank ==> r == Fail(400, InvalidCategory) && unchanged(this)
      ensures category in bank ==>
        && r == Ok(TopTen(Ledger(old(highscores), category)))
        && highscores == if category in old(highscores)
                          then old(highscores)[category := Ranked(old(highscores)[category])]
                          else old(highscores)
      ensures old(LedgerUnique()) ==> LedgerUnique()
      ensures sessions == old(sessions) && persisted == old(persisted) && adminTokens == old(adminTokens)
    {
      if category !in bank {
        return Fail(400, InvalidCategory);
      }
      var stored := Ledger(highscores, category);
      if category in highscores {
        if LedgerUnique() {
          RankedKeepsUnique(stored);
        }
        highscores := highscores[category := Ranked(stored)];
      }
      r := Ok(TopTen(stored));
    }

    /** `POST /api/highscores`: after the checks in order (a missing field,
        an unknown category, a username over twenty characters), log the game
        and record the score; the ledger is saved when it changed. */
    method PostHighscore(username: string, category: string, score: Option<int>, totalQuestions: Option<int>,
                         sessionId: string, userAgent: string, clock: Clock) returns (r: Reply<bool>)
      requires Valid()
      modifies this, logs
      ensures Valid()
      ensures username == "" || category == "" || score.None? || totalQuestions.None? ==>
        r == Fail(400, MissingParameters) && unchanged(this, logs)
      ensures username != "" && category != "" && score.Some? && totalQuestions.Some? ==>
        && (category !in bank ==> r == Fail(400, InvalidCategory) && unchanged(this, logs))
        && (category in bank && |username| > MaxUsernameLength ==> r == Fail(400, UsernameTooLong) && unchanged(this, logs))
      ensures username != "" && category != "" && score.Some? && totalQuestions.Some? &&
              category in bank && |username| <= MaxUsernameLength ==>
        var game := Game(clock.iso, username, category, GameDuration(old(sessions), sessionId, clock.ms),
                         score.value, totalQuestions.value, userAgent);
        var name := LogFileName(clock.year, clock.month);
        var (entries, isNew) := Upsert(Ledger(old(highscores), category), username, score.value, totalQuestions.value, clock.ms);
        && logs.files == old(logs.files)[name := (if name in old(logs.files) then old(logs.files)[name] else "") + LogLine(game)]
        && logs.games == old(logs.games)[name := (if name in old(logs.files) then old(logs.games)[name] else []) + [game]]
        && highscores == old(highscores)[category := entries]
        && persisted == (if isNew then highscores else old(persisted))
        && r == Ok(isNew)
      ensures old(LedgerUnique()) ==> LedgerUnique()
      ensures sessions == old(sessions) && adminTokens == old(adminTokens)
    {
      if username == "" || category == "" || score.None? || totalQuestions.None? {
        return Fail(400, MissingParameters);
      }
      if category !in bank {
        return Fail(400, InvalidCategory);
      }
      if |username| > MaxUsernameLength {
        return Fail(400, UsernameTooLong);
      }
      var duration := GameDuration(sessions, sessionId, clock.ms);
      logs.Append(LogFileName(clock.year, clock.month), Game(clock.iso, username, category, duration, score.value, totalQuestions.value, userAgent));
      var isNew := Record(username, category, score.value, totalQuestions.value, clock.ms);
      r := Ok(isNew);
    }

    /** The ledger part of `POST /api/highscores`: upsert the score into the
        category's list, and save the ledger when it changed. */
    method Record(username: string, category: string, score: int, totalQuestions: int, now: int) returns (isNew: bool)
      requires Valid()
      modifies this
      ensures Valid()
      ensures var (entries, changed) := Upsert(Ledger(old(highscores), category), username, score, totalQuestions, now);
        && highscores == old(highscores)[category := entries]
        && persisted == (if changed then highscores else old(persisted))
        && isNew == changed
      ensures old(LedgerUnique()) ==> LedgerUnique()
      ensures sessions == old(sessions) && adminTokens == old(adminTokens)
    {
      var stored := Ledger(highscores, category);
      var (entries, changed) := Upsert(stored, username, score, totalQuestions, now);
      if LedgerUnique() {
        UpsertKeepsUnique(stored, username, score, totalQuestions, now);
      }
      highscores := highscores[category := entries];
      if changed {
        persisted := highscores;
      }
      isNew := changed;
    }

    /** `POST /api/game-log`: log any finished game, a guest's too. */
    method PostGameLog(username: string, category: string, score: Option<int>, totalQuestions: Option<int>,
                       sessionId: string, userAgent: string, clock: Clock) returns (r: Reply<string>)
      requires Valid()
      modifies logs
      ensures Valid()
      ensures category == "" || score.None? || totalQuestions.None? ==>
        r == Fail(400, MissingParameters) && unchanged(logs)
      ensures category != "" && score.Some? && totalQuestions.Some? && category !in bank ==>
        r == Fail(400, InvalidCategory) && unchanged(logs)
      ensures category != "" && score.Some? && totalQuestions.Some? && category in bank ==>
        var game := Game(clock.iso, username, category, GameDuration(old(sessions), sessionId, clock.ms),
                         score.value, totalQuestions.value, userAgent);
        var name := LogFileName(clock.year, clock.month);
        && logs.files == old(logs.files)[name := (if name in old(logs.files) then old(logs.files)[name] else "") + LogLine(game)]
        && logs.games == old(logs.games)[name := (if name in old(logs.files) then old(logs.games)[name] else []) + [game]]
        && r == Ok("Spiel geloggt")
    {
      if category == "" || score.None? || totalQuestions.None? {
        return Fail(400, MissingParameters);
      }
      if category !in bank {
        return Fail(400, InvalidCategory);
      }
      var duration := GameDuration(sessions, sessionId, clock.ms);
      logs.Append(LogFileName(clock.year, clock.month), Game(clock.iso, username, category, duration, score.value, totalQuestions.value, userAgent));
      r := Ok("Spiel geloggt");
    }

    /** `POST /admin/login`: the right password registers the fresh token. */
    method AdminLogin(password: string, freshToken: string) returns (r: Login)
      requires Valid()
      modifies this
      ensures Valid()
      ensures password == adminPassword ==>
        && r == LoggedIn(freshToken) && adminTokens == old(adminTokens) + {freshToken}
        && AdminVerify(BearerPrefix + freshToken) == Ok(true)
      ensures password != adminPassword ==> r == WrongPassword("Falsches Passwort") && unchanged(this)
      ensures sessions == old(sessions) && highscores == old(highscores) && persisted == old(persisted)
    {
      if password == adminPassword {
        adminTokens := adminTokens + {freshToken};
        r := LoggedIn(freshToken);
      } else {
        r := WrongPassword("Falsches Passwort");
      }
    }

    /** The message of `verifyAdminToken` when it stops the request. */
    function DeniedMessage(a: Auth): string {
      if a == TokenMissing then TokenMissingMessage else TokenInvalidMessage
    }

    /** `GET /admin/verify`. */
    function AdminVerify(header: string): (r: Reply<bool>)
      reads this
      ensures r == Ok(true) <==> exists t :: t in adminTokens && header == BearerPrefix + t
      ensures Check(adminTokens, header) == TokenMissing ==> r == Fail(401, TokenMissingMessage)
      ensures Check(adminTokens, header) == TokenInvalid ==> r == Fail(401, TokenInvalidMessage)
    {
      var a := Check(adminTokens, header);
      if a == Authorized then Ok(true) else Fail(401, DeniedMessage(a))
    }

    /** `GET /admin/logs/:month`: for an admin and a month of the form
        `YYYY-MM`, the records of that month's file; none when there is no
        such file. */
    function AdminLogs(header: string, month: string): (r: Reply<seq<LogRecord>>)
      reads this, logs
      ensures Check(adminTokens, header) == TokenMissing ==> r == Fail(401, TokenMissingMessage)
      ensures Check(adminTokens, header) == TokenInvalid ==> r == Fail(401, TokenInvalidMessage)
      ensures Check(adminTokens, header) == Authorized && !IsMonthFormat(month) ==> r == Fail(400, InvalidMonth)
      ensures Check(adminTokens, header) == Authorized && IsMonthFormat(month) ==>
        var name := "game-" + month + ".log";
        r == Ok(if name in logs.files then ReadLog(logs.files[name]) else [])
    {
      var a := Check(adminTokens, header);
      if a != Authorized then Fail(401, DeniedMessage(a))
      else if !IsMonthFormat(month) then Fail(400, InvalidMonth)
      else
        var name := "game-" + month + ".log";
        Ok(if name in logs.files then ReadLog(logs.files[name]) else [])
    }
  }

  /** An admin reading a month's log gets back every game logged in that
      month, in order, as long as the logged usernames, categories and
      timestamps hold no tab or newline. */
  lemma AdminReadsLoggedGames(srv: QuizServer, header: string, year: int, month: int)
    requires srv.Valid()
    requires Check(srv.adminTokens, header) == Authorized
    requires 1000 <= year <= 9999 && 1 <= month <= 12
    requires var name := LogFileName(year, month);
      name in srv.logs.files ==> forall k :: 0 <= k < |srv.logs.games[name]| ==> Loggable(srv.logs.games[name][k])
    ensures var name := LogFileName(year, month);
      srv.AdminLogs(header, MonthKey(year, month)) ==
        Ok(if name in srv.logs.files then ExpectedAll(srv.logs.games[name]) else [])
  {
    MonthKeyValid(year, month);
    var name := LogFileName(year, month);
    if name in srv.logs.files {
      ReadLogFile(srv.logs.games[name]);
    }
  }
}
