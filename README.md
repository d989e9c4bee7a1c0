# Quiz server — a verified model

This project models the server side of a timed multiple-choice quiz. The
server (`server.js`) keeps the following state:

- a question bank per category, assembled at start-up by `questions-loader.js`;
- the active quiz sessions;
- a highscore ledger, with at most one entry per user per category;
- a log file per month, one line per finished game;
- a set of admin tokens.

A player moves through the quiz in this order:

1. starts a session, which takes up to twelve shuffled questions of a category;
2. fetches each question, whose answers are shuffled afresh;
3. answers it or times out, which adds points and a time bonus;
4. reads the result;
5. optionally posts a highscore.

Every HTTP handler is a method of the class `Server.QuizServer`. It returns
either its JSON body or an error status with a message. The clock, the
random draws, the session id and the fresh admin token are parameters
supplied by the caller.

Modules, one per file:

| module | file | models |
|---|---|---|
| `Wrappers` | wrappers.dfy | `Option`, for JavaScript's `undefined`/`null`/`NaN` |
| `Js` | js.dfy | the JavaScript built-ins the core relies on: `indexOf`, `findIndex`, `includes`, `startsWith`, `trim`, `split`/`join` on one character, `String(n)`, `parseInt`, `Math.round` of a ratio, `padStart(2, '0')`, and string `<` |
| `Sorting` | sorting.dfy | `Array.prototype.sort`: a stable sort by a comparator; any stable sort with a strict weak order gives this result |
| `QuestionsLoader` | questions_loader.dfy | `loadQuestions` over a directory listing with parsed contents, the fallback name and icon tables, `addQuestionToCategory` |
| `Shuffle` | shuffle.dfy | `shuffleArray` (an in-place Fisher–Yates pass on an array copy) and `shuffleAnswers` |
| `Scoring` | scoring.dfy | session records, the grading of an answer or a timeout, the session invariant, the result arithmetic |
| `Highscores` | highscores.dfy | the ledger upsert, the ranking comparator, the top ten |
| `GameLog` | game_log.dfy | `logGame`'s line format, monthly file names, the month check, the admin log parser, and the log directory as a class |
| `AdminAuth` | admin_auth.dfy | `verifyAdminToken`'s bearer header check |
| `Server` | server.dfy | the store object, with one method per handler that changes state and one function per handler that only reads |

## Conventions of the model

- **Time.** Times are integer milliseconds. With the ten-second limit, every
  comparison the source makes in floating-point seconds is the same
  comparison in milliseconds:
  - the bonus is 3 when less than 3000 ms have passed, 2 when less than
    6000 ms, and 1 when less than 10000 ms;
  - an answer is in time when at most 10000 ms have passed.
- **`Math.round`.** `Math.round(p / q)` is `Js.RoundDiv`, the exact ratio
  rounded half up. The source rounds a double, which can differ at a ratio
  that is exactly half (see Scoring.Summarize under "## Left out").
- **Totals.** The result's `totalTimeSpent` is in whole seconds, and
  `avgTimePerQuestion` is an integer count of tenths of a second.
- **Randomness.** `Math.random()` is a sequence of draws. The step of the
  Fisher–Yates pass that handles position `i` reads one draw, and that draw
  must lie in `0..i` (`Shuffle.DrawsFit`).
- **Absent strings.** A missing or falsy string in a request is the empty
  string. This covers the username, the category, the session id, the user
  agent and the authorization header. A missing `score` or `totalQuestions`
  is `None`.
- **Ledger persistence.** `highscores.json` is the field `persisted`. It
  takes the ledger's value whenever `isNewHighscore` is true.
- **The log directory.** It is a class `GameLog.LogDir` with the file
  contents, plus a ghost map from each file to the games whose lines it
  holds. Its invariant says each file is exactly those games' lines.
- **Sessions.** Sessions are values in the `sessions` map. The source
  mutates the session objects in place, but only the map refers to them, so
  replacing a map entry is the same update.

## Behaviours stated as the code has them

Where the code and the design description differ, the model follows the
code:

- **Answer before any question.** `answer` before any question was fetched
  reads `null.correct` at server.js:261 and throws, and Express answers 500.
  Nothing has changed by then, so `Server.QuizServer.Answer` returns
  `Fail(500, …)` and leaves the state as it was.
- **Timeout before any question.** `timeout` before any question was fetched
  first charges ten seconds, appends its record and advances the index
  (server.js:338-352), and only then throws at server.js:356.
  `Server.QuizServer.Timeout` stores the advanced session and returns
  `Fail(500, …)`. The elapsed time it records is `now - 0`, as
  `Date.now() - null` gives.
- **Stale snapshot.** The stored shuffle and its start time are not cleared
  after a step. A second answer without a new fetch is judged against the
  previous question's shuffle and timer, and `Scoring.Answered` says so.
- **No double-submission guard.** The server keeps none beyond the
  `index >= length` check. An answer and a timeout for the same question
  both advance the index, and each is refused with 400 only once the index
  reaches the question count.
- **Start's status.** A successful `start` answers with status 200, not 201.
- **Highscores are sorted in place.** `GET /api/highscores/:category` sorts
  the stored array and keeps it sorted (server.js:424-431).
  `Server.QuizServer.GetHighscores` stores `Ranked` back.
- **Empty quiz.** `result` on a session with no questions divides by zero,
  and the ratios become `NaN`, sent as `null`. They are `None` in
  `Scoring.Summarize`.
- **Duplicate answer texts.** The correct answer is found again by its text,
  so when two answers share a text the new index goes to the first one
  (`Shuffle.DuplicateAnswerResolvesToFirst`).

## Model

| member | source | states |
|---|---|---|
| Shuffle.DrawAt | server.js:123 | the draw for position i lies in 0..i |
| Shuffle.ShuffleArray | server.js:120-127 | the in-place swap loop on an array copy computes `Shuffled(input, draws)`, a sequence of the same length and the same multiset as the input; the input is a value and stays unchanged |
| Shuffle.ShuffledIsPermutation | server.js:120-127 | the backward pass is a permutation of its input |
| Shuffle.PassFromKeepsTop | server.js:122-125 | once position i is handled, later steps never touch it |
| Shuffle.ShuffledLast | server.js:122-124 | the last position ends up holding the element the first draw chose |
| Shuffle.Range | server.js:136 | the index list is 0..n-1 |
| Shuffle.Pick | server.js:140 | each position reads the answer at its shuffled index |
| Shuffle.ShuffledAnswersAreShuffle | server.js:136-140 | laying the answers out by the shuffled indices equals shuffling the answers with the same draws |
| Shuffle.MapPassFrom | server.js:136-140 | mapping commutes with every step of the pass, because the pass moves elements without reading them |
| Shuffle.ShuffleAnswers | server.js:130-151 | id and text are kept; `originalCorrect` is the old index; the answers are a permutation (the shuffle) of the old ones; for an index in range, the new `correct` holds the correct text and is the first position holding it; an index out of range gives -1 |
| Shuffle.DuplicateAnswerResolvesToFirst | server.js:143 | with two equal answer texts and the second one correct, the new index is 0 |
| Scoring.SessionLength | server.js:180-181 | a session takes min(12, n) questions |
| Scoring.NewSession | server.js:184-195 | a fresh session is at index 0 with score 0, no answers, no snapshot and no start time, and satisfies the session invariant |
| Scoring.TimeBonus | server.js:266-282 | the bonus from the time left is 3 under 3 s elapsed, 2 under 6 s, 1 under 10 s, and 0 otherwise |
| Scoring.GradeAnswer | server.js:261-286 | correct iff the index equals the shuffled `correct`; in time iff at most 10 s elapsed; only an answer that is correct and in time scores, and it scores 1 point plus the bonus `TimeBonus(elapsed)`, which is 0 only at exactly 10 s |
| Scoring.Served | server.js:226-229 | serving stores the snapshot and the start time and changes nothing else |
| Scoring.ElapsedSinceServed | server.js:265 | once a question is served, the elapsed time is the time since it was served |
| Scoring.Answered | server.js:259-302 | exactly one record is appended and the index grows by 1; the record's bonus is `TimeBonus(elapsed)` and its points are 1 plus that bonus when the answer is correct and in time, and both are 0 otherwise; score and bonus grow by the record's points and bonus; total time grows by min(elapsed, 10 s); the snapshot and timer are kept |
| Scoring.TimedOut | server.js:331-352 | one record with index -1, not correct, 0 points and timeout set is appended; the total time grows by exactly 10 s; score and bonus are unchanged; the index grows by 1 |
| Scoring.CountCorrect | server.js:377 | the number of correct records is at most the number of records |
| Scoring.ServedKeepsInv | server.js:226-229 | serving keeps the session invariant |
| Scoring.AnsweredKeepsInv | server.js:259-302 | an answer keeps the session invariant: one record per question asked, score and bonus equal to the sums over the records, at most 10 s charged per question |
| Scoring.TimedOutKeepsInv | server.js:331-352 | a timeout keeps the session invariant |
| Scoring.SumsBounded | server.js:273-299 | over valid records, 0 <= bonus total <= points total <= 4 per record |
| Scoring.ScoreBounded | server.js:380 | under the invariant, 0 <= timeBonus <= score <= 4 · currentQuestionIndex |
| Scoring.ScoringRecordsAreCorrect | server.js:273-299 | only correct records earn points, so the score is at most 4 · correctAnswers |
| Scoring.LastStepFinishes | server.js:302-363 | after a timeout, or after an answer with any index, `isLastQuestion` holds iff the step was on the last question |
| Scoring.Report | server.js:304-313 | the response reports the new record, the new score, the shuffled correct index, and `isLastQuestion` iff the index reached the question count |
| Scoring.Summarize | server.js:376-394 | `totalPossibleScore` is 4N; `correctAnswers` counts correct records; both percentages and the average are the half-up roundings of their ratios, and are None iff N is 0; the total time is rounded to seconds |
| Scoring.PercentagesInRange | server.js:378-381 | under the session invariant, both percentages lie in 0..100 |
| Highscores.FindUser | server.js:471 | the first index with this username, or -1 iff there is none |
| Highscores.Upsert | server.js:471-496 | the list grows by one only for an unknown user; when the flag is set the user's position (the end, for a new user) holds the new entry; when it is not, the list is unchanged and the stored score is at least the posted one |
| Highscores.UpsertEffect | server.js:471-496 | an unknown user's entry is appended with `isNewHighscore` true; for a known user only the first entry with the name is compared, and it is replaced iff the score is strictly higher, otherwise the ledger is unchanged and the flag is false; every other entry, a later entry of the same user included, is kept |
| Highscores.UpsertKeepsBest | server.js:473-496 | the flag is true iff the ledger changed; the length grows only for a new user; the user's entry afterwards scores at least the posted score |
| Highscores.UpsertKeepsUnique | server.js:464-496 | an upsert keeps at most one entry per user |
| Highscores.UpsertKeepsUsers | server.js:475-496 | every user present before is present after |
| Highscores.RankBefore | server.js:425-430 | an entry ranks before another only with a score at least as high, and always with a strictly higher one |
| Highscores.RankBeforeOrder | server.js:425-430 | the comparator (score descending, then timestamp ascending) is a strict weak order |
| Highscores.Ranked | server.js:424-430 | the sorted list is a permutation of the stored one |
| Highscores.TopTen | server.js:431 | the top list has min(10, n) entries |
| Highscores.RankedSorted | server.js:424-430 | the ranking is by score descending, then by timestamp ascending |
| Highscores.RankedSortedBy | server.js:424-430 | no ranked entry comes before one that ranks before it |
| Highscores.TopTenSorted | server.js:424-431 | the top ten are in ranking order |
| Highscores.PrefixBeatsRest | server.js:424-431 | nothing after a prefix of the ranking ranks before anything in it |
| Highscores.TopTenBest | server.js:424-431 | the top ten are sorted, come from the ledger, and no entry left out ranks before one kept |
| Highscores.RankedKeepsUnique | server.js:424-430 | storing the ranking back keeps one entry per user |
| GameLog.Classify | server.js:85-94 | the device is Unknown iff the user agent is missing |
| GameLog.ClassifyByMarkers | server.js:85-94 | Mobile iff the user agent is given and a phone marker (Mobile, Android, iPhone) occurs in it; Tablet iff it is given, no phone marker occurs and a tablet marker (Tablet, iPad) does; Desktop iff it is given and no marker occurs |
| GameLog.DeviceName | server.js:85-94 | device names hold no tab or newline and end in a visible character |
| GameLog.PhoneMarkerWins | server.js:86-88 | any user agent containing Mobile, Android or iPhone is Mobile, even with a tablet marker |
| GameLog.TabletMarker | server.js:89-90 | a tablet marker without a phone marker gives Tablet |
| GameLog.CleanUserAgentSlice | server.js:97 | a given user agent is logged as the slice of its copy with tabs, newlines and carriage returns made spaces, with only white space cut from either end |
| GameLog.CleanUserAgentKeepsClean | server.js:97 | a user agent without tab, newline or carriage return and without white space at its ends is logged unchanged |
| GameLog.NameOrGuest | server.js:100 | an empty username is logged as `Gast`, any other as itself |
| GameLog.CleanUserAgent | server.js:97 | the cleaned user agent holds no tab, newline or carriage return and is trimmed; a missing one is `Unknown` |
| GameLog.Fields | server.js:99-100 | a log line has eight fields |
| GameLog.MonthKeyValid | server.js:72-78 | for a four-digit year and a month 1..12, the month key the file name is built from passes the reader's `^\d{4}-\d{2}$` check (server.js:615) |
| GameLog.ParseLogLine | server.js:629-641 | the parser gives back every field `logGame` wrote, when timestamp, username and category hold no tab or newline and the timestamp is non-empty and starts with a visible character |
| GameLog.ParseLine | server.js:629-641 | the timestamp field holds no tab; a line without a tab is all timestamp, with every other field missing and an empty user agent |
| GameLog.ParseShortLine | server.js:629-641 | a line cut before an empty user agent parses to the same record |
| GameLog.FileOfAppend | server.js:100-106 | appending a game's line to the file of earlier games gives the file of all of them |
| GameLog.ReadLogFile | server.js:626-641 | reading a month's file gives back one record per logged game, in append order, when every game's timestamp, username and category hold no tab or newline and every timestamp is non-empty and starts with a visible character |
| GameLog.ReadLog | server.js:626-627 | content that trims to nothing reads as no records |
| GameLog.ReadEmptyLog | server.js:626-627 | an empty file reads as no records |
| GameLog.ParseLinesConcat | server.js:627-629 | parsing lines distributes over concatenation |
| GameLog.LogDir.constructor | server.js:25-30 | the directory holds the files earlier runs wrote, and each holds exactly its games' lines (a file edited by hand is not represented) |
| GameLog.LogDir.Append | server.js:103-106 | `appendFileSync` puts the game's line at the end of the month's file, creating it when missing; the file still holds exactly its games' lines |
| AdminAuth.BearerToken | server.js:556-561 | a token is read iff the header starts with `Bearer `, and it is the rest of the header |
| AdminAuth.BearerRoundTrip | server.js:557-561 | the token a client sends after `Bearer ` is the token read |
| AdminAuth.BearerTokenUnique | server.js:561 | a header names at most one token |
| AdminAuth.Check | server.js:555-567 | the header is refused as missing iff it lacks `Bearer `, and let through iff it carries a registered token |
| QuestionsLoader.DisplayNameFallback | questions-loader.js:79-90 | a known id gets the table's name; the id itself is returned iff it is not in the table |
| QuestionsLoader.IconFallback | questions-loader.js:95-106 | a known id gets the table's icon; the books emoji iff the id is unknown |
| QuestionsLoader.LegacyIdOfPrefixedName | questions-loader.js:48 | `<digits>_<id>.json` gives the id without the prefix |
| QuestionsLoader.LegacyIdOfPlainName | questions-loader.js:48 | `<id>.json` gives the id when the id does not start with a digit |
| QuestionsLoader.Contribution | questions-loader.js:30-66 | a file contributes a category iff it has the new or the legacy shape; the record names the file and the question list is the file's |
| QuestionsLoader.NewFormatDefaults | questions-loader.js:31-43 | id and name are the metadata's; a missing description is empty; a missing or empty icon is the books emoji; a missing or zero order becomes 999, and the order is never 0 |
| QuestionsLoader.LegacyDefaults | questions-loader.js:46-58 | a legacy category is named after the file, has order 999 and the description `Fragen zur Kategorie <id>`, and takes its name and icon from the fallback tables |
| QuestionsLoader.JsonOnly | questions-loader.js:19-20 | exactly the entries ending in `.json` are kept, each as often as it is listed |
| QuestionsLoader.JsonFilesSorted | questions-loader.js:19-21 | the visited files are the `.json` files in name order, each visited as often as it is listed (code-point order, see "## Left out") |
| QuestionsLoader.LoadQuestions | questions-loader.js:8-74 | the loop builds the question map and the category list from the visited files, and the categories are then sorted by `order` |
| QuestionsLoader.CategoriesFromFiles | questions-loader.js:23-67 | every category record comes from a visited file |
| QuestionsLoader.CategoriesComplete | questions-loader.js:23-63 | every usable file's record is loaded, and there is exactly one record per usable file |
| QuestionsLoader.BankLastWins | questions-loader.js:23-58 | a usable file's questions are the list stored under its id, unless a later usable file has the same id |
| QuestionsLoader.CategoriesInFileOrder | questions-loader.js:19-67 | visiting the files in name order gives records in file-name order |
| QuestionsLoader.LoadedCategoriesOrdered | questions-loader.js:19-70 | the loaded categories are in non-decreasing order; those with equal order keep the file-name order; the list is a permutation of the records built |
| QuestionsLoader.BankMatchesCategories | questions-loader.js:31-58 | the ids with a question list are exactly the ids of the category records |
| QuestionsLoader.UnusableFileSkipped | questions-loader.js:61-66 | a file of neither shape, or one that fails to parse, adds nothing, and the files after it are still loaded |
| QuestionsLoader.MaxId | questions-loader.js:147 | the largest id bounds every id and is one of them |
| QuestionsLoader.NextId | questions-loader.js:147-148 | the new id exceeds every existing id, is 1 for an empty list, and is otherwise one more than an existing id |
| QuestionsLoader.AddQuestionToCategory | questions-loader.js:134-162 | it succeeds iff the file is missing or holds a JSON array; a file that cannot be parsed, or whose JSON is an object, string, number or null, fails; the question gets the next id and is appended last, existing entries unchanged; failure writes nothing |
| Sorting.SortBy | questions-loader.js:70 | the sorted list is a permutation of the input |
| Sorting.SortBySorted | questions-loader.js:70 | with a strict weak order, the sorted list is in comparator order |
| Sorting.SortByStable | questions-loader.js:70 | elements the comparator does not separate keep their input order |
| Js.IndexOf | server.js:143 | the first index holding the value, or -1 iff it is absent |
| Js.FindIndex | server.js:471 | the first index whose element satisfies the test, or -1 iff none does |
| Js.Split | server.js:627 | the pieces hold no separator and join back to the string |
| Js.SplitJoin | server.js:630-639 | splitting undoes joining when no piece holds the separator |
| Js.IncludesOccurs | server.js:87 | `includes` holds iff the piece occurs at some index |
| Js.TrimSlice | server.js:97 | the trim is the slice between the leading and the trailing white space |
| Js.TrimBlank | server.js:627 | a line trims to nothing iff it is all white space |
| Js.TrimIdempotent | server.js:97 | trimming twice is trimming once |
| Js.ParseIntNumberToString | server.js:636-637 | `parseInt` reads back every integer written by the model's plain numeral (the `String(n)` of integers below 10^21) |
| Js.ParseIntNoDigit | server.js:636-637 | a field with no decimal digit at all parses to `NaN` |
| Js.Trim | server.js:97 | the result is no longer than the input and neither starts nor ends with white space |
| Js.RoundDiv | server.js:378 | the result rounds the ratio half up |
| Js.RoundDivPercent | server.js:378 | a rounded percentage of a part of a whole lies in 0..100 |
| Js.PadStart2 | server.js:75 | the numeral is padded on the left with zeros to two characters |
| Server.FindCategory | server.js:537 | the first category with the id, or -1 iff none has it |
| Server.DisplayName | server.js:536-539 | the first matching category's display name, or the id itself when none matches |
| Server.GameDuration | server.js:452-457 | for a live session id, the seconds since its start rounded half up; otherwise 0 |
| Server.PrefixWithin | server.js:180-181 | the first twelve shuffled questions come from the category |
| Server.QuizServer.constructor | server.js:12-30 | the bank and the sorted categories are what the loader returns; the admin password is the environment's, or `admin123` when it is unset or empty; the ledger and the saved copy are the stored file's; no sessions and no tokens |
| Server.QuizServer.CategoryList | server.js:156-166 | one entry per category in load order, which is non-decreasing `order` |
| Server.QuizServer.Start | server.js:169-203 | an unknown category gives 400 and no change; otherwise a fresh session over the first min(12, n) shuffled questions is stored under the id |
| Server.QuizServer.NextQuestion | server.js:206-241 | 404 for an unknown session and 400 once finished, changing nothing; otherwise the shuffled snapshot and the time are stored, the index is kept, and the view has `questionNumber = index + 1` without `correct` or `originalCorrect` |
| Server.QuizServer.Answer | server.js:244-314 | 404 and 400 as for a question; without a snapshot 500 and no change; otherwise the session becomes `Answered` and the response is its report |
| Server.QuizServer.Timeout | server.js:317-365 | 404 and 400 as for a question; otherwise the session becomes `TimedOut`, then the response is its report, or 500 without a snapshot |
| Server.QuizServer.Result | server.js:368-396 | 404 iff the session is unknown; otherwise its summary under the category's display name; the state is only read |
| Server.QuizServer.Delete | server.js:399-408 | a known id is removed, with the other sessions kept; an unknown one gives 404 and no change |
| Server.QuizServer.GetHighscores | server.js:414-434 | 400 for an unknown category; otherwise the top ten, with the stored list replaced by its ranking; one entry per user is kept |
| Server.QuizServer.PostHighscore | server.js:437-507 | a missing field gives 400, then an unknown category gives 400, then a username over 20 characters gives 400, each with no change; otherwise the game is logged, the score upserted, the ledger saved iff it changed, and `isNewHighscore` returned |
| Server.QuizServer.Record | server.js:463-501 | the category's list becomes the upsert's result; the saved copy is updated iff the flag is true; one entry per user is kept |
| Server.QuizServer.PostGameLog | server.js:510-533 | a missing category, score or total gives 400, then an unknown category gives 400, with no change; otherwise the game, a guest's too, is appended to the month's log |
| Server.QuizServer.AdminLogin | server.js:570-588 | the right password registers the fresh token, which then verifies; a wrong one changes nothing |
| Server.QuizServer.AdminVerify | server.js:554-593 | the request is accepted iff the header carries a registered token; no `Bearer ` header gives 401 `Token fehlt`; a `Bearer ` header with an unknown token gives 401 `Ungültiger Token` |
| Server.QuizServer.AdminLogs | server.js:611-648 | 401 for a missing or unknown token; 400 for a month not of the form `YYYY-MM`; otherwise the parsed records of that month's file, or none when there is no such file |
| Server.AdminReadsLoggedGames | server.js:611-641 | an admin reading a month gets back every game logged in that month, in order, when usernames, categories and timestamps hold no tab or newline |

## Left out

- HTTP and Express plumbing is not modelled: routing, CORS, JSON body parsing, the static file routes (`/`, `/admin`) and `app.listen`. Handlers return a `Reply` value instead.
- `public/script.js` and the admin page are not modelled. They are browser UI, and the client's double-submission flag belongs to them.
- File I/O is not modelled. The loader is given the directory listing with each file's parsed content. `highscores.json` is the `persisted` field. The log directory is the `LogDir` class. Read and write failures that the source catches and only logs (server.js:48-50, 66-68, 108-110) are not modelled.
- `GET /admin/months` (server.js:596-608) is not modelled. It lists the log directory and sorts the names with `localeCompare`, which has no counterpart here.
- The 500 replies for a log file that cannot be read (server.js:644-647) are not modelled.
- `loadCategoryQuestions` (questions-loader.js:113-126) is not modelled. It only reads and parses a file.
- QuestionsLoader.LoadQuestions: the error for a missing questions directory (questions-loader.js:14-16) is not modelled, because the model receives a listing.
- QuestionsLoader.AddQuestionToCategory: only a file that cannot be parsed, or whose JSON is not an array, fails. A failing write is not modelled, and neither is the caller's question object being given its id in place.
- Randomness and clocks are parameters. `Math.random` becomes the draws, and the session id is given. The session id's collisions are not checked, as in the source, so a colliding id overwrites the old session. `crypto.randomBytes` becomes the fresh token. `Date.now()` and `toISOString` come from a `Clock`, read once per request.
- Admin token expiry after 24 hours (server.js:578-580) is not modelled. It is a timer callback, and tokens only ever get added here.
- Js.ParseIntNumberToString: holds for the model's plain numeral of every integer. JavaScript's `String(n)` writes exponent notation from 10^21 on, and doubles lose integer precision above 2^53, so there `parseInt` reads back a different number.
- GameLog.ReadLogFile: the round trip is promised only for games whose timestamp, username and category hold no tab or newline, with a timestamp that is non-empty and starts with a visible character. For other games the source does not read back what it wrote either, because a tab or newline in those fields shifts or splits the line, and leading white space in the first line is trimmed away.
- GameLog.LogDir: the invariant makes every month file exactly the lines `logGame` wrote for its games. A file edited by hand, or holding lines from another writer, cannot be represented, so Server.AdminReadsLoggedGames says nothing about such files. Reading arbitrary text is still modelled by GameLog.ReadLog.
- Js.StringLess: compares characters by code point. The default `Array.prototype.sort` used by QuestionsLoader.JsonFilesSorted compares UTF-16 code units, which order characters above U+FFFF before U+E000..U+FFFF; file names using both are not ordered as in the source.
- Floating point is not modelled. Times are integer milliseconds and `Math.round` is integer half-up rounding.
- Scoring.Summarize: the total time and the average come from the exact millisecond total, not from a floating-point sum of seconds. Both percentages are the exact ratio rounded half up, while the source rounds the double `(p / q) * 100`; for 23 correct of 40 that double is 57.49999999999999, so the source reports 57 where the model reports 58.
- Scoring.Answered: `timeSpent` is recorded in whole milliseconds instead of fractional seconds.
- Server.QuizServer.PostHighscore: a username's length counts characters, while JavaScript counts UTF-16 code units. A name with characters above U+FFFF can therefore pass here and fail in the source.
- Request fields are typed. `score`, `totalQuestions` and `answerIndex` are integers, and a JSON string or other value JavaScript would accept is not modelled.
- Server.QuizServer.Start: a category must be a key of the loaded bank. JavaScript also finds inherited object keys such as `constructor`, which are not modelled.
- QuestionsLoader.DisplayNameFallback: inherited keys of the lookup table, such as `constructor`, are not modelled. The same holds for QuestionsLoader.IconFallback.
- Non-numeric `order` values, and non-numeric question ids in `Math.max`, are not modelled.
- Console logging is not modelled.
