/** The game log (server.js, `logGame`, `getMonthlyLogFile`, and the
    reader behind the admin log view): one tab-separated line per finished
    game, appended to a file per month. */
module GameLog {
  import opened Wrappers
  import opened Js

  datatype Device = Unknown | Mobile | Tablet | Desktop

  function DeviceName(d: Device): (name: string)
    ensures '\t' !in name && '\n' !in name && |name| > 0 && !IsSpace(name[|name| - 1])
  {
    match d
    case Unknown => "Unknown"
    case Mobile => "Mobile"
    case Tablet => "Tablet"
    case Desktop => "Desktop"
  }

  /** The device class of a user agent: Unknown when there is none; Mobile
      when it names a phone marker, even if it also names a tablet; then
      Tablet; otherwise Desktop. */
  function Classify(userAgent: string): (d: Device)
    ensures d == Unknown <==> userAgent == ""
  {
    if userAgent == "" then Unknown
    else if Includes(userAgent, "Mobile") || Includes(userAgent, "Android") || Includes(userAgent, "iPhone") then Mobile
    else if Includes(userAgent, "Tablet") || Includes(userAgent, "iPad") then Tablet
    else Desktop
  }

  /** A phone marker anywhere makes the device Mobile, so an iPad whose
      browser adds `Mobile/...` to its user agent counts as Mobile. */
  lemma PhoneMarkerWins(before: string, marker: string, after: string)
    requires marker == "Mobile" || marker == "Android" || marker == "iPhone"
    ensures Classify(before + marker + after) == Mobile
  {
    IncludesPiece(before, marker, after);
  }

  /** A tablet marker without any phone marker makes the device Tablet. */
  lemma TabletMarker(before: string, marker: string, after: string)
    requires marker == "Tablet" || marker == "iPad"
    requires var ua := before + marker + after;
      !Includes(ua, "Mobile") && !Includes(ua, "Android") && !Includes(ua, "iPhone")
    ensures Classify(before + marker + after) == Tablet
  {
    IncludesPiece(before, marker, after);
  }

  /** `Mobile`, `Android` or `iPhone` occurs in the user agent. */
  ghost predicate HasPhoneMarker(userAgent: string) {
    exists i :: OccursAt(userAgent, "Mobile", i) || OccursAt(userAgent, "Android", i) || OccursAt(userAgent, "iPhone", i)
  }

  /** `Tablet` or `iPad` occurs in the user agent. */
  ghost predicate HasTabletMarker(userAgent: string) {
    exists i :: OccursAt(userAgent, "Tablet", i) || OccursAt(userAgent, "iPad", i)
  }

  /** Each device class, told by which markers occur in the user agent. */
  lemma ClassifyByMarkers(userAgent: string)
    ensures Classify(userAgent) == Mobile <==> userAgent != "" && HasPhoneMarker(userAgent)
    ensures Classify(userAgent) == Tablet <==>
      userAgent != "" && !HasPhoneMarker(userAgent) && HasTabletMarker(userAgent)
    ensures Classify(userAgent) == Desktop <==>
      userAgent != "" && !HasPhoneMarker(userAgent) && !HasTabletMarker(userAgent)
  {
    IncludesOccurs(userAgent, "Mobile");
    IncludesOccurs(userAgent, "Android");
    IncludesOccurs(userAgent, "iPhone");
    IncludesOccurs(userAgent, "Tablet");
    IncludesOccurs(userAgent, "iPad");
  }

  /** `username || 'Gast'`. */
  function NameOrGuest(username: string): (name: string)
    ensures username != "" ==> name == username
    ensures username == "" ==> name == "Gast"
  {
    if username == "" then "Gast" else username
  }

  /** The characters `/[\t\n\r]/g` matches. */
  const LineBreaks: set<char> := {'\t', '\n', '\r'}

  /** The user agent as written to the log: tabs, newlines and carriage
      returns become spaces and the ends are trimmed; none at all is
      written `Unknown`. */
  function CleanUserAgent(userAgent: string): (r: string)
    ensures '\t' !in r && '\n' !in r && '\r' !in r
    ensures r == [] || (!IsSpace(r[0]) && !IsSpace(r[|r| - 1]))
    ensures userAgent == "" ==> r == "Unknown"
  {
    if userAgent == "" then "Unknown"
    else
      var spaced := ReplaceWithSpace(userAgent, LineBreaks);
      SpacedHasNoBreaks(userAgent);
      TrimChars(spaced);
      Trim(spaced)
  }

  lemma SpacedHasNoBreaks(s: string)
    ensures var r := ReplaceWithSpace(s, LineBreaks); '\t' !in r && '\n' !in r && '\r' !in r
  {
    var r := ReplaceWithSpace(s, LineBreaks);
    forall i | 0 <= i < |r| ensures r[i] != '\t' && r[i] != '\n' && r[i] != '\r' {
      assert r[i] == if s[i] in LineBreaks then ' ' else s[i];
    }
  }

  /** A given user agent is cleaned into the slice of its spaced-out copy
      between the leading and the trailing white space. */
  lemma CleanUserAgentSlice(userAgent: string)
    requires userAgent != ""
    ensures var spaced := ReplaceWithSpace(userAgent, LineBreaks);
      var r := CleanUserAgent(userAgent);
      exists i :: SpaceAround(spaced, r, i)
  {
    var spaced := ReplaceWithSpace(userAgent, LineBreaks);
    assert CleanUserAgent(userAgent) == Trim(spaced);
    TrimSlice(spaced);
  }

  /** A user agent with no tab, newline or carriage return and no white
      space at its ends is logged as it is. */
  lemma CleanUserAgentKeepsClean(userAgent: string)
    requires userAgent != "" && !IsSpace(userAgent[0]) && !IsSpace(userAgent[|userAgent| - 1])
    requires forall k :: 0 <= k < |userAgent| ==> userAgent[k] !in LineBreaks
    ensures CleanUserAgent(userAgent) == userAgent
  {
    var spaced := ReplaceWithSpace(userAgent, LineBreaks);
    assert spaced == userAgent;
    TrimUnchanged(userAgent);
  }

  /** A game as `logGame` receives it. */
  datatype Game = Game(
    timestamp: string,
    username: string,
    category: string,
    duration: int,
    score: int,
    totalQuestions: int,
    userAgent: string)

  /** The eight fields of a log line. */
  function Fields(g: Game): (f: seq<string>)
    ensures |f| == 8
  {
    [g.timestamp, NameOrGuest(g.username), g.category, NumberToString(g.duration) + "s",
     NumberToString(g.score), NumberToString(g.totalQuestions), DeviceName(Classify(g.userAgent)),
     CleanUserAgent(g.userAgent)]
  }

  /** The log line without its newline. */
  function Body(g: Game): string {
    Join(Fields(g), '\t')
  }

  /** The appended text: the fields separated by tabs, then a newline. */
  function LogLine(g: Game): string {
    Body(g) + "\n"
  }

  // ---------------------------------------------------------------------------
  // File names

  /** `YYYY-MM` for a year and a month numbered from 1. */
  function MonthKey(year: int, month: int): string {
    NumberToString(year) + "-" + PadStart2(NumberToString(month))
  }

  /** `game-YYYY-MM.log`. */
  function LogFileName(year: int, month: int): string {
    "game-" + MonthKey(year, month) + ".log"
  }

  /** `/^\d{4}-\d{2}$/`. */
  predicate IsMonthFormat(m: string) {
    && |m| == 7
    && IsDigit(m[0]) && IsDigit(m[1]) && IsDigit(m[2]) && IsDigit(m[3])
    && m[4] == '-'
    && IsDigit(m[5]) && IsDigit(m[6])
  }

  /** The month part of every file the server writes passes the reader's
      check, so the admin view finds each month's file under its key. */
  lemma MonthKeyValid(year: int, month: int)
    requires 1000 <= year <= 9999 && 1 <= month <= 12
    ensures IsMonthFormat(MonthKey(year, month))
  {
    FourDigits(year);
    TwoDigits(month);
    MonthShape(NumberToString(year), PadStart2(NumberToString(month)));
  }

  lemma MonthShape(y: string, m: string)
    requires |y| == 4 && forall i :: 0 <= i < 4 ==> IsDigit(y[i])
    requires |m| == 2 && IsDigit(m[0]) && IsDigit(m[1])
    ensures IsMonthFormat(y + "-" + m)
  {
    var key := y + "-" + m;
    assert key[0] == y[0] && key[1] == y[1] && key[2] == y[2] && key[3] == y[3];
    assert key[4] == '-' && key[5] == m[0] && key[6] == m[1];
  }

  lemma FourDigits(n: int)
    requires 1000 <= n <= 9999
    ensures var s := NumberToString(n); |s| == 4 && forall i :: 0 <= i < 4 ==> IsDigit(s[i])
  {
    assert NatToString(n) == NatToString(n / 10) + [DigitChar(n % 10)];
    assert NatToString(n / 10) == NatToString(n / 100) + [DigitChar(n / 10 % 10)];
    assert NatToString(n / 100) == NatToString(n / 1000) + [DigitChar(n / 100 % 10)];
  }

  lemma TwoDigits(month: int)
    requires 1 <= month <= 12
    ensures var s := PadStart2(NumberToString(month)); |s| == 2 && IsDigit(s[0]) && IsDigit(s[1])
  {
    var d := NatToString(month);
    if month >= 10 {
      assert d == NatToString(month / 10) + [DigitChar(month % 10)];
    }
    var s := PadStart2(d);
    assert |d| == 1 ==> s == "0" + d;
  }

  // ---------------------------------------------------------------------------
  // Reading the log back

  /** A parsed line. A field past the end of the line is `undefined`,
      written None; `parseInt` of a missing or non-numeric field is `NaN`,
      also None. */
  datatype LogRecord = LogRecord(
    timestamp: string,
    username: Option<string>,
    category: Option<string>,
    duration: Option<string>,
    score: Option<int>,
    total: Option<int>,
    device: Option<string>,
    userAgent: string)

  function FieldAt(parts: seq<string>, k: nat): Option<string> {
    if k < |parts| then Some(parts[k]) else None
  }

  function ReadInt(field: Option<string>): Option<int> {
    if field.None? then None else ParseInt(field.value)
  }

  /** Split on tabs; the first seven fields by position, everything after
      them joined back with tabs as the user agent. */
  function ParseLine(line: string): (r: LogRecord)
    ensures '\t' !in r.timestamp
    ensures '\t' !in line ==> r == LogRecord(line, None, None, None, None, None, None, "")
  {
    var parts := Split(line, '\t');
    SplitWhole(line, '\t');
    LogRecord(
      parts[0], FieldAt(parts, 1), FieldAt(parts, 2), FieldAt(parts, 3),
      ReadInt(FieldAt(parts, 4)), ReadInt(FieldAt(parts, 5)), FieldAt(parts, 6),
      if |parts| > 7 then Join(parts[7..], '\t') else "")
  }

  /** Parse the lines that are not blank. */
  function ParseLines(lines: seq<string>): seq<LogRecord> {
    FlatMap(ParseNonBlank, lines)
  }

  /** A blank line gives no record, any other line its record. */
  function ParseNonBlank(line: string): seq<LogRecord> {
    if Trim(line) == "" then [] else [ParseLine(line)]
  }

  /** The results of `f` on each element, concatenated in order. */
  function FlatMap<A, B>(f: A -> seq<B>, s: seq<A>): seq<B>
    decreases |s|
  {
    if |s| == 0 then [] else f(s[0]) + FlatMap(f, s[1..])
  }

  /** The records of a log file: trim the text, split it into lines, skip
      the blank ones, parse the rest. */
  function ReadLog(content: string): (r: seq<LogRecord>)
    ensures Trim(content) == "" ==> r == []
  {
    SplitWhole(Trim(content), '\n');
    if Trim(content) == "" then
      assert ParseNonBlank("") == [];
      FlatMapOne(ParseNonBlank, "");
      ParseLines(Split(Trim(content), '\n'))
    else ParseLines(Split(Trim(content), '\n'))
  }

  /** What the reader recovers from a game's line. */
  function Expected(g: Game): LogRecord {
    LogRecord(
      g.timestamp, Some(NameOrGuest(g.username)), Some(g.category),
      Some(NumberToString(g.duration) + "s"), Some(g.score), Some(g.totalQuestions),
      Some(DeviceName(Classify(g.userAgent))), CleanUserAgent(g.userAgent))
  }

  /** The fields the caller supplies hold no tab and no newline, and the
      timestamp starts with a visible character (an ISO time does). */
  predicate Loggable(g: Game) {
    && '\t' !in g.timestamp && '\n' !in g.timestamp
    && '\t' !in g.username && '\n' !in g.username
    && '\t' !in g.category && '\n' !in g.category
    && |g.timestamp| > 0 && !IsSpace(g.timestamp[0])
  }

  lemma NumberToStringPlain(n: int)
    ensures '\t' !in NumberToString(n) && '\n' !in NumberToString(n)
    ensures '\t' !in NumberToString(n) + "s" && '\n' !in NumberToString(n) + "s"
  {
    var m: nat := if n < 0 then -n else n;
    assert forall i :: 0 <= i < |NatToString(m)| ==> IsDigit(NatToString(m)[i]);
  }

  lemma FieldsPlain(g: Game)
    requires Loggable(g)
    ensures forall i :: 0 <= i < 8 ==> '\t' !in Fields(g)[i] && '\n' !in Fields(g)[i]
  {
    var f := Fields(g);
    NumberToStringPlain(g.duration);
    NumberToStringPlain(g.score);
    NumberToStringPlain(g.totalQuestions);
    assert f[0] == g.timestamp && f[1] == NameOrGuest(g.username) && f[2] == g.category;
    assert f[3] == NumberToString(g.duration) + "s" && f[4] == NumberToString(g.score);
    assert f[5] == NumberToString(g.totalQuestions);
    assert f[6] == DeviceName(Classify(g.userAgent)) && f[7] == CleanUserAgent(g.userAgent);
    EightAvoid(f, '\t');
    EightAvoid(f, '\n');
  }

  lemma EightAvoid(f: seq<string>, c: char)
    requires |f| == 8
    requires c !in f[0] && c !in f[1] && c !in f[2] && c !in f[3]
    requires c !in f[4] && c !in f[5] && c !in f[6] && c !in f[7]
    ensures forall i :: 0 <= i < 8 ==> c !in f[i]
  {
  }

  /** The parser gives back what `logGame` wrote, whenever the timestamp,
      the username and the category hold no tab. */
  lemma ParseLogLine(g: Game)
    requires Loggable(g)
    ensures ParseLine(Body(g)) == Expected(g)
  {
    var f := Fields(g);
    FieldsPlain(g);
    SplitJoin(f, '\t');
    assert f[7..] == [f[7]];
    ParseIntNumberToString(g.score);
    ParseIntNumberToString(g.totalQuestions);
  }

  /** Without a user agent field the parser still reports an empty one,
      as for a line whose cleaned user agent is empty. */
  lemma ParseShortLine(g: Game)
    requires Loggable(g) && CleanUserAgent(g.userAgent) == ""
    ensures ParseLine(Join(Fields(g)[..7], '\t')) == Expected(g)
  {
    var f := Fields(g)[..7];
    FieldsPlain(g);
    SplitJoin(f, '\t');
    ParseIntNumberToString(g.score);
    ParseIntNumberToString(g.totalQuestions);
  }

  // ---------------------------------------------------------------------------
  // A whole file

  /** `f` applied to each element, built up from the front. */
  function MapSnoc<A, B>(f: A -> B, s: seq<A>): (r: seq<B>)
    ensures |r| == |s|
    decreases |s|
  {
    if |s| == 0 then [] else MapSnoc(f, s[..|s| - 1]) + [f(s[|s| - 1])]
  }

  lemma {:induction false} MapSnocAt<A, B>(f: A -> B, s: seq<A>, i: int)
    requires 0 <= i < |s|
    ensures MapSnoc(f, s)[i] == f(s[i])
    decreases |s|
  {
    var n := |s|;
    if i < n - 1 {
      MapSnocAt(f, s[..n - 1], i);
    }
  }

  function Bodies(games: seq<Game>): (b: seq<string>)
    ensures |b| == |games|
  {
    MapSnoc(Body, games)
  }

  /** The file after appending the lines of these games in order. */
  function FileOf(games: seq<Game>): string {
    ConcatLines(Bodies(games))
  }

  /** Appending a game's line to the file of earlier games gives the file
      of all of them. */
  lemma FileOfAppend(games: seq<Game>, g: Game)
    ensures FileOf(games + [g]) == FileOf(games) + LogLine(g)
  {
    assert (games + [g])[..|games|] == games;
  }

  function ExpectedAll(games: seq<Game>): (r: seq<LogRecord>)
    ensures |r| == |games|
  {
    MapSnoc(Expected, games)
  }

  /** The admin view reads back every game of a month's file, in the order
      they were appended. */
  lemma ReadLogFile(games: seq<Game>)
    requires forall i :: 0 <= i < |games| ==> Loggable(games[i])
    ensures ReadLog(FileOf(games)) == ExpectedAll(games)
  {
    if |games| == 0 {
      ReadEmptyLog();
    } else {
      var front, x, tail := FileLines(games);
      SplitTrimmedLines(front, x, tail);
      ParseFile(games, front, x);
    }
  }

  lemma ReadEmptyLog()
    ensures ReadLog(ConcatLines([])) == []
  {
    var lines := Split(Trim(ConcatLines([])), '\n');
    EmptySplit();
    assert Trim(lines[0]) == "";
    assert lines[1..] == [];
  }

  lemma EmptySplit()
    ensures Split(Trim(ConcatLines([])), '\n') == [""]
  {
    assert Trim("") == "";
  }

  /** A month's file as the lines the reader gets back after the trim: the
      earlier lines whole, and the last one without the white space the trim
      removes. */
  lemma FileLines(games: seq<Game>) returns (front: seq<string>, x: string, tail: string)
    requires |games| > 0 && forall i :: 0 <= i < |games| ==> Loggable(games[i])
    ensures FileOf(games) == ConcatLines(front + [x + tail])
    ensures |front| == |games| - 1
    ensures forall i :: 0 <= i < |front| ==> '\n' !in front[i] && front[i] != [] && !IsSpace(front[i][0])
    ensures ParseLines(front) == ExpectedAll(games[..|games| - 1])
    ensures '\n' !in x && x != [] && !IsSpace(x[0]) && !IsSpace(x[|x| - 1])
    ensures Trim(x) != "" && ParseLine(x) == Expected(games[|games| - 1])
    ensures '\n' !in tail && forall i :: 0 <= i < |tail| ==> IsSpace(tail[i])
  {
    front := FrontLines(games);
    x, tail := LastLine(games[|games| - 1]);
    TrimBlank(x);
  }

  /** The lines before the last one, which the trim leaves alone and which
      parse to their games. */
  lemma FrontLines(games: seq<Game>) returns (front: seq<string>)
    requires |games| > 0 && forall i :: 0 <= i < |games| ==> Loggable(games[i])
    ensures Bodies(games) == front + [Body(games[|games| - 1])]
    ensures |front| == |games| - 1
    ensures forall i :: 0 <= i < |front| ==> '\n' !in front[i] && front[i] != [] && !IsSpace(front[i][0])
    ensures ParseLines(front) == ExpectedAll(games[..|games| - 1])
  {
    front := Bodies(games[..|games| - 1]);
    FrontShape(games[..|games| - 1]);
    ParseAll(games[..|games| - 1], front);
  }

  lemma FrontShape(games: seq<Game>)
    requires forall i :: 0 <= i < |games| ==> Loggable(games[i])
    ensures var lines := Bodies(games);
      forall i :: 0 <= i < |lines| ==> '\n' !in lines[i] && lines[i] != [] && !IsSpace(lines[i][0])
    ensures var lines := Bodies(games);
      forall i :: 0 <= i < |lines| ==> ParseLine(lines[i]) == Expected(games[i])
  {
    var lines := Bodies(games);
    forall i | 0 <= i < |lines|
      ensures '\n' !in lines[i] && lines[i] != [] && !IsSpace(lines[i][0])
      ensures ParseLine(lines[i]) == Expected(games[i])
    {
      BodiesAt(games, i);
      BodyLine(games[i]);
    }
  }

  lemma ExpectedAt(games: seq<Game>, i: int)
    requires 0 <= i < |games|
    ensures ExpectedAll(games)[i] == Expected(games[i])
  {
    MapSnocAt(Expected, games, i);
  }

  lemma BodiesAt(games: seq<Game>, i: int)
    requires 0 <= i < |games|
    ensures Bodies(games)[i] == Body(games[i])
  {
    MapSnocAt(Body, games, i);
  }

  lemma BodyLine(g: Game)
    requires Loggable(g)
    ensures '\n' !in Body(g) && Body(g) != [] && !IsSpace(Body(g)[0])
    ensures ParseLine(Body(g)) == Expected(g)
  {
    BodyShape(g);
    ParseLogLine(g);
  }

  /** The last line as the reader sees it after the trim, and the white
      space the trim takes off it (a tab, when the cleaned user agent is
      empty). */
  lemma LastLine(g: Game) returns (x: string, tail: string)
    requires Loggable(g)
    ensures Body(g) == x + tail && ParseLine(x) == Expected(g)
    ensures '\n' !in x && x != [] && !IsSpace(x[0]) && !IsSpace(x[|x| - 1])
    ensures '\n' !in tail && forall i :: 0 <= i < |tail| ==> IsSpace(tail[i])
  {
    BodyShape(g);
    if CleanUserAgent(g.userAgent) != "" {
      x, tail := Body(g), "";
      assert Body(g) + "" == Body(g);
      ParseLogLine(g);
    } else {
      ShortBodyShape(g);
      x, tail := Join(Fields(g)[..7], '\t'), "\t";
      ParseShortLine(g);
    }
  }

  /** The lines before the last parse to their games, and so does the last. */
  lemma ParseFile(games: seq<Game>, front: seq<string>, x: string)
    requires |front| == |games| - 1
    requires ParseLines(front) == ExpectedAll(games[..|games| - 1])
    requires Trim(x) != "" && ParseLine(x) == Expected(games[|games| - 1])
    ensures ParseLines(front + [x]) == ExpectedAll(games)
  {
    var n := |games|;
    ParseOne(x);
    ParseLinesConcat(front, [x]);
  }

  lemma ParseOne(line: string)
    requires Trim(line) != ""
    ensures ParseLines([line]) == [ParseLine(line)]
  {
    FlatMapOne(ParseNonBlank, line);
  }

  lemma FlatMapOne<A, B>(f: A -> seq<B>, x: A)
    ensures FlatMap(f, [x]) == f(x)
  {
    assert [x][1..] == [];
  }

  /** Lines that are each non-blank and parse to their games. */
  lemma ParseAll(games: seq<Game>, lines: seq<string>)
    requires |games| == |lines|
    requires forall i :: 0 <= i < |lines| ==> ParseLine(lines[i]) == Expected(games[i])
    requires forall i :: 0 <= i < |lines| ==> lines[i] != [] && !IsSpace(lines[i][0])
    ensures ParseLines(lines) == ExpectedAll(games)
  {
    var recs := ExpectedAll(games);
    forall i | 0 <= i < |lines| ensures Trim(lines[i]) != "" && ParseLine(lines[i]) == recs[i] {
      TrimBlank(lines[i]);
      ExpectedAt(games, i);
    }
    ParseLinesAll(lines, recs);
  }

  lemma ParseLinesConcat(a: seq<string>, b: seq<string>)
    ensures ParseLines(a + b) == ParseLines(a) + ParseLines(b)
  {
    FlatMapConcat(ParseNonBlank, a, b);
  }

  lemma {:induction false} FlatMapConcat<A, B>(f: A -> seq<B>, a: seq<A>, b: seq<A>)
    ensures FlatMap(f, a + b) == FlatMap(f, a) + FlatMap(f, b)
    decreases |a|
  {
    if |a| > 0 {
      assert (a + b)[1..] == a[1..] + b;
      FlatMapConcat(f, a[1..], b);
    } else {
      assert a + b == b;
    }
  }

  lemma {:induction false} ParseLinesAll(lines: seq<string>, recs: seq<LogRecord>)
    requires |lines| == |recs|
    requires forall i :: 0 <= i < |lines| ==> Trim(lines[i]) != "" && ParseLine(lines[i]) == recs[i]
    ensures ParseLines(lines) == recs
    decreases |lines|
  {
    if |lines| > 0 {
      ParseLinesAll(lines[1..], recs[1..]);
      assert recs == [recs[0]] + recs[1..];
    }
  }

  lemma BodyShape(g: Game)
    requires Loggable(g)
    ensures '\n' !in Body(g) && Body(g) != [] && !IsSpace(Body(g)[0])
    ensures CleanUserAgent(g.userAgent) != "" ==> !IsSpace(Body(g)[|Body(g)| - 1])
  {
    FieldsPlain(g);
    JoinAvoids(Fields(g), '\t', '\n');
    JoinFirstLast(Fields(g), '\t');
  }

  lemma ShortBodyShape(g: Game)
    requires Loggable(g) && CleanUserAgent(g.userAgent) == ""
    ensures var short := Join(Fields(g)[..7], '\t');
      && '\n' !in short && short != [] && !IsSpace(short[0]) && !IsSpace(short[|short| - 1])
      && Body(g) == short + "\t"
  {
    var f := Fields(g);
    FieldsPlain(g);
    JoinAvoids(f[..7], '\t', '\n');
    JoinFirstLast(f[..7], '\t');
    assert f == f[..7] + [""];
    JoinAppendEmpty(f[..7], '\t');
  }

  // ---------------------------------------------------------------------------
  // The log directory

  /** The log directory: the files by name and, as ghost state, the games
      whose lines each file holds. */
  class LogDir {
    var files: map<string, string>
    ghost var games: map<string, seq<Game>>

    /** Each file holds exactly the lines of its games. */
    ghost predicate Valid()
      reads this
    {
      forall name :: name in files ==> name in games && files[name] == FileOf(games[name])
    }

    /** The directory as earlier runs left it. */
    constructor (previous: map<string, seq<Game>>)
      ensures files == map name | name in previous :: FileOf(previous[name])
      ensures games == previous
      ensures Valid()
    {
      files := map name | name in previous :: FileOf(previous[name]);
      games := previous;
    }

    /** `logGame`'s `appendFileSync`: the game's line goes at the end of the
        file, which is created when it is missing. */
    method Append(name: string, g: Game)
      requires Valid()
      modifies this
      ensures Valid()
      ensures files == old(files)[name := (if name in old(files) then old(files)[name] else "") + LogLine(g)]
      ensures games == old(games)[name := (if name in old(files) then old(games)[name] else []) + [g]]
    {
      var before := if name in files then games[name] else [];
      FileOfAppend(before, g);
      games := games[name := before + [g]];
      files := files[name := (if name in files then files[name] else "") + LogLine(g)];
    }
  }
}
