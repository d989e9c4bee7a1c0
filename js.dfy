/** The JavaScript built-ins on strings and arrays that the quiz server's logic
    relies on, written out with the behaviour the ECMAScript specification gives
    them. Strings are sequences of characters; see the README for how this differs
    from JavaScript's UTF-16 code units. */
module Js {
  import opened Wrappers

  // ---------------------------------------------------------------------------
  // Arrays

  /** `Array.prototype.indexOf`: the first index holding `x`, or -1. */
  function IndexOf<T(==)>(s: seq<T>, x: T): (i: int)
    ensures -1 <= i < |s|
    ensures i == -1 <==> x !in s
    ensures 0 <= i ==> s[i] == x && forall k :: 0 <= k < i ==> s[k] != x
  {
    if |s| == 0 then -1
    else if s[0] == x then 0
    else
      var j := IndexOf(s[1..], x);
      if j == -1 then -1 else j + 1
  }

  /** `Array.prototype.findIndex`: the first index whose element satisfies
      `p`, or -1 (`find` returns the element there, or `undefined`). */
  function FindIndex<T>(s: seq<T>, p: T -> bool): (i: int)
    ensures -1 <= i < |s|
    ensures i == -1 <==> forall k :: 0 <= k < |s| ==> !p(s[k])
    ensures 0 <= i ==> p(s[i]) && forall k :: 0 <= k < i ==> !p(s[k])
    decreases |s|
  {
    if |s| == 0 then -1
    else if p(s[0]) then 0
    else
      var j := FindIndex(s[1..], p);
      if j == -1 then -1 else j + 1
  }

  // ---------------------------------------------------------------------------
  // Prefixes, suffixes and substrings

  /** `String.prototype.startsWith`. */
  predicate StartsWith(s: string, prefix: string) {
    |prefix| <= |s| && s[..|prefix|] == prefix
  }

  /** `String.prototype.endsWith`. */
  predicate EndsWith(s: string, suffix: string) {
    |suffix| <= |s| && s[|s| - |suffix|..] == suffix
  }

  /** `String.prototype.includes`: `sub` occurs somewhere in `s`. */
  predicate Includes(s: string, sub: string)
    decreases |s|
  {
    StartsWith(s, sub) || (|s| > 0 && Includes(s[1..], sub))
  }

  /** Whatever surrounds it, a string includes each of its pieces. */
  lemma {:induction false} IncludesPiece(a: string, sub: string, b: string)
    ensures Includes(a + sub + b, sub)
    decreases |a|
  {
    if |a| == 0 {
      assert (a + sub + b)[..|sub|] == sub;
    } else {
      assert (a + sub + b)[1..] == a[1..] + sub + b;
      IncludesPiece(a[1..], sub, b);
    }
  }

  /** `sub` occurs in `s` starting at index `i`. */
  predicate OccursAt(s: string, sub: string, i: int) {
    0 <= i && i + |sub| <= |s| && s[i..i + |sub|] == sub
  }

  /** `includes` holds exactly when the piece occurs at some index. */
  lemma {:induction false} IncludesOccurs(s: string, sub: string)
    ensures Includes(s, sub) <==> exists i :: OccursAt(s, sub, i)
    decreases |s|
  {
    if StartsWith(s, sub) {
      assert OccursAt(s, sub, 0);
    }
    if exists i :: OccursAt(s, sub, i) {
      var i :| OccursAt(s, sub, i);
      if i > 0 {
        assert s[1..][i - 1..i - 1 + |sub|] == s[i..i + |sub|];
        assert OccursAt(s[1..], sub, i - 1);
        IncludesOccurs(s[1..], sub);
      } else {
        assert StartsWith(s, sub);
      }
    }
    if |s| > 0 && Includes(s[1..], sub) {
      IncludesOccurs(s[1..], sub);
      var j :| OccursAt(s[1..], sub, j);
      assert s[j + 1..j + 1 + |sub|] == s[1..][j..j + |sub|];
      assert OccursAt(s, sub, j + 1);
    }
  }

  // ---------------------------------------------------------------------------
  // White space and trimming

  /** The characters `String.prototype.trim` and `parseInt` skip: ECMAScript's
      WhiteSpace and LineTerminator characters. */
  predicate IsSpace(c: char) {
    c == '\t' || c == '\n' || c == '\U{000B}' || c == '\U{000C}' || c == '\r' || c == ' '
    || c == '\U{00A0}' || c == '\U{1680}' || ('\U{2000}' <= c <= '\U{200A}')
    || c == '\U{2028}' || c == '\U{2029}' || c == '\U{202F}' || c == '\U{205F}'
    || c == '\U{3000}' || c == '\U{FEFF}'
  }

  /** `String.prototype.trimStart`: drops the leading white space and nothing else. */
  function TrimStart(s: string): (r: string)
    ensures |r| <= |s| && r == s[|s| - |r|..]
    ensures forall i :: 0 <= i < |s| - |r| ==> IsSpace(s[i])
    ensures r != [] ==> !IsSpace(r[0])
    decreases |s|
  {
    if |s| > 0 && IsSpace(s[0]) then TrimStart(s[1..]) else s
  }

  /** `String.prototype.trimEnd`: drops the trailing white space and nothing else. */
  function TrimEnd(s: string): (r: string)
    ensures |r| <= |s| && r == s[..|r|]
    ensures forall i :: |r| <= i < |s| ==> IsSpace(s[i])
    ensures r != [] ==> !IsSpace(r[|r| - 1])
    decreases |s|
  {
    if |s| > 0 && IsSpace(s[|s| - 1]) then TrimEnd(s[..|s| - 1]) else s
  }

  /** `String.prototype.trim`. */
  function Trim(s: string): (r: string)
    ensures |r| <= |s|
    ensures r != [] ==> !IsSpace(r[0]) && !IsSpace(r[|r| - 1])
  {
    TrimEnd(TrimStart(s))
  }

  /** `r` is the slice of `s` from index `i`, with only white space around it. */
  ghost predicate SpaceAround(s: string, r: string, i: int) {
    && 0 <= i <= |s| - |r| && r == s[i..i + |r|]
    && (forall k :: 0 <= k < i ==> IsSpace(s[k]))
    && (forall k :: i + |r| <= k < |s| ==> IsSpace(s[k]))
  }

  /** The trim is the slice of the input between its leading and its
      trailing white space. */
  lemma TrimSlice(s: string)
    ensures exists i :: SpaceAround(s, Trim(s), i)
  {
    var t := TrimStart(s);
    var r := TrimEnd(t);
    var i := |s| - |t|;
    assert Trim(s) == r;
    SliceOfSuffix(s, t, r);
    assert SpaceAround(s, Trim(s), i);
  }

  lemma SliceOfSuffix(s: string, t: string, r: string)
    requires |t| <= |s| && t == s[|s| - |t|..]
    requires forall k :: 0 <= k < |s| - |t| ==> IsSpace(s[k])
    requires |r| <= |t| && r == t[..|r|]
    requires forall k :: |r| <= k < |t| ==> IsSpace(t[k])
    ensures SpaceAround(s, r, |s| - |t|)
  {
    var i := |s| - |t|;
    forall k | i + |r| <= k < |s| ensures IsSpace(s[k]) {
      assert s[k] == t[k - i];
    }
  }

  /** A string that neither starts nor ends with white space is its own trim. */
  lemma TrimUnchanged(s: string)
    requires |s| == 0 || (!IsSpace(s[0]) && !IsSpace(s[|s| - 1]))
    ensures Trim(s) == s
  {
    if |s| > 0 {
      TrimStartUnchanged(s);
      TrimEndUnchanged(s);
      assert Trim(s) == TrimEnd(TrimStart(s));
    }
  }

  lemma TrimStartUnchanged(s: string)
    requires s != [] && !IsSpace(s[0])
    ensures TrimStart(s) == s
  {
  }

  lemma TrimEndUnchanged(s: string)
    requires s != [] && !IsSpace(s[|s| - 1])
    ensures TrimEnd(s) == s
  {
  }

  /** Trimming keeps a slice of the string: no character is made up. */
  lemma TrimChars(s: string)
    ensures forall c :: c in Trim(s) ==> c in s
  {
    var t := TrimStart(s);
    PieceChars(t, s, |s| - |t|);
    PieceChars(TrimEnd(t), t, 0);
  }

  /** A slice holds only characters of the whole. */
  lemma PieceChars(piece: string, s: string, from: nat)
    requires from + |piece| <= |s| && piece == s[from..from + |piece|]
    ensures forall c :: c in piece ==> c in s
  {
    forall c | c in piece ensures c in s {
      var i :| 0 <= i < |piece| && piece[i] == c;
      assert s[from + i] == c;
    }
  }

  /** Only an all-white-space string trims to nothing. */
  lemma TrimBlank(s: string)
    ensures Trim(s) == [] <==> forall i :: 0 <= i < |s| ==> IsSpace(s[i])
  {
    var t := TrimStart(s);
    if Trim(s) == [] {
      assert |t| == 0;
    } else {
      var c := Trim(s)[0];
      TrimChars(s);
      assert c in s && !IsSpace(c);
    }
  }

  /** White space after a trimmed core is cut off again. */
  lemma TrimSpaceTail(core: string, tail: string)
    requires core != [] && !IsSpace(core[0]) && !IsSpace(core[|core| - 1])
    requires forall i :: 0 <= i < |tail| ==> IsSpace(tail[i])
    ensures Trim(core + tail) == core
  {
    TrimStartUnchanged(core + tail);
    TrimEndSpaceTail(core, tail);
  }

  lemma {:induction false} TrimEndSpaceTail(core: string, tail: string)
    requires core != [] && !IsSpace(core[|core| - 1])
    requires forall i :: 0 <= i < |tail| ==> IsSpace(tail[i])
    ensures TrimEnd(core + tail) == core
    decreases |tail|
  {
    if |tail| == 0 {
      assert core + tail == core;
      TrimEndUnchanged(core);
    } else {
      var shorter := tail[..|tail| - 1];
      assert (core + tail)[..|core + tail| - 1] == core + shorter;
      TrimEndSpaceTail(core, shorter);
    }
  }

  /** Trimming twice is trimming once. */
  lemma TrimIdempotent(s: string)
    ensures Trim(Trim(s)) == Trim(s)
  {
    TrimUnchanged(Trim(s));
  }

  // ---------------------------------------------------------------------------
  // Splitting and joining

  /** `Array.prototype.join(sep)` for a one-character separator. */
  function Join(parts: seq<string>, sep: char): string
    decreases |parts|
  {
    if |parts| == 0 then ""
    else if |parts| == 1 then parts[0]
    else parts[0] + [sep] + Join(parts[1..], sep)
  }

  /** `String.prototype.split(sep)` for a one-character separator: the pieces
      between the separators, so that joining them gives the string back. An
      empty string splits into one empty piece. */
  function Split(s: string, sep: char): (parts: seq<string>)
    ensures |parts| >= 1
    ensures forall i :: 0 <= i < |parts| ==> sep !in parts[i]
    ensures Join(parts, sep) == s
    decreases |s|
  {
    var k := IndexOf(s, sep);
    if k == -1 then [s]
    else
      var rest := Split(s[k + 1..], sep);
      assert s == s[..k] + [sep] + s[k + 1..];
      [s[..k]] + rest
  }

  /** A string without the separator splits into itself alone. */
  lemma SplitWhole(s: string, sep: char)
    ensures sep !in s ==> Split(s, sep) == [s]
  {
    if sep !in s {
      SplitJoin([s], sep);
    }
  }

  /** Splitting undoes joining, as long as no piece holds the separator. */
  lemma {:induction false} SplitJoin(parts: seq<string>, sep: char)
    requires |parts| >= 1
    requires forall i :: 0 <= i < |parts| ==> sep !in parts[i]
    ensures Split(Join(parts, sep), sep) == parts
    decreases |parts|
  {
    if |parts| > 1 {
      var s := Join(parts, sep);
      var j := Join(parts[1..], sep);
      assert s == parts[0] + [sep] + j;
      IndexOfAfterPiece(parts[0], sep, j);
      assert s[|parts[0]| + 1..] == j;
      assert s[..|parts[0]|] == parts[0];
      SplitJoin(parts[1..], sep);
    }
  }

  /** A joined string starts with the first piece and ends with the last. */
  lemma {:induction false} JoinFirstLast(parts: seq<string>, sep: char)
    requires |parts| >= 1
    ensures parts[0] != [] ==> Join(parts, sep) != [] && Join(parts, sep)[0] == parts[0][0]
    ensures var last := parts[|parts| - 1];
      last != [] ==> Join(parts, sep) != [] && Join(parts, sep)[|Join(parts, sep)| - 1] == last[|last| - 1]
    decreases |parts|
  {
    if |parts| > 1 {
      JoinFirstLast(parts[1..], sep);
    }
  }

  /** A character found in no piece, other than the separator, is not in
      the joined string. */
  lemma {:induction false} JoinAvoids(parts: seq<string>, sep: char, c: char)
    requires c != sep && forall i :: 0 <= i < |parts| ==> c !in parts[i]
    ensures c !in Join(parts, sep)
    decreases |parts|
  {
    if |parts| > 1 {
      JoinAvoids(parts[1..], sep, c);
    }
  }

  /** Text added to the last piece ends up at the end of the joined string. */
  lemma {:induction false} JoinLastPart(parts: seq<string>, x: string, suffix: string, sep: char)
    ensures Join(parts + [x + suffix], sep) == Join(parts + [x], sep) + suffix
    decreases |parts|
  {
    if |parts| > 0 {
      assert (parts + [x + suffix])[1..] == parts[1..] + [x + suffix];
      assert (parts + [x])[1..] == parts[1..] + [x];
      JoinLastPart(parts[1..], x, suffix, sep);
    }
  }

  /** An empty last piece adds one separator. */
  lemma JoinAppendEmpty(parts: seq<string>, sep: char)
    requires |parts| >= 1
    ensures Join(parts + [""], sep) == Join(parts, sep) + [sep]
  {
    var front := parts[..|parts| - 1];
    var last := parts[|parts| - 1];
    assert parts == front + [last];
    assert parts + [""] == front + [last] + [""];
    JoinSnoc(front + [last], "", sep);
  }

  lemma {:induction false} JoinSnoc(parts: seq<string>, x: string, sep: char)
    requires |parts| >= 1
    ensures Join(parts + [x], sep) == Join(parts, sep) + [sep] + x
    decreases |parts|
  {
    if |parts| > 1 {
      assert (parts + [x])[1..] == parts[1..] + [x];
      JoinSnoc(parts[1..], x, sep);
    } else {
      assert parts + [x] == [parts[0], x];
    }
  }

  /** Lines appended one after the other, each ended by a newline. */
  function ConcatLines(lines: seq<string>): string
    decreases |lines|
  {
    if |lines| == 0 then "" else ConcatLines(lines[..|lines| - 1]) + lines[|lines| - 1] + "\n"
  }

  lemma {:induction false} ConcatLinesJoin(lines: seq<string>)
    requires |lines| > 0
    ensures ConcatLines(lines) == Join(lines, '\n') + "\n"
    decreases |lines|
  {
    var n := |lines|;
    if n > 1 {
      var front := lines[..n - 1];
      ConcatLinesJoin(front);
      JoinSnoc(front, lines[n - 1], '\n');
      assert front + [lines[n - 1]] == lines;
    } else {
      assert lines[..0] == [];
    }
  }

  /** Reading a file of lines back: trimming the text and splitting it at
      newlines gives the lines again, except that white space at the end of
      the last line is lost with the trim. */
  lemma SplitTrimmedLines(front: seq<string>, x: string, tail: string)
    requires forall i :: 0 <= i < |front| ==> '\n' !in front[i] && front[i] != [] && !IsSpace(front[i][0])
    requires '\n' !in x && x != [] && !IsSpace(x[0]) && !IsSpace(x[|x| - 1])
    requires '\n' !in tail && forall i :: 0 <= i < |tail| ==> IsSpace(tail[i])
    ensures Split(Trim(ConcatLines(front + [x + tail])), '\n') == front + [x]
  {
    TrimmedLines(front, x, tail);
    LinesAvoid(front, x, '\n');
    SplitJoin(front + [x], '\n');
  }

  lemma LinesAvoid(front: seq<string>, x: string, c: char)
    requires forall i :: 0 <= i < |front| ==> c !in front[i]
    requires c !in x
    ensures forall i :: 0 <= i < |front + [x]| ==> c !in (front + [x])[i]
  {
    var lines := front + [x];
    forall i | 0 <= i < |lines| ensures c !in lines[i] {
      assert lines[i] == if i < |front| then front[i] else x;
    }
  }

  lemma TrimmedLines(front: seq<string>, x: string, tail: string)
    requires forall i :: 0 <= i < |front| ==> front[i] != [] && !IsSpace(front[i][0])
    requires x != [] && !IsSpace(x[0]) && !IsSpace(x[|x| - 1])
    requires forall i :: 0 <= i < |tail| ==> IsSpace(tail[i])
    ensures Trim(ConcatLines(front + [x + tail])) == Join(front + [x], '\n')
  {
    var lines := front + [x];
    var core := Join(lines, '\n');
    var rest := tail + "\n";
    assert rest[..|rest| - 1] == tail;
    ConcatLinesLast(front, x, rest);
    JoinFirstLast(lines, '\n');
    assert lines[|lines| - 1] == x;
    assert lines[0] == if |front| > 0 then front[0] else x;
    assert forall i :: 0 <= i < |rest| ==> IsSpace(rest[i]);
    TrimSpaceTail(core, rest);
  }

  /** The file text is the joined lines, then the last line's tail and the
      final newline. */
  lemma ConcatLinesLast(front: seq<string>, x: string, rest: string)
    requires |rest| > 0 && rest[|rest| - 1] == '\n'
    ensures ConcatLines(front + [x + rest[..|rest| - 1]]) == Join(front + [x], '\n') + rest
  {
    var tail := rest[..|rest| - 1];
    assert (front + [x + tail])[..|front|] == front;
    assert tail + "\n" == rest;
    if |front| == 0 {
      assert front + [x + tail] == [x + tail];
      assert ConcatLines([x + tail]) == ConcatLines([]) + (x + tail) + "\n";
    } else {
      ConcatLinesJoin(front);
      JoinSnoc(front, x, '\n');
    }
  }

  lemma IndexOfAfterPiece(piece: string, sep: char, rest: string)
    requires sep !in piece
    ensures IndexOf(piece + [sep] + rest, sep) == |piece|
  {
    var s := piece + [sep] + rest;
    assert s[|piece|] == sep;
    forall k | 0 <= k < |piece| ensures s[k] != sep {
      assert s[k] == piece[k];
    }
  }

  /** `s.replace(/[...]/g, ' ')`: every character of `chars` becomes a space. */
  function ReplaceWithSpace(s: string, chars: set<char>): (r: string)
    ensures |r| == |s|
    ensures forall i :: 0 <= i < |s| ==> r[i] == (if s[i] in chars then ' ' else s[i])
  {
    seq(|s|, i requires 0 <= i < |s| => if s[i] in chars then ' ' else s[i])
  }

  // ---------------------------------------------------------------------------
  // Numbers as text

  /** A decimal digit. */
  predicate IsDigit(c: char) {
    '0' <= c <= '9'
  }

  /** A digit in radix 10, or in radix 16 (either letter case). */
  predicate IsRadixDigit(c: char, hex: bool) {
    IsDigit(c) || (hex && (('a' <= c <= 'f') || ('A' <= c <= 'F')))
  }

  function DigitValue(c: char, hex: bool): (d: nat)
    requires IsRadixDigit(c, hex)
    ensures d < Radix(hex)
  {
    if IsDigit(c) then c as int - '0' as int
    else if 'a' <= c <= 'f' then c as int - 'a' as int + 10
    else c as int - 'A' as int + 10
  }

  function Radix(hex: bool): nat {
    if hex then 16 else 10
  }

  function DigitChar(d: nat): (c: char)
    requires d < 10
    ensures IsDigit(c) && DigitValue(c, false) == d
  {
    ('0' as int + d) as char
  }

  /** The decimal numeral of a natural number, without leading zeros. */
  function NatToString(n: nat): (s: string)
    ensures |s| >= 1 && forall i :: 0 <= i < |s| ==> IsDigit(s[i])
    decreases n
  {
    if n < 10 then [DigitChar(n)] else NatToString(n / 10) + [DigitChar(n % 10)]
  }

  /** `String(n)` (and template interpolation) of an integral number below
      10^21 in magnitude; JavaScript writes larger ones in exponent notation,
      which this numeral does not follow. */
  function NumberToString(n: int): string {
    if n < 0 then "-" + NatToString(-n) else NatToString(n)
  }

  /** The value of a numeral, most significant digit first. */
  function DigitsValue(s: string, hex: bool): nat
    requires forall i :: 0 <= i < |s| ==> IsRadixDigit(s[i], hex)
    decreases |s|
  {
    if |s| == 0 then 0
    else DigitsValue(s[..|s| - 1], hex) * Radix(hex) + DigitValue(s[|s| - 1], hex)
  }

  /** The length of the longest prefix of `s` made of digits. */
  function DigitRun(s: string, hex: bool): (n: nat)
    ensures n <= |s|
    ensures forall i :: 0 <= i < n ==> IsRadixDigit(s[i], hex)
    ensures n < |s| ==> !IsRadixDigit(s[n], hex)
    decreases |s|
  {
    if |s| > 0 && IsRadixDigit(s[0], hex) then 1 + DigitRun(s[1..], hex) else 0
  }

  /** `parseInt(s)` with no radix: skip leading white space, take an optional
      sign, read a hexadecimal numeral after `0x` or `0X` and a decimal one
      otherwise, and stop at the first character that is not a digit. None
      stands for `NaN` (no digit at all). */
  function ParseInt(s: string): (r: Option<int>)
  {
    var t := TrimStart(s);
    var negative := |t| > 0 && t[0] == '-';
    var u := if |t| > 0 && (t[0] == '-' || t[0] == '+') then t[1..] else t;
    var hex := |u| >= 2 && u[0] == '0' && (u[1] == 'x' || u[1] == 'X');
    var magnitude := ReadDigits(if hex then u[2..] else u, hex);
    if magnitude.None? then None
    else Some(if negative then -(magnitude.value as int) else magnitude.value)
  }

  /** The value of the leading digits of `body`; None when it does not start
      with a digit. */
  function ReadDigits(body: string, hex: bool): (r: Option<nat>)
    ensures r.None? <==> body == [] || !IsRadixDigit(body[0], hex)
  {
    var n := DigitRun(body, hex);
    if n == 0 then None else Some(DigitsValue(body[..n], hex))
  }

  /** A positive number's numeral does not start with 0. */
  lemma {:induction false} NatToStringLeading(n: nat)
    ensures NatToString(n)[0] == '0' ==> n == 0
    decreases n
  {
    if n >= 10 {
      NatToStringLeading(n / 10);
      assert NatToString(n)[0] == NatToString(n / 10)[0];
    }
  }

  /** Reading a numeral back gives the number. */
  lemma {:induction false} NatToStringValue(n: nat)
    ensures DigitsValue(NatToString(n), false) == n
    decreases n
  {
    if n >= 10 {
      var s := NatToString(n);
      NatToStringValue(n / 10);
      assert s[..|s| - 1] == NatToString(n / 10);
    }
  }

  /** `parseInt` reads back the model's plain numeral of every integer.
      JavaScript's `String(n)` is that numeral only below 10^21, and a double
      holds every integer exactly only up to 2^53. */
  lemma ParseIntNumberToString(n: int)
    ensures ParseInt(NumberToString(n)) == Some(n)
  {
    var m: nat := if n < 0 then -n else n;
    if n < 0 {
      ParseIntNegative(m);
    } else {
      ParseIntNumeral(m);
    }
  }

  /** The body of a numeral with no sign is read as a decimal one. */
  lemma NumeralBody(m: nat)
    ensures var u := NatToString(m);
      && !(|u| >= 2 && u[0] == '0' && (u[1] == 'x' || u[1] == 'X'))
      && DigitRun(u, false) == |u|
      && DigitsValue(u[..|u|], false) == m
  {
    var u := NatToString(m);
    NatToStringLeading(m);
    if |u| >= 2 {
      assert u[0] != '0' || m == 0;
    }
    DigitRunAll(u);
    assert u[..|u|] == u;
    NatToStringValue(m);
  }

  lemma {:induction false} DigitRunAll(s: string)
    requires forall i :: 0 <= i < |s| ==> IsDigit(s[i])
    ensures DigitRun(s, false) == |s|
    decreases |s|
  {
    if |s| > 0 {
      DigitRunAll(s[1..]);
    }
  }

  /** A field without a single decimal digit parses to `NaN`. */
  lemma ParseIntNoDigit(s: string)
    requires forall i :: 0 <= i < |s| ==> !IsDigit(s[i])
    ensures ParseInt(s) == None
  {
    NoDigitAfterSign(s);
    ParseIntNoLeadingDigit(s);
  }

  /** `parseInt` gives `NaN` when no digit follows the white space and the sign. */
  lemma ParseIntNoLeadingDigit(s: string)
    requires var t := TrimStart(s);
      var u := if |t| > 0 && (t[0] == '-' || t[0] == '+') then t[1..] else t;
      u == [] || !IsRadixDigit(u[0], false)
    ensures ParseInt(s) == None
  {
  }

  lemma NoDigitAfterSign(s: string)
    requires forall i :: 0 <= i < |s| ==> !IsDigit(s[i])
    ensures var t := TrimStart(s);
      var u := if |t| > 0 && (t[0] == '-' || t[0] == '+') then t[1..] else t;
      u == [] || !IsRadixDigit(u[0], false)
  {
    var t := TrimStart(s);
    var u := if |t| > 0 && (t[0] == '-' || t[0] == '+') then t[1..] else t;
    UnsignedIsSuffix(s);
    if |u| > 0 {
      assert u[0] == s[|s| - |u|];
    }
  }

  /** What `parseInt` reads after the white space and the sign is a suffix
      of its input. */
  lemma UnsignedIsSuffix(s: string)
    ensures var t := TrimStart(s);
      var u := if |t| > 0 && (t[0] == '-' || t[0] == '+') then t[1..] else t;
      |u| <= |s| && u == s[|s| - |u|..]
  {
    var t := TrimStart(s);
    if |t| > 0 {
      assert t[1..] == s[|s| - |t| + 1..];
    }
  }

  lemma ParseIntNumeral(m: nat)
    ensures ParseInt(NatToString(m)) == Some(m)
  {
    var s := NatToString(m);
    assert !IsSpace(s[0]) && s[0] != '-' && s[0] != '+';
    assert TrimStart(s) == s;
    NumeralBody(m);
  }

  lemma ParseIntNegative(m: nat)
    ensures ParseInt("-" + NatToString(m)) == Some(-(m as int))
  {
    var s := "-" + NatToString(m);
    assert !IsSpace(s[0]);
    assert TrimStart(s) == s;
    assert s[1..] == NatToString(m);
    NumeralBody(m);
  }

  /** `Math.round(num / den)` for a positive denominator: the nearest
      integer, a half rounded up (towards positive infinity). */
  function RoundDiv(num: int, den: int): (r: int)
    requires den > 0
    ensures 2 * den * r <= 2 * num + den < 2 * den * (r + 1)
  {
    (2 * num + den) / (2 * den)
  }

  /** A rounded percentage of a part of a whole lies in 0..100. */
  lemma RoundDivPercent(part: int, whole: int)
    requires 0 <= part <= whole && whole > 0
    ensures 0 <= RoundDiv(100 * part, whole) <= 100
  {
    var r := RoundDiv(100 * part, whole);
    var w := 2 * whole;
    assert w * r <= 200 * part + whole <= 201 * whole;
    assert 200 * part + whole < w * (r + 1);
    if r > 100 {
      ScaleMonotone(w, 101, r);
    }
    if r < 0 {
      ScaleMonotone(w, r + 1, 0);
    }
  }

  lemma ScaleMonotone(k: int, a: int, b: int)
    requires k > 0 && a <= b
    ensures k * a <= k * b
  {
    assert k * b - k * a == k * (b - a);
  }

  /** `String.prototype.padStart(2, '0')`. */
  function PadStart2(s: string): (r: string)
    ensures |r| == if |s| >= 2 then |s| else 2
    ensures r[|r| - |s|..] == s
    ensures forall i :: 0 <= i < |r| - |s| ==> r[i] == '0'
  {
    if |s| >= 2 then s else seq(2 - |s|, _ => '0') + s
  }

  // ---------------------------------------------------------------------------
  // Ordering of strings

  /** `a < b` on strings: lexicographic by character, a proper prefix first.
      JavaScript compares UTF-16 code units, which agrees with this order
      except that characters above U+FFFF come before U+E000..U+FFFF there. */
  predicate StringLess(a: string, b: string)
    decreases |a|
  {
    if |a| == 0 then |b| > 0
    else if |b| == 0 then false
    else if a[0] != b[0] then a[0] < b[0]
    else StringLess(a[1..], b[1..])
  }

  lemma {:induction false} StringLessAsymmetric(a: string, b: string)
    ensures StringLess(a, b) ==> !StringLess(b, a)
    decreases |a|
  {
    if |a| > 0 && |b| > 0 && a[0] == b[0] {
      StringLessAsymmetric(a[1..], b[1..]);
    }
  }

  /** If `a < c` then `b` is above `a` or below `c`: not-less-than is transitive. */
  lemma {:induction false} StringLessSplits(a: string, b: string, c: string)
    ensures StringLess(a, c) ==> StringLess(a, b) || StringLess(b, c)
    decreases |a|
  {
    if |a| > 0 && |b| > 0 && |c| > 0 && a[0] == b[0] && b[0] == c[0] {
      StringLessSplits(a[1..], b[1..], c[1..]);
    }
  }
}
