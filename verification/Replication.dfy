/** OSM replication bookkeeping: state files, diff paths and the list of diffs to apply. */
module Replication {
  import opened Wrappers

  /** Raised as ValueError by the source. */
  datatype Error = NegativeSequence | NoSequenceNumber | BadInteger

  datatype Result<T> = Ok(value: T) | Err(error: Error)

  datatype State = State(sequence: int, timestamp: string)

  // ----- characters, as Python classifies them

  predicate IsBreak(c: char) {
    c in {'\n', '\r', '\U{0b}', '\U{0c}', '\U{1c}', '\U{1d}', '\U{1e}', '\U{85}', '\U{2028}', '\U{2029}'}
  }

  predicate IsSpace(c: char) {
    || IsBreak(c)
    || c in {' ', '\t', '\U{1f}', '\U{a0}', '\U{1680}', '\U{202f}', '\U{205f}', '\U{3000}'}
    || '\U{2000}' <= c <= '\U{200a}'
  }

  predicate IsDigit(c: char) { '0' <= c <= '9' }

  predicate Unbroken(s: string) { forall c | c in s :: !IsBreak(c) }

  /** One line without outer whitespace. */
  predicate Clean(s: string) {
    Unbroken(s) && (s != "" ==> !IsSpace(s[0]) && !IsSpace(s[|s| - 1]))
  }

  // ----- string operations

  function FirstBreak(s: string): (i: nat)
    ensures i <= |s| && (forall k | 0 <= k < i :: !IsBreak(s[k])) && (i < |s| ==> IsBreak(s[i]))
  {
    if s == "" || IsBreak(s[0]) then 0 else 1 + FirstBreak(s[1..])
  }

  /** splitlines: a carriage return and line feed count once, and a final break opens no line. */
  function SplitLines(s: string): (lines: seq<string>)
    ensures forall line | line in lines :: Unbroken(line)
    decreases |s|
  {
    if s == "" then []
    else
      var i := FirstBreak(s);
      if i == |s| then [s]
      else
        var next := if s[i] == '\r' && i + 1 < |s| && s[i + 1] == '\n' then i + 2 else i + 1;
        [s[..i]] + SplitLines(s[next..])
  }

  function StripStart(s: string): string { if s != "" && IsSpace(s[0]) then StripStart(s[1..]) else s }

  function StripEnd(s: string): string {
    if s != "" && IsSpace(s[|s| - 1]) then StripEnd(s[..|s| - 1]) else s
  }

  function Strip(s: string): string { StripEnd(StripStart(s)) }

  function IndexOf(s: string, c: char): (i: nat)
    ensures i <= |s| && (forall k | 0 <= k < i :: s[k] != c) && (i < |s| ==> s[i] == c)
  {
    if s == "" || s[0] == c then 0 else 1 + IndexOf(s[1..], c)
  }

  /** Every occurrence of one character. */
  function ReplaceChar(s: string, c: char, sub: string): string {
    if s == "" then "" else (if s[0] == c then sub else [s[0]]) + ReplaceChar(s[1..], c, sub)
  }

  /** Every occurrence of two characters, left to right, not overlapping. */
  function ReplacePair(s: string, a: char, b: char, sub: char): string
    decreases |s|
  {
    if s == "" then ""
    else if |s| >= 2 && s[0] == a && s[1] == b then [sub] + ReplacePair(s[2..], a, b, sub)
    else [s[0]] + ReplacePair(s[1..], a, b, sub)
  }

  function Escape(s: string): string { ReplaceChar(ReplaceChar(s, '\\', "\\\\"), ':', "\\:") }

  function Unescape(s: string): string { ReplacePair(ReplacePair(s, '\\', ':', ':'), '\\', '\\', '\\') }

  // ----- integers

  function Digit(d: nat): char
    requires d < 10
  {
    '0' + d as char
  }

  function DigitValue(c: char): nat
    requires IsDigit(c)
  {
    (c - '0') as nat
  }

  function Digits(n: nat): (s: string)
    ensures s != "" && forall c | c in s :: IsDigit(c)
  {
    if n < 10 then [Digit(n)] else Digits(n / 10) + [Digit(n % 10)]
  }

  function ToText(n: int): string { if n < 0 then "-" + Digits(-n) else Digits(n) }

  /** The number written by the digits of `s`; everything else is skipped. */
  function Value(s: string): nat {
    if s == "" then 0
    else
      var k := |s| - 1;
      if IsDigit(s[k]) then 10 * Value(s[..k]) + DigitValue(s[k]) else Value(s[..k])
  }

  /** Digits, possibly grouped by single underscores. */
  predicate IsNumeral(s: string) {
    && s != "" && IsDigit(s[0]) && IsDigit(s[|s| - 1])
    && (forall c | c in s :: IsDigit(c) || c == '_')
    && forall k | 0 <= k < |s| - 1 :: s[k] == '_' ==> s[k + 1] != '_'
  }

  function ParseInt(s: string): Result<int> {
    if IsNumeral(s) then Ok(Value(s))
    else if s != "" && s[0] == '-' && IsNumeral(s[1..]) then Ok(-(Value(s[1..]) as int))
    else if s != "" && s[0] == '+' && IsNumeral(s[1..]) then Ok(Value(s[1..]))
    else Err(BadInteger)
  }

  // ----- state files

  /** What one line contributes, if anything. */
  function FieldOf(line: string): Option<(string, string)> {
    var l := Strip(line);
    var i := IndexOf(l, '=');
    if l == "" || l[0] == '#' || i == |l| then None
    else Some((Strip(l[..i]), Unescape(Strip(l[i + 1..]))))
  }

  /** The dictionary after all lines; a later key wins. */
  function Fields(lines: seq<string>): map<string, string> {
    if lines == [] then map[]
    else
      var k := |lines| - 1;
      match FieldOf(lines[k])
      case None => Fields(lines[..k])
      case Some((key, value)) => Fields(lines[..k])[key := value]
  }

  function StateOf(fields: map<string, string>): Result<State> {
    if "sequenceNumber" !in fields then Err(NoSequenceNumber)
    else match ParseInt(fields["sequenceNumber"])
      case Err(e) => Err(e)
      case Ok(n) => Ok(State(n, if "timestamp" in fields then fields["timestamp"] else ""))
  }

  function Parsed(text: string): Result<State> { StateOf(Fields(SplitLines(text))) }

  method ParseState(text: string) returns (r: Result<State>)
    ensures r == Parsed(text)
  {
    hide SplitLines, Strip, IndexOf, Unescape, ParseInt;
    var lines := SplitLines(text);
    var fields: map<string, string> := map[];
    for k := 0 to |lines|
      invariant fields == Fields(lines[..k])
    {
      assert lines[..k + 1][..k] == lines[..k];
      var line := Strip(lines[k]);
      if line == "" || line[0] == '#' {
        continue;
      }
      var i := IndexOf(line, '=');
      if i == |line| {
        continue;
      }
      fields := fields[Strip(line[..i]) := Unescape(Strip(line[i + 1..]))];
    }
    assert lines[..|lines|] == lines;
    assert fields == Fields(lines);
    hide Fields;
    if "sequenceNumber" !in fields {
      return Err(NoSequenceNumber);
    }
    match ParseInt(fields["sequenceNumber"]) {
      case Err(e) => return Err(e);
      case Ok(n) => return Ok(State(n, if "timestamp" in fields then fields["timestamp"] else ""));
    }
  }

  function FormatState(s: State): string {
    "sequenceNumber=" + ToText(s.sequence) + "\n" + "timestamp=" + Escape(s.timestamp) + "\n"
  }

  // ----- escaping undoes itself

  lemma ReplaceCharCons(c: char, s: string, x: char, sub: string)
    ensures ReplaceChar([c] + s, x, sub) == (if c == x then sub else [c]) + ReplaceChar(s, x, sub)
  {
    assert ([c] + s)[1..] == s;
  }

  lemma EscapeCons(c: char, s: string)
    ensures Escape([c] + s) == (if c == '\\' then "\\\\" else if c == ':' then "\\:" else [c]) + Escape(s)
  {
    hide ReplaceChar;
    ReplaceCharCons(c, s, '\\', "\\\\");
    var d := ReplaceChar(s, '\\', "\\\\");
    if c == '\\' {
      ReplaceCharCons('\\', "\\" + d, ':', "\\:");
      ReplaceCharCons('\\', d, ':', "\\:");
      assert "\\\\" + d == "\\" + ("\\" + d);
      assert "\\\\" + Escape(s) == "\\" + ("\\" + Escape(s));
    } else {
      ReplaceCharCons(c, d, ':', "\\:");
    }
  }

  lemma {:induction false} ColonsUnescape(s: string)
    ensures ReplacePair(Escape(s), '\\', ':', ':') == ReplaceChar(s, '\\', "\\\\")
    ensures Escape(s) != "" ==> Escape(s)[0] != ':'
    decreases |s|
  {
    if s != "" {
      var c, t := s[0], s[1..];
      assert s == [c] + t;
      EscapeCons(c, t);
      ColonsUnescape(t);
      var e := Escape(t);
      hide Escape;
      if c == '\\' {
        assert ("\\\\" + e)[1..] == "\\" + e && ("\\" + e)[1..] == e;
        assert ReplacePair("\\" + e, '\\', ':', ':') == "\\" + ReplacePair(e, '\\', ':', ':');
        assert ReplacePair("\\\\" + e, '\\', ':', ':') == "\\" + ReplacePair("\\" + e, '\\', ':', ':');
        assert "\\" + ("\\" + ReplacePair(e, '\\', ':', ':')) == "\\\\" + ReplacePair(e, '\\', ':', ':');
      } else if c == ':' {
        assert ("\\:" + e)[2..] == e;
      } else {
        assert ([c] + e)[1..] == e;
      }
    }
  }

  lemma {:induction false} BackslashesUnescape(s: string)
    ensures ReplacePair(ReplaceChar(s, '\\', "\\\\"), '\\', '\\', '\\') == s
    decreases |s|
  {
    if s != "" {
      var d := ReplaceChar(s[1..], '\\', "\\\\");
      BackslashesUnescape(s[1..]);
      assert s == [s[0]] + s[1..];
      if s[0] == '\\' {
        assert ("\\\\" + d)[2..] == d;
      } else {
        assert ([s[0]] + d)[1..] == d;
      }
    }
  }

  lemma UnescapeEscape(s: string)
    ensures Unescape(Escape(s)) == s
  {
    ColonsUnescape(s);
    BackslashesUnescape(s);
  }

  // ----- integers undo themselves

  lemma ValueSnoc(s: string, c: char)
    requires IsDigit(c)
    ensures Value(s + [c]) == 10 * Value(s) + DigitValue(c)
  {
    assert (s + [c])[..|s|] == s;
  }

  lemma {:induction false} DigitsRoundTrip(n: nat)
    ensures Value(Digits(n)) == n
  {
    if n < 10 {
      assert Digits(n) == "" + [Digit(n)];
      ValueSnoc("", Digit(n));
    } else {
      DigitsRoundTrip(n / 10);
      ValueSnoc(Digits(n / 10), Digit(n % 10));
    }
  }

  lemma DigitsAreNumeral(n: nat)
    ensures IsNumeral(Digits(n))
  {
    var d := Digits(n);
    hide Digits;
    assert d[0] in d && d[|d| - 1] in d && forall k | 0 <= k < |d| :: d[k] in d;
  }

  lemma ParseIntUndoesToText(n: int)
    ensures ParseInt(ToText(n)) == Ok(n)
    ensures forall c | c in ToText(n) :: IsDigit(c) || c == '-'
  {
    var m := if n < 0 then -n else n;
    var d := Digits(m);
    DigitsRoundTrip(m);
    DigitsAreNumeral(m);
    hide Digits, Value, IsNumeral;
    assert ToText(n) == if n < 0 then "-" + d else d;
    assert d[0] in d;
    if n < 0 {
      SignedText(d);
    } else {
      UnsignedText(d);
    }
  }

  lemma SignedText(d: string)
    requires IsNumeral(d) && d != ""
    ensures ParseInt("-" + d).Ok? && ParseInt("-" + d).value + Value(d) == 0
  {
    assert ("-" + d)[1..] == d;
    hide IsNumeral, Value;
  }

  lemma UnsignedText(d: string)
    requires IsNumeral(d) && d != "" && IsDigit(d[0])
    ensures ParseInt(d).Ok? && ParseInt(d).value == Value(d)
  {
    hide IsNumeral, Value;
  }

  // ----- lines

  lemma SplitOneLine(line: string, rest: string)
    requires Unbroken(line)
    ensures SplitLines(line + "\n" + rest) == [line] + SplitLines(rest)
  {
    var s := line + "\n" + rest;
    var i := FirstBreak(s);
    assert s[|line|] == '\n' && forall k | 0 <= k < |line| :: s[k] in line;
    assert i == |line|;
    assert s[..i] == line && s[i + 1..] == rest;
  }

  predicate OuterClean(s: string) { s != "" ==> !IsSpace(s[0]) && !IsSpace(s[|s| - 1]) }

  lemma StripOfClean(s: string)
    requires OuterClean(s)
    ensures Strip(s) == s
  {
  }

  lemma {:induction false} StripMakesClean(s: string)
    ensures OuterClean(Strip(s)) && forall c | c in Strip(s) :: c in s
  {
    StartIsClean(s);
    EndIsClean(StripStart(s));
  }

  lemma {:induction false} StartIsClean(s: string)
    ensures StripStart(s) != "" ==> !IsSpace(StripStart(s)[0])
    ensures forall c | c in StripStart(s) :: c in s
  {
    if s != "" && IsSpace(s[0]) {
      StartIsClean(s[1..]);
    }
  }

  lemma {:induction false} EndIsClean(s: string)
    ensures StripEnd(s) != "" ==> !IsSpace(StripEnd(s)[|StripEnd(s)| - 1]) && StripEnd(s)[0] == s[0]
    ensures |StripEnd(s)| <= |s| && forall c | c in StripEnd(s) :: c in s
  {
    if s != "" && IsSpace(s[|s| - 1]) {
      EndIsClean(s[..|s| - 1]);
    }
  }

  lemma FieldOfLine(key: string, value: string)
    requires key != "" && key[0] != '#' && '=' !in key && OuterClean(key) && OuterClean(value)
    ensures FieldOf(key + "=" + value) == Some((key, Unescape(value)))
  {
    var line := key + "=" + value;
    StripOfClean(line);
    StripOfClean(key);
    StripOfClean(value);
    var i := IndexOf(line, '=');
    assert line[|key|] == '=' && forall k | 0 <= k < |key| :: line[k] in key;
    assert i == |key|;
    assert line[..i] == key && line[i + 1..] == value;
  }

  lemma {:induction false} EscapeKeepsEnds(s: string)
    ensures forall c | c in Escape(s) :: c in s || c == '\\' || c == ':'
    ensures s == "" <==> Escape(s) == ""
    ensures s != "" ==> (Escape(s)[0] == s[0] || Escape(s)[0] == '\\') && Escape(s)[|Escape(s)| - 1] == s[|s| - 1]
    decreases |s|
  {
    if s != "" {
      assert s == [s[0]] + s[1..];
      EscapeCons(s[0], s[1..]);
      EscapeKeepsEnds(s[1..]);
      hide Escape;
    }
  }

  lemma {:induction false} PairAbsent(s: string, a: char, b: char, sub: char)
    requires a !in s
    ensures ReplacePair(s, a, b, sub) == s
    decreases |s|
  {
    if s != "" {
      assert s[0] in s && forall c | c in s[1..] :: c in s;
      PairAbsent(s[1..], a, b, sub);
    }
  }

  /** Printing and parsing a clean state gives it back, whatever backslashes and colons it holds. */
  lemma ParseUndoesFormat(s: State)
    requires Clean(s.timestamp)
    ensures Parsed(FormatState(s)) == Ok(s)
  {
    hide SplitLines, FieldOf, Escape, Unescape, ToText, ParseInt, Fields, IsBreak, IsSpace;
    var number, escaped := ToText(s.sequence), Escape(s.timestamp);
    ParseIntUndoesToText(s.sequence);
    var first, second := "sequenceNumber=" + number, "timestamp=" + escaped;
    FormattedLines(s);
    NumberIsOuterClean(s.sequence);
    EscapeKeepsEnds(s.timestamp);
    PlainCharacters();
    FieldOfLine("sequenceNumber", number);
    FieldOfLine("timestamp", escaped);
    assert "sequenceNumber" + "=" + number == first && "timestamp" + "=" + escaped == second;
    NothingToUnescape(number);
    UnescapeEscape(s.timestamp);
    FieldsOfTwo(first, second);
    assert "sequenceNumber"[0] != "timestamp"[0];
  }

  lemma PlainCharacters()
    ensures OuterClean("sequenceNumber") && OuterClean("timestamp") && !IsSpace('\\') && !IsSpace(':')
    ensures forall c | IsDigit(c) || c == '-' || c in "sequenceNumber=" || c in "timestamp=" || c == '\\' || c == ':' :: !IsBreak(c)
  {
  }

  lemma FormattedLines(s: State)
    requires Clean(s.timestamp)
    ensures SplitLines(FormatState(s)) == ["sequenceNumber=" + ToText(s.sequence), "timestamp=" + Escape(s.timestamp)]
  {
    hide SplitLines, Escape, ToText, IsBreak, IsSpace;
    var first, second := "sequenceNumber=" + ToText(s.sequence), "timestamp=" + Escape(s.timestamp);
    PlainCharacters();
    ParseIntUndoesToText(s.sequence);
    EscapeKeepsEnds(s.timestamp);
    SplitOneLine(first, second + "\n");
    SplitOneLine(second, "");
    NoLines();
    assert FormatState(s) == first + "\n" + (second + "\n");
    assert second + "\n" + "" == second + "\n";
  }

  lemma NoLines()
    ensures SplitLines("") == []
  {
  }

  lemma NumberIsOuterClean(n: int)
    ensures OuterClean(ToText(n))
  {
    var t := ToText(n);
    ParseIntUndoesToText(n);
    hide ToText;
    if t != "" {
      assert t[0] in t && t[|t| - 1] in t;
    }
  }

  lemma NothingToUnescape(s: string)
    ensures '\\' !in s ==> Unescape(s) == s
  {
    if '\\' !in s {
      PairAbsent(s, '\\', ':', ':');
      PairAbsent(s, '\\', '\\', '\\');
    }
  }

  lemma FieldsOfTwo(first: string, second: string)
    requires FieldOf(first).Some? && FieldOf(second).Some?
    ensures var (k, v), (l, w) := FieldOf(first).value, FieldOf(second).value;
      Fields([first, second]) == map[][k := v][l := w]
  {
    hide FieldOf;
    assert [first, second][..1] == [first] && [first][..0] == [];
    assert Fields([]) == map[];
    assert Fields([first]) == map[][FieldOf(first).value.0 := FieldOf(first).value.1];
  }

  // ----- and nothing else comes back

  lemma {:induction false} ReplaceKeepsClean(s: string, a: char, b: char, sub: char)
    requires !IsSpace(sub)
    ensures var r := ReplacePair(s, a, b, sub);
      && (forall c | c in r :: c in s || c == sub)
      && (s == "" <==> r == "")
      && (s != "" ==> (r[0] == s[0] || r[0] == sub) && (r[|r| - 1] == s[|s| - 1] || r[|r| - 1] == sub))
    decreases |s|
  {
    if s != "" {
      var pair := |s| >= 2 && s[0] == a && s[1] == b;
      var h, n := if pair then sub else s[0], if pair then 2 else 1;
      var rest := ReplacePair(s[n..], a, b, sub);
      ReplaceKeepsClean(s[n..], a, b, sub);
      assert ReplacePair(s, a, b, sub) == [h] + rest;
      hide ReplacePair;
      assert forall c | c in s[n..] :: c in s;
      assert rest == "" ==> ([h] + rest)[|[h] + rest| - 1] == h && |s| == n;
      assert rest != "" ==> ([h] + rest)[|[h] + rest| - 1] == rest[|rest| - 1] && s[n..][|s| - n - 1] == s[|s| - 1];
    }
  }

  lemma UnescapeKeepsClean(s: string)
    requires Clean(s)
    ensures Clean(Unescape(s))
  {
    ReplaceKeepsClean(s, '\\', ':', ':');
    ReplaceKeepsClean(ReplacePair(s, '\\', ':', ':'), '\\', '\\', '\\');
    hide ReplacePair;
  }

  lemma FieldIsClean(line: string)
    requires Unbroken(line)
    ensures FieldOf(line).Some? ==> Clean(FieldOf(line).value.1)
  {
    var l := Strip(line);
    var i := IndexOf(l, '=');
    StripMakesClean(line);
    if i < |l| {
      StripMakesClean(l[i + 1..]);
      assert forall c | c in l[i + 1..] :: c in l;
      var v := Strip(l[i + 1..]);
      assert Clean(v);
      UnescapeKeepsClean(v);
      hide Strip, Unescape;
    }
  }

  predicate AllClean(fields: map<string, string>) { forall key | key in fields :: Clean(fields[key]) }

  lemma StillClean(fields: map<string, string>, key: string, value: string)
    requires AllClean(fields) && Clean(value)
    ensures AllClean(fields[key := value])
  {
    hide Clean;
  }

  lemma {:induction false} FieldsAreClean(lines: seq<string>)
    requires forall line | line in lines :: Unbroken(line)
    ensures AllClean(Fields(lines))
    decreases |lines|
  {
    hide FieldOf, Clean, Unbroken;
    if lines != [] {
      var k := |lines| - 1;
      assert lines[k] in lines && forall line | line in lines[..k] :: line in lines;
      FieldsAreClean(lines[..k]);
      hide AllClean;
      FieldIsClean(lines[k]);
      if FieldOf(lines[k]).Some? {
        StillClean(Fields(lines[..k]), FieldOf(lines[k]).value.0, FieldOf(lines[k]).value.1);
      }
    }
  }

  /** The round trip holds exactly for timestamps on one line without outer whitespace. */
  lemma RoundTripExactly(s: State)
    ensures Parsed(FormatState(s)) == Ok(s) <==> Clean(s.timestamp)
  {
    if Clean(s.timestamp) {
      ParseUndoesFormat(s);
    } else {
      FieldsAreClean(SplitLines(FormatState(s)));
      hide Fields, Clean, FormatState;
      EmptyIsClean();
    }
  }

  lemma EmptyIsClean()
    ensures Clean("")
  {
  }

  // ----- paths of diffs

  function ZFill(s: string, width: nat): string
    decreases width - |s|
  {
    if |s| >= width then s else ZFill("0" + s, width)
  }

  const MIN_WIDTH := 9

  function Width(len: nat): nat { if len > MIN_WIDTH then len + (3 - len % 3) % 3 else MIN_WIDTH }

  function Groups(s: string): seq<string> {
    if |s| <= 3 then (if s == "" then [] else [s]) else [s[..3]] + Groups(s[3..])
  }

  function Join(parts: seq<string>): string {
    if parts == [] then "" else if |parts| == 1 then parts[0] else parts[0] + "/" + Join(parts[1..])
  }

  function PathGroups(n: nat): seq<string> { Groups(ZFill(Digits(n), Width(|Digits(n)|))) }

  function SequencePath(n: int): Result<string> {
    if n < 0 then Err(NegativeSequence) else Ok(Join(PathGroups(n)))
  }

  lemma {:induction false} ValueAppend(a: string, b: string, c: string)
    requires Value(a) == Value(b)
    ensures Value(a + c) == Value(b + c)
    decreases |c|
  {
    if c == "" {
      assert a + c == a && b + c == b;
    } else {
      var k := |c| - 1;
      assert (a + c)[..|a + c| - 1] == a + c[..k] && (b + c)[..|b + c| - 1] == b + c[..k];
      ValueAppend(a, b, c[..k]);
    }
  }

  lemma {:induction false} ZFillFacts(s: string, width: nat)
    ensures var z := ZFill(s, width);
      && |z| == (if |s| >= width then |s| else width) && Value(z) == Value(s)
      && ((forall c | c in s :: IsDigit(c)) ==> forall c | c in z :: IsDigit(c))
    decreases width - |s|
  {
    if |s| < width {
      ZFillFacts("0" + s, width);
      assert Value("0") == 0 by { assert "0"[..0] == ""; }
      ValueAppend("0", "", s);
      assert "" + s == s;
    }
  }

  function Unslashed(s: string): string {
    if s == "" then "" else (if s[0] == '/' then "" else [s[0]]) + Unslashed(s[1..])
  }

  lemma {:induction false} UnslashedAppend(a: string, b: string)
    ensures Unslashed(a + b) == Unslashed(a) + Unslashed(b)
    ensures '/' !in a ==> Unslashed(a) == a
    decreases |a|
  {
    if a == "" {
      assert a + b == b;
    } else {
      assert (a + b)[1..] == a[1..] + b && a == [a[0]] + a[1..];
      UnslashedAppend(a[1..], b);
    }
  }

  lemma JoinCons(head: string, parts: seq<string>)
    requires parts != []
    ensures Join([head] + parts) == head + ("/" + Join(parts))
  {
    assert ([head] + parts)[1..] == parts;
    assert head + "/" + Join(parts) == head + ("/" + Join(parts));
  }

  lemma OneSlash()
    ensures Unslashed("/") == ""
  {
    assert "/"[1..] == "";
  }

  lemma {:induction false} GroupsFacts(s: string)
    requires |s| % 3 == 0 && '/' !in s
    ensures Unslashed(Join(Groups(s))) == s
    ensures 3 * |Groups(s)| == |s| && forall g | g in Groups(s) :: |g| == 3 && forall c | c in g :: c in s
    decreases |s|
  {
    hide Unslashed;
    if |s| <= 3 {
      UnslashedAppend(s, "");
    } else {
      var head, tail := s[..3], s[3..];
      assert s == head + tail && '/' !in head && '/' !in tail;
      GroupsFacts(tail);
      JoinCons(head, Groups(tail));
      hide Join;
      UnslashedAppend(head, "/" + Join(Groups(tail)));
      UnslashedAppend("/", Join(Groups(tail)));
      OneSlash();
    }
  }

  lemma WidthIsWhole(len: nat)
    ensures Width(len) % 3 == 0 && len <= Width(len) && MIN_WIDTH <= Width(len)
  {
  }

  /** A path has at least three groups of exactly three digits, and removing the slashes gives the
      number back. */
  lemma PathRoundTrip(n: nat)
    ensures SequencePath(n) == Ok(Join(PathGroups(n)))
    ensures Value(Unslashed(Join(PathGroups(n)))) == n
    ensures |PathGroups(n)| >= 3 && forall g | g in PathGroups(n) :: |g| == 3 && forall c | c in g :: IsDigit(c)
  {
    hide ZFill, Groups, Value, Unslashed;
    var d := Digits(n);
    hide Digits;
    WidthIsWhole(|d|);
    ZFillFacts(d, Width(|d|));
    GroupsFacts(ZFill(d, Width(|d|)));
    DigitsRoundTrip(n);
    hide Join;
  }

  /** So no two sequence numbers share a path. */
  lemma PathIsInjective(m: int, n: int)
    requires SequencePath(m).Ok? && SequencePath(m) == SequencePath(n)
    ensures m == n
  {
    PathRoundTrip(m);
    PathRoundTrip(n);
    hide Join, PathGroups, Unslashed, Value;
  }

  // ----- pending diffs

  function Range(lo: int, hi: int): (r: seq<int>)
    ensures |r| == if lo < hi then hi - lo else 0
    ensures forall k | 0 <= k < |r| :: r[k] == lo + k
    decreases hi - lo
  {
    if lo >= hi then [] else [lo] + Range(lo + 1, hi)
  }

  /** Python's seqs[:k]. */
  function Prefix(s: seq<int>, k: int): seq<int> {
    if k >= |s| then s else if k >= 0 then s[..k] else if |s| + k >= 0 then s[..|s| + k] else []
  }

  /** A missing or zero batch means everything. */
  function Pending(local: int, latest: int, maxBatch: Option<int>): seq<int> {
    if latest <= local then []
    else
      var seqs := Range(local + 1, latest + 1);
      if maxBatch.None? || maxBatch.value == 0 then seqs else Prefix(seqs, maxBatch.value)
  }

  /** Runs until current, each applying one batch and resuming after it. */
  function CatchUp(local: int, latest: int, batch: int): seq<seq<int>>
    requires batch >= 1
    decreases latest - local
  {
    var p := Pending(local, latest, Some(batch));
    if p == [] then [] else [p] + CatchUp(p[|p| - 1], latest, batch)
  }

  function Flatten(runs: seq<seq<int>>): seq<int> { if runs == [] then [] else runs[0] + Flatten(runs[1..]) }

  lemma RangeSplit(lo: int, mid: int, hi: int)
    requires lo <= mid <= hi
    ensures Range(lo, mid) + Range(mid, hi) == Range(lo, hi)
  {
    hide Range;
  }

  /** One batched run: a nonempty prefix of what is missing, no longer than the batch. */
  lemma OneBatch(local: int, latest: int, batch: int)
    requires batch >= 1 && local < latest
    ensures var p := Pending(local, latest, Some(batch));
      0 < |p| <= batch && local + |p| <= latest && p == Range(local + 1, local + 1 + |p|)
  {
    hide Range;
  }

  lemma {:induction false} CatchUpIsRange(local: int, latest: int, batch: int)
    requires batch >= 1
    ensures Flatten(CatchUp(local, latest, batch)) == Range(local + 1, latest + 1)
    ensures forall run | run in CatchUp(local, latest, batch) :: 0 < |run| <= batch
    decreases latest - local
  {
    hide Range, Prefix;
    if local < latest {
      OneBatch(local, latest, batch);
      var p := Pending(local, latest, Some(batch));
      hide Pending;
      var mid := p[|p| - 1];
      CatchUpIsRange(mid, latest, batch);
      RangeSplit(local + 1, mid + 1, latest + 1);
      assert ([p] + CatchUp(mid, latest, batch))[1..] == CatchUp(mid, latest, batch);
    }
  }

  /** Batching skips nothing and repeats nothing: the runs together are the unbatched list. */
  lemma CatchUpAppliesAll(local: int, latest: int, batch: int)
    requires batch >= 1
    ensures Flatten(CatchUp(local, latest, batch)) == Pending(local, latest, None)
    ensures forall run | run in CatchUp(local, latest, batch) :: 0 < |run| <= batch
  {
    CatchUpIsRange(local, latest, batch);
    hide CatchUp, Flatten;
  }
}
