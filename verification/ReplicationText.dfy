/** What a state file may look like: lines, comments, spaces, repeated keys and numbers. */
module ReplicationText {
  import opened Wrappers
  import opened Replication

  // ----- characters

  /** Line breaks and white space, by code point. */
  lemma CodePoints(c: char)
    ensures IsBreak(c) <==> c as int in {10, 11, 12, 13, 28, 29, 30, 133, 8232, 8233}
    ensures IsSpace(c) <==> IsBreak(c) || c as int in {9, 31, 32, 160, 5760, 8239, 8287, 12288} || 8192 <= c as int <= 8202
    ensures IsDigit(c) <==> 48 <= c as int <= 57
  {
  }

  // ----- lines

  /** Text without a break is one line, and no text none. */
  lemma LastLine(line: string)
    requires Unbroken(line)
    ensures SplitLines(line) == if line == "" then [] else [line]
  {
    hide IsBreak;
  }

  /** A carriage return and a line feed are one break together, and any other break character is one by itself. */
  lemma LineEnds(line: string, brk: string, rest: string)
    requires Unbroken(line)
    requires brk == "\r\n" || (|brk| == 1 && IsBreak(brk[0]) && !(brk == "\r" && rest != "" && rest[0] == '\n'))
    ensures SplitLines(line + brk + rest) == [line] + SplitLines(rest)
  {
    var s := line + brk + rest;
    var i := FirstBreak(s);
    assert IsBreak('\r') && s[|line|] == brk[0];
    assert forall k | 0 <= k < |line| :: s[k] == line[k] && line[k] in line;
    hide IsBreak;
    assert i == |line|;
    assert s[..i] == line && s[i + |brk|..] == rest;
    if |brk| == 1 && rest != "" {
      assert s[i + 1] == rest[0];
    }
  }

  // ----- white space

  predicate AllSpace(s: string) { forall c | c in s :: IsSpace(c) }

  lemma {:induction false} StartStripped(a: string, s: string)
    requires AllSpace(a) && (s != "" ==> !IsSpace(s[0]))
    ensures StripStart(a + s) == s
    decreases |a|
  {
    hide IsSpace;
    if a == "" {
      assert a + s == s;
    } else {
      assert (a + s)[1..] == a[1..] + s && (a + s)[0] == a[0] && a[0] in a;
      assert forall c | c in a[1..] :: c in a;
      StartStripped(a[1..], s);
    }
  }

  lemma {:induction false} EndStripped(s: string, b: string)
    requires AllSpace(b) && (s != "" ==> !IsSpace(s[|s| - 1]))
    ensures StripEnd(s + b) == s
    decreases |b|
  {
    hide IsSpace;
    if b == "" {
      assert s + b == s;
    } else {
      var k := |b| - 1;
      assert (s + b)[..|s| + k] == s + b[..k] && (s + b)[|s| + k] == b[k] && b[k] in b;
      assert forall c | c in b[..k] :: c in b;
      EndStripped(s, b[..k]);
    }
  }

  /** Stripping takes off the white space around and nothing else. */
  lemma StripTakesOff(a: string, s: string, b: string)
    requires AllSpace(a) && AllSpace(b) && OuterClean(s)
    ensures Strip(a + s + b) == s
  {
    if s == "" {
      assert a + s + b == (a + b) + "";
      StartStripped(a + b, "");
      EndStripped("", "");
      assert "" + "" == "";
    } else {
      assert a + s + b == a + (s + b) && (s + b)[0] == s[0];
      StartStripped(a, s + b);
      EndStripped(s, b);
    }
    hide IsSpace;
  }

  // ----- fields

  lemma FirstEquals(key: string, rest: string)
    requires '=' !in key
    ensures IndexOf(key + "=" + rest, '=') == |key|
  {
    var l := key + "=" + rest;
    var i := IndexOf(l, '=');
    assert l[|key|] == '=' && forall k | 0 <= k < |key| :: l[k] == key[k] && key[k] in key;
  }

  /** White space around the key, the equals sign and the value does not matter. */
  lemma SpacedField(a: string, key: string, b: string, c: string, value: string, d: string)
    requires AllSpace(a) && AllSpace(b) && AllSpace(c) && AllSpace(d)
    requires key != "" && key[0] != '#' && '=' !in key && OuterClean(key) && value != "" && OuterClean(value)
    ensures FieldOf(a + key + b + "=" + c + value + d) == Some((key, Unescape(value)))
  {
    var l := key + b + "=" + c + value;
    assert a + key + b + "=" + c + value + d == a + l + d;
    assert l[0] == key[0] && l[|l| - 1] == value[|value| - 1];
    StripTakesOff(a, l, d);
    SpaceIsNotEquals(b);
    assert l == (key + b) + "=" + (c + value);
    FirstEquals(key + b, c + value);
    var i := |key + b|;
    assert l[..i] == "" + key + b && l[i + 1..] == c + value + "";
    StripTakesOff("", key, b);
    StripTakesOff(c, value, "");
    hide Strip, Unescape, IsSpace, IndexOf;
  }

  lemma SpaceIsNotEquals(b: string)
    requires AllSpace(b)
    ensures '=' !in b
  {
    assert !IsSpace('=');
    hide IsSpace;
  }

  /** Blank lines, comments and lines without an equals sign contribute nothing. */
  lemma IgnoredLine(a: string, text: string, b: string)
    requires AllSpace(a) && AllSpace(b) && OuterClean(text)
    requires text == "" || text[0] == '#' || '=' !in text
    ensures FieldOf(a + text + b) == None
  {
    StripTakesOff(a, text, b);
    var i := IndexOf(text, '=');
    if i < |text| {
      assert text[i] in text;
    }
    hide Strip, Unescape, IsSpace, IndexOf;
  }

  // ----- lines together

  lemma {:induction false} FieldsJoin(a: seq<string>, b: seq<string>, key: string)
    ensures key in Fields(a + b) <==> key in Fields(a) || key in Fields(b)
    ensures key in Fields(b) ==> Fields(a + b)[key] == Fields(b)[key]
    ensures key !in Fields(b) && key in Fields(a) ==> Fields(a + b)[key] == Fields(a)[key]
    decreases |b|
  {
    hide FieldOf;
    if b == [] {
      assert a + b == a;
    } else {
      var k := |b| - 1;
      assert (a + b)[..|a| + k] == a + b[..k] && (a + b)[|a| + k] == b[k];
      FieldsJoin(a, b[..k], key);
    }
  }

  lemma OneField(line: string)
    ensures Fields([line]) == match FieldOf(line) case None => map[] case Some((k, v)) => map[k := v]
  {
    hide FieldOf;
    assert [line][..0] == [] && Fields([]) == map[];
  }

  /** Of the lines that set a key the last one counts, and lines that contribute nothing may stand anywhere. */
  lemma LastOneCounts(before: seq<string>, line: string, after: seq<string>, key: string, value: string)
    requires FieldOf(line) == Some((key, value)) && key !in Fields(after)
    ensures key in Fields(before + [line] + after) && Fields(before + [line] + after)[key] == value
  {
    OneField(line);
    hide FieldOf, Fields;
    FieldsJoin(before, [line], key);
    FieldsJoin(before + [line], after, key);
  }

  lemma IgnoredAnywhere(before: seq<string>, line: string, after: seq<string>, key: string)
    requires FieldOf(line) == None
    ensures var with, without := Fields(before + [line] + after), Fields(before + after);
      (key in with <==> key in without) && (key in with ==> with[key] == without[key])
  {
    OneField(line);
    hide FieldOf, Fields;
    FieldsJoin(before, [line], key);
    FieldsJoin(before + [line], after, key);
    FieldsJoin(before, after, key);
  }

  // ----- the state

  /** A state needs a sequence number that is an integer; its timestamp may be missing. */
  lemma StateNeedsNumber(text: string)
    ensures var fields := Fields(SplitLines(text));
      && ("sequenceNumber" !in fields ==> Parsed(text) == Err(NoSequenceNumber))
      && ("sequenceNumber" in fields && ParseInt(fields["sequenceNumber"]).Err? ==> Parsed(text) == Err(BadInteger))
      && ("sequenceNumber" in fields && ParseInt(fields["sequenceNumber"]).Ok? ==>
            && Parsed(text).Ok? && Parsed(text).value.sequence == ParseInt(fields["sequenceNumber"]).value
            && ("timestamp" in fields ==> Parsed(text).value.timestamp == fields["timestamp"])
            && ("timestamp" !in fields ==> Parsed(text).value.timestamp == ""))
  {
    hide Fields, SplitLines, IsNumeral, Value;
  }

  // ----- integers

  predicate AllDigits(s: string) { s != "" && forall c | c in s :: '0' <= c <= '9' }

  function Joined(groups: seq<string>): string {
    if groups == [] then "" else if |groups| == 1 then groups[0] else groups[0] + "_" + Joined(groups[1..])
  }

  /** Groups of digits, joined by single underscores. */
  ghost predicate Grouped(s: string) {
    exists groups: seq<string> :: groups != [] && (forall g | g in groups :: AllDigits(g)) && Joined(groups) == s
  }

  lemma DigitsAreNumeral(a: string)
    requires AllDigits(a)
    ensures IsNumeral(a)
  {
    assert a[0] in a && a[|a| - 1] in a && forall k | 0 <= k < |a| :: a[k] in a;
  }

  lemma LongerNumeral(a: string, b: string)
    requires AllDigits(a) && IsNumeral(b)
    ensures IsNumeral(a + "_" + b)
  {
    var s := a + "_" + b;
    assert a[0] in a && s[0] == a[0] && s[|s| - 1] == b[|b| - 1];
    forall k | 0 <= k < |s| ensures IsDigit(s[k]) || s[k] == '_' {
      if k < |a| {
        assert s[k] == a[k] && a[k] in a;
      } else if k > |a| {
        assert s[k] == b[k - |a| - 1] && b[k - |a| - 1] in b;
      }
    }
    forall k | 0 <= k < |a| ensures s[k] != '_' {
      assert s[k] == a[k] && a[k] in a;
    }
    forall k | |a| <= k < |s| - 1 && s[k] == '_' ensures s[k + 1] != '_' {
      assert s[k + 1] == b[k - |a|];
      if k > |a| {
        assert s[k] == b[k - |a| - 1];
      }
    }
  }

  lemma {:induction false} JoinedIsNumeral(groups: seq<string>)
    requires groups != [] && forall g | g in groups :: AllDigits(g)
    ensures IsNumeral(Joined(groups))
    decreases |groups|
  {
    hide AllDigits, IsNumeral;
    assert groups[0] in groups;
    if |groups| == 1 {
      DigitsAreNumeral(groups[0]);
    } else {
      assert forall g | g in groups[1..] :: g in groups;
      JoinedIsNumeral(groups[1..]);
      LongerNumeral(groups[0], Joined(groups[1..]));
    }
  }

  lemma ShorterNumeral(s: string, k: nat)
    requires IsNumeral(s) && k < |s| && s[k] == '_' && forall j | 0 <= j < k :: s[j] != '_'
    ensures AllDigits(s[..k]) && IsNumeral(s[k + 1..])
  {
    var a, b := s[..k], s[k + 1..];
    assert k > 0 && k + 1 < |s|;
    forall j | 0 <= j < k ensures IsDigit(a[j]) {
      assert s[j] in s;
    }
    forall j | 0 <= j < |b| ensures b[j] == s[k + 1 + j] && (IsDigit(b[j]) || b[j] == '_') {
      assert s[k + 1 + j] in s;
    }
    assert b[|b| - 1] == s[|s| - 1];
  }

  lemma {:induction false} NumeralHasGroups(s: string) returns (groups: seq<string>)
    requires IsNumeral(s)
    ensures groups != [] && (forall g | g in groups :: AllDigits(g)) && Joined(groups) == s
    decreases |s|
  {
    var k := IndexOf(s, '_');
    if k == |s| {
      groups := [s];
    } else {
      ShorterNumeral(s, k);
      hide IsNumeral, AllDigits;
      var rest := NumeralHasGroups(s[k + 1..]);
      groups := [s[..k]] + rest;
      assert groups[1..] == rest && s == s[..k] + "_" + s[k + 1..];
    }
  }

  /** Underscores add nothing to the value; a further digit is a further decimal place. */
  lemma ValueSays(s: string, c: char)
    ensures IsDigit(c) ==> Value(s + [c]) == 10 * Value(s) + (c as int - 48)
    ensures !IsDigit(c) ==> Value(s + [c]) == Value(s)
    ensures Value("") == 0
  {
    assert (s + [c])[..|s|] == s;
  }

  /** Exactly the grouped digits, with at most one sign, are integers. */
  lemma IntegersExactly(s: string)
    ensures ParseInt(s).Ok? <==> Grouped(s) || (s != "" && (s[0] == '-' || s[0] == '+') && Grouped(s[1..]))
    ensures Grouped(s) ==> ParseInt(s).value == Value(s)
    ensures s != "" && s[0] == '+' && Grouped(s[1..]) ==> ParseInt(s).value == Value(s[1..])
    ensures s != "" && s[0] == '-' && Grouped(s[1..]) ==> ParseInt(s).value + Value(s[1..]) == 0
  {
    NumeralExactly(s);
    if s != "" {
      NumeralExactly(s[1..]);
      SignIsNoDigit(s);
    }
    hide IsNumeral, Grouped, Value;
  }

  lemma NumeralExactly(s: string)
    ensures IsNumeral(s) <==> Grouped(s)
  {
    hide IsNumeral, AllDigits, Joined;
    if IsNumeral(s) {
      var groups := NumeralHasGroups(s);
    }
    if Grouped(s) {
      var groups: seq<string> :| groups != [] && (forall g | g in groups :: AllDigits(g)) && Joined(groups) == s;
      JoinedIsNumeral(groups);
    }
  }

  lemma SignIsNoDigit(s: string)
    ensures s != "" && (s[0] == '-' || s[0] == '+') ==> !IsNumeral(s)
  {
  }

  // ----- unescaping

  /** An escaped colon is a colon, and what is not escaped stays. */
  lemma UnescapeSays(s: string)
    requires '\\' !in s
    ensures Unescape(s) == s && Unescape("\\:" + s) == ":" + s && Unescape("\\\\" + s) == "\\" + s
  {
    PairAbsent(s, '\\', ':', ':');
    PairAbsent(s, '\\', '\\', '\\');
    assert ("\\:" + s)[2..] == s && (":" + s)[1..] == s && ("\\\\" + s)[2..] == s;
    assert ReplacePair("\\:" + s, '\\', ':', ':') == ":" + s;
    assert ReplacePair(":" + s, '\\', '\\', '\\') == ":" + s;
    KeepsPair(s);
  }

  lemma KeepsPair(s: string)
    requires '\\' !in s
    ensures Unescape("\\\\" + s) == "\\" + s
  {
    PairAbsent(s, '\\', ':', ':');
    PairAbsent(s, '\\', '\\', '\\');
    var t := "\\" + s;
    assert ("\\\\" + s)[1..] == t && t[1..] == s && ("\\\\" + s)[2..] == s;
    assert ReplacePair(t, '\\', ':', ':') == if s != "" && s[0] == ':' then s else t by {
      if s != "" && s[0] == ':' {
        assert t[2..] == s[1..] && s == [':'] + s[1..];
        PairAbsent(s[1..], '\\', ':', ':');
      }
    }
    assert ReplacePair("\\\\" + s, '\\', ':', ':') == "\\" + ReplacePair(t, '\\', ':', ':');
    if s != "" && s[0] == ':' {
      assert ReplacePair(t, '\\', '\\', '\\') == "\\" + ReplacePair(s, '\\', '\\', '\\');
    } else {
      assert "\\" + t == "\\\\" + s;
      assert ReplacePair("\\\\" + s, '\\', '\\', '\\') == "\\" + ReplacePair(s, '\\', '\\', '\\');
    }
  }

  // ----- paths and batches, in numbers

  /** A path is as short as three groups at least and groups of three allow. */
  lemma PathIsShort(n: nat)
    ensures |PathGroups(n)| == if |Digits(n)| <= 9 then 3 else (|Digits(n)| + 2) / 3
  {
    var d := Digits(n);
    ZFillFacts(d, Width(|d|));
    WidthIsWhole(|d|);
    WidthIsLeast(|d|);
    var z := ZFill(d, Width(|d|));
    assert '/' !in z by {
      assert forall c | c in z :: IsDigit(c);
    }
    GroupsFacts(z);
    hide Digits, ZFill, Groups, Width;
  }

  lemma WidthIsLeast(len: nat)
    ensures Width(len) == if len <= 9 then 9 else (len + 2) / 3 * 3
  {
  }

  /** All that is missing, in order; a positive batch takes that many from the front, a negative one leaves that many
      off the end, and zero is no limit. */
  lemma PendingSays(local: int, latest: int, batch: int)
    ensures var all, some := Pending(local, latest, None), Pending(local, latest, Some(batch));
      && |all| == (if local < latest then latest - local else 0) && (forall k | 0 <= k < |all| :: all[k] == local + 1 + k)
      && some <= all
      && |some| == if batch == 0 then |all| else if batch > 0 then (if batch < |all| then batch else |all|)
                   else if |all| + batch > 0 then |all| + batch else 0
  {
    hide Range;
  }
}
