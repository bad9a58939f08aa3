// Day 1, part two (D01/d1p2.py): calibration values from digits that are
// written either as numerals or as the words one .. nine.

module Calibration {
  import opened Wrappers
  import opened Arith
  import opened Text

  /** The spelled digits: `Names[d - 1]` spells `d`. */
  const Names: seq<string> := ["one", "two", "three", "four", "five", "six", "seven", "eight", "nine"]

  /** The numeral of a digit `d`. */
  function Digit(d: nat): char
    requires d <= 9
  {
    '0' + d as char
  }

  // Case folding: `word.lower()` on ASCII text.

  function LowerChar(c: char): char
  {
    if 'A' <= c <= 'Z' then c - 'A' + 'a' else c
  }

  function Lower(s: string): string
  {
    seq(|s|, k requires 0 <= k < |s| => LowerChar(s[k]))
  }

  /** No name is a prefix of another: two names that both start the same
      text are the same name. */
  lemma NamesPrefixFree(a: nat, b: nat, s: string)
    requires a < 9 && b < 9 && Names[a] <= s && Names[b] <= s
    ensures a == b
  {
    NameIndexOf(a);
    NameIndexOf(b);
    assert NameIndex(s) == NameIndex(Names[a]) == NameIndex(Names[b]);
  }

  /** Which name a text can start with, told by its first two letters. */
  function NameIndex(s: string): (k: nat)
    requires |s| >= 2
    ensures k < 9
  {
    match s[0]
    case 'o' => 0
    case 't' => if s[1] == 'w' then 1 else 2
    case 'f' => if s[1] == 'o' then 3 else 4
    case 's' => if s[1] == 'i' then 5 else 6
    case 'e' => 7
    case _ => 8
  }

  lemma NameIndexOf(a: nat)
    requires a < 9
    ensures |Names[a]| >= 3 && NameIndex(Names[a]) == a && !IsDigit(Names[a][0])
  {
  }

  /** The first name at index `k` or later that starts `s`. */
  function FirstName(s: string, k: nat): (r: Option<nat>)
    requires k <= 9
    ensures r.Some? ==> k <= r.value < 9 && Names[r.value] <= s
    ensures r.None? ==> forall j :: k <= j < 9 ==> !(Names[j] <= s)
    decreases 9 - k
  {
    if k == 9 then None
    else if Names[k] <= s then Some(k)
    else FirstName(s, k + 1)
  }

  /** The first two letters pick the only name that can start `s`. */
  lemma FirstNameIs(s: string)
    ensures FirstName(s, 0) == if |s| >= 2 && Names[NameIndex(s)] <= s then Some(NameIndex(s)) else None
  {
    var r := FirstName(s, 0);
    if r.Some? {
      NamePrefixIndex(s, r.value);
    }
  }

  /** A text that starts with a name has that name's index. */
  lemma NamePrefixIndex(s: string, k: nat)
    requires k < 9 && Names[k] <= s
    ensures |s| >= 2 && NameIndex(s) == k
  {
    var m := Names[k];
    NameIndexOf(k);
    assert s[0] == m[0] && s[1] == m[1];
    assert NameIndex(s) == NameIndex(m);
  }

  /** `word_to_num`: the digit a word spells, ignoring case, or `None`. */
  function WordToNum(word: string): (r: Option<nat>)
    ensures r.Some? ==> 1 <= r.value <= 9 && Names[r.value - 1] == Lower(word)
    ensures r.None? ==> Lower(word) !in Names
  {
    var w := Lower(word);
    match FirstName(w, 0)
    case Some(k) =>
      if |Names[k]| == |w| then Some(k + 1)
      else
        assert forall j :: 0 <= j < 9 && Names[j] == w ==> j == k by {
          forall j | 0 <= j < 9 && Names[j] == w
            ensures j == k
          {
            NamesPrefixFree(j, k, w);
          }
        }
        None
    case None => None
  }

  /** A word spells `d` exactly when, in lower case, it is the name of
      `d`. */
  lemma WordToNumSpelled(word: string, d: nat)
    requires 1 <= d <= 9
    ensures WordToNum(word) == Some(d) <==> Lower(word) == Names[d - 1]
  {
    var r := WordToNum(word);
    if Lower(word) == Names[d - 1] {
      assert r.Some?;
      NamesPrefixFree(r.value - 1, d - 1, Lower(word));
    }
  }

  /** Python's `str.isdigit`: non-empty and digits only. */
  predicate IsDigitString(s: string)
  {
    s != [] && forall k :: 0 <= k < |s| ==> IsDigit(s[k])
  }

  /** `convert_to_string`: a numeral stays as it is; a word becomes the
      numeral of the digit it spells, and `"None"` when it spells none. */
  function ConvertToString(num: string): (r: string)
    ensures IsDigitString(num) ==> r == num
    ensures !IsDigitString(num) && WordToNum(num).Some? ==> Decimal(r) == WordToNum(num)
  {
    if IsDigitString(num) then num
    else
      match WordToNum(num)
      case Some(n) => DecimalShow(n); Show(n)
      case None => "None"
  }

  // The pattern `(?=(one|two|...|nine|\d))`: a lookahead, so it matches
  // the empty text at each position and captures what follows there.

  /** What the pattern captures at index `i`: the first name that starts
      there, else the numeral there. */
  function MatchAt(line: string, i: nat): Option<string>
    requires i < |line|
  {
    match FirstName(line[i..], 0)
    case Some(k) => Some(Names[k])
    case None => if IsDigit(line[i]) then Some([line[i]]) else None
  }

  /** `re.findall` with the lookahead pattern, from index `i` on: one
      capture per position where the pattern matches. As every match is
      empty the search moves on by one position, so captures overlap. */
  function Findall(line: string, i: nat): seq<string>
    requires i <= |line|
    decreases |line| - i
  {
    if i == |line| then [] else Prepend(MatchAt(line, i), Findall(line, i + 1))
  }

  /** A capture, if any, in front of the later ones. */
  function Prepend(capture: Option<string>, rest: seq<string>): seq<string>
  {
    match capture
    case Some(m) => [m] + rest
    case None => rest
  }

  /** The digit `d` is written at index `i`: its numeral stands there, or
      its name starts there. */
  predicate SpelledAt(line: string, i: nat, d: nat)
  {
    i < |line| && d <= 9 && (line[i] == Digit(d) || (1 <= d && Names[d - 1] <= line[i..]))
  }

  /** The name of `d` turns into the numeral of `d`. */
  lemma ConvertName(d: nat)
    requires 1 <= d <= 9
    ensures ConvertToString(Names[d - 1]) == [Digit(d)]
  {
    NameWord(d);
    assert ConvertToString(Names[d - 1]) == Show(d);
  }

  lemma NameWord(d: nat)
    requires 1 <= d <= 9
    ensures !IsDigitString(Names[d - 1]) && WordToNum(Names[d - 1]) == Some(d)
  {
    var w := Names[d - 1];
    assert !IsDigit(w[0]);
    assert Lower(w) == w;
    WordToNumSpelled(w, d);
  }

  /** The pattern captures something at `i` exactly when some digit is
      written there, and the capture converts to that digit's numeral. */
  lemma MatchAtSpelled(line: string, i: nat, d: nat)
    requires i < |line| && d <= 9
    ensures SpelledAt(line, i, d) <==> MatchAt(line, i).Some? && ConvertToString(MatchAt(line, i).value) == [Digit(d)]
  {
    match FirstName(line[i..], 0)
    case Some(k) =>
      assert MatchAt(line, i) == Some(Names[k]);
      ConvertName(k + 1);
      NameSpelled(line, i, k, d);
      if [Digit(k + 1)] == [Digit(d)] {
        assert Digit(k + 1) == Digit(d);
      }
    case None => NumeralSpelled(line, i, d);
  }

  /** Where a name starts, the only digit written is the one it names. */
  lemma NameSpelled(line: string, i: nat, k: nat, d: nat)
    requires i < |line| && d <= 9 && k < 9 && Names[k] <= line[i..]
    ensures SpelledAt(line, i, d) <==> d == k + 1
  {
    var s := line[i..];
    NameIndexOf(k);
    assert line[i] == s[0] == Names[k][0];
    if SpelledAt(line, i, d) {
      assert line[i] != Digit(d);
      NamesPrefixFree(k, d - 1, s);
    }
  }

  lemma NumeralSpelled(line: string, i: nat, d: nat)
    requires i < |line| && d <= 9 && FirstName(line[i..], 0).None?
    ensures SpelledAt(line, i, d) <==> MatchAt(line, i).Some? && ConvertToString(MatchAt(line, i).value) == [Digit(d)]
  {
    if IsDigit(line[i]) {
      assert IsDigitString([line[i]]);
      assert MatchAt(line, i) == Some([line[i]]);
    }
    if d >= 1 {
      assert !(Names[d - 1] <= line[i..]);
    }
  }

  /** The pattern captures a name or a single numeral. */
  predicate Captured(m: string)
  {
    m in Names || (|m| == 1 && IsDigit(m[0]))
  }

  lemma {:induction false} FindallCaptured(line: string, i: nat)
    requires i <= |line|
    ensures forall q :: 0 <= q < |Findall(line, i)| ==> Captured(Findall(line, i)[q])
    decreases |line| - i
  {
    if i < |line| {
      FindallCaptured(line, i + 1);
    }
  }

  /** A capture converts to a single numeral. */
  lemma ConvertCaptured(m: string)
    requires Captured(m)
    ensures |ConvertToString(m)| == 1 && IsDigit(ConvertToString(m)[0])
  {
    if m in Names {
      var k :| 0 <= k < 9 && Names[k] == m;
      ConvertName(k + 1);
    } else {
      assert IsDigitString(m);
    }
  }

  /** Nothing is captured from `i` on exactly when no position from `i`
      on has a capture. */
  lemma {:induction false} FindallEmpty(line: string, i: nat)
    requires i <= |line|
    ensures Findall(line, i) == [] <==> forall j :: i <= j < |line| ==> MatchAt(line, j).None?
    decreases |line| - i
  {
    if i < |line| {
      FindallEmpty(line, i + 1);
    }
  }

  /** The first capture is the one at the first position that has one. */
  lemma {:induction false} FindallFirst(line: string, i: nat, p: nat)
    requires i <= p < |line| && MatchAt(line, p).Some?
    requires forall j :: i <= j < p ==> MatchAt(line, j).None?
    ensures Findall(line, i) != [] && Findall(line, i)[0] == MatchAt(line, p).value
    decreases p - i
  {
    if i < p {
      FindallFirst(line, i + 1, p);
    }
  }

  /** No position after `p` has a capture. */
  predicate NoneAfter(line: string, p: nat)
  {
    forall j :: p < j < |line| ==> MatchAt(line, j).None?
  }

  /** The last capture is the one at the last position that has one. */
  lemma {:induction false} FindallLast(line: string, i: nat, p: nat, c: string)
    requires i <= p < |line| && MatchAt(line, p) == Some(c) && NoneAfter(line, p)
    ensures Findall(line, i) != [] && Final(Findall(line, i)) == c
    decreases p - i
  {
    if i < p {
      FindallLast(line, i + 1, p, c);
      PrependKeepsLast(MatchAt(line, i), Findall(line, i + 1));
    } else {
      FindallEmpty(line, p + 1);
      assert Findall(line, p + 1) == [];
      assert Findall(line, p) == [c];
    }
  }

  /** The last element of a non-empty sequence. */
  function Final(s: seq<string>): string
    requires s != []
  {
    s[|s| - 1]
  }

  /** A capture in front keeps the last capture last. */
  lemma PrependKeepsLast(capture: Option<string>, rest: seq<string>)
    requires rest != []
    ensures Prepend(capture, rest) != [] && Final(Prepend(capture, rest)) == Final(rest)
  {
    if capture.Some? {
      assert ([capture.value] + rest)[|rest|] == rest[|rest| - 1];
    }
  }

  /** The calibration value of a line: its first and last captured digits
      read as a two-digit number, or nothing when it has no capture. */
  function LineValue(line: string): nat
  {
    var matches := Findall(line, 0);
    if matches == [] then 0
    else
      FindallCaptured(line, 0);
      ConvertCaptured(matches[0]);
      ConvertCaptured(matches[|matches| - 1]);
      DigitsValue(ConvertToString(matches[0]) + ConvertToString(matches[|matches| - 1]))
  }

  /** A line's value is ten times the first digit written in it plus the
      last one, whether numerals or names. */
  lemma LineValueFirstLast(line: string, i: nat, a: nat, k: nat, b: nat)
    requires i <= k && SpelledAt(line, i, a) && SpelledAt(line, k, b)
    requires forall j, d :: 0 <= j < i ==> !SpelledAt(line, j, d)
    requires forall j, d :: k < j < |line| ==> !SpelledAt(line, j, d)
    ensures LineValue(line) == 10 * a + b
  {
    MatchAtSpelled(line, i, a);
    MatchAtSpelled(line, k, b);
    forall j | 0 <= j < i
      ensures MatchAt(line, j).None?
    {
      CaptureSpelled(line, j);
    }
    forall j | k < j < |line|
      ensures MatchAt(line, j).None?
    {
      CaptureSpelled(line, j);
    }
    FindallFirst(line, 0, i);
    FindallLast(line, 0, k, MatchAt(line, k).value);
    var s := [Digit(a)] + [Digit(b)];
    assert s[..1] == [Digit(a)];
    assert DigitsValue(s[..1]) == a by {
      assert s[..1][..0] == [];
    }
  }

  /** A position with a capture has some digit written at it. */
  lemma CaptureSpelled(line: string, j: nat)
    requires j < |line|
    ensures MatchAt(line, j).Some? ==> exists d :: SpelledAt(line, j, d)
  {
    if MatchAt(line, j).Some? {
      match FirstName(line[j..], 0)
      case Some(k) =>
        assert SpelledAt(line, j, k + 1);
      case None =>
        var d := line[j] as int - '0' as int;
        assert SpelledAt(line, j, d);
    }
  }

  /** A line with no digit written in it has value 0. */
  lemma LineValueNone(line: string)
    requires forall j, d :: 0 <= j < |line| ==> !SpelledAt(line, j, d)
    ensures LineValue(line) == 0
  {
    forall j | 0 <= j < |line|
      ensures MatchAt(line, j).None?
    {
      CaptureSpelled(line, j);
    }
    FindallEmpty(line, 0);
  }

  /** The sum of the lines' calibration values. */
  function Total(data: seq<string>): nat
  {
    if data == [] then 0 else Total(data[..|data| - 1]) + LineValue(data[|data| - 1])
  }

  /** The main loop: adds up each line's first and last captured digits,
      skipping lines with no capture. */
  method SumCalibrationValues(data: seq<string>) returns (runningTotal: nat)
    ensures runningTotal == Total(data)
  {
    runningTotal := 0;
    for k := 0 to |data|
      invariant runningTotal == Total(data[..k])
    {
      var finalNum := CalibrationValue(data[k]);
      runningTotal := runningTotal + finalNum;
      assert data[..k + 1][..k] == data[..k];
    }
    assert data[..|data|] == data;
  }

  /** The body of the main loop for one line; nothing is added for a line
      with no capture. */
  method CalibrationValue(line: string) returns (finalNum: nat)
    ensures finalNum == LineValue(line)
  {
    var matches := Findall(line, 0);
    finalNum := 0;
    if matches != [] {
      FindallCaptured(line, 0);
      ConvertCaptured(matches[0]);
      ConvertCaptured(matches[|matches| - 1]);
      var firstNum := ConvertToString(matches[0]);
      var lastNum := ConvertToString(matches[|matches| - 1]);
      finalNum := DigitsValue(firstNum + lastNum);
    }
  }


  /** Captures overlap: in `"eightwo"` both `eight` and `two` are found. */
  lemma EightTwo()
    ensures Findall("eightwo", 0) == ["eight", "two"]
  {
    var s := "eightwo";
    forall i | 0 <= i < 7
      ensures MatchAt(s, i) == if i == 0 then Some("eight") else if i == 4 then Some("two") else None
    {
      EightTwoAt(s, i);
    }
    assert Findall(s, 7) == [];
    assert Findall(s, 6) == [];
    assert Findall(s, 5) == [];
    assert Findall(s, 4) == ["two"];
    assert Findall(s, 3) == ["two"];
    assert Findall(s, 2) == ["two"];
    assert Findall(s, 1) == ["two"];
  }

  lemma EightTwoAt(s: string, i: nat)
    requires s == "eightwo" && i < 7
    ensures MatchAt(s, i) == if i == 0 then Some("eight") else if i == 4 then Some("two") else None
  {
    if i == 0 {
      assert Names[7] == "eight";
      assert Names[7] <= s[0..] by { assert s[0..][..5] == "eight"; }
      NameCapture(s, 0, 7);
    } else if i == 4 {
      assert Names[1] == "two";
      assert Names[1] <= s[4..] by { assert s[4..] == "two"; }
      NameCapture(s, 4, 1);
    } else if i == 6 {
      NoCapture(s, 6);
    } else {
      assert NameIndex(s[i..]) == 8 && !(Names[8] <= s[i..]) by { assert s[i..][0] == s[i] != 'n'; }
      NoCapture(s, i);
    }
  }

  /** A name at `i` is what the pattern captures there. */
  lemma NameCapture(line: string, i: nat, k: nat)
    requires i < |line| && k < 9 && Names[k] <= line[i..]
    ensures MatchAt(line, i) == Some(Names[k])
  {
    FirstNameIs(line[i..]);
    NamePrefixIndex(line[i..], k);
  }

  /** Without a numeral or the start of the one name its first two
      letters point at, nothing is captured at `i`. */
  lemma NoCapture(line: string, i: nat)
    requires i < |line| && !IsDigit(line[i])
    requires |line| - i >= 2 ==> !(Names[NameIndex(line[i..])] <= line[i..])
    ensures MatchAt(line, i).None?
  {
    FirstNameIs(line[i..]);
  }
}
