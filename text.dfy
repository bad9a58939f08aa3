/** String helpers shared by the puzzles' parsers: splitting at a
    character, counting a character, and Python's `int()` on digit strings. */
module Text {

  import opened Wrappers

  /** The part of `s` before the first `c` (all of `s` when there is none). */
  function Before(s: string, c: char): (r: string)
    ensures r <= s && c !in r
    ensures r != s ==> s[|r|] == c
  {
    if s == [] || s[0] == c then [] else [s[0]] + Before(s[1..], c)
  }

  /** The part of `s` after the first `c`. */
  function After(s: string, c: char): (r: string)
    requires c in s
    ensures s == Before(s, c) + [c] + r
  {
    if s[0] == c then s[1..]
    else
      assert s == [s[0]] + s[1..];
      After(s[1..], c)
  }

  /** How often `c` occurs in `s`. */
  function Occurrences(s: string, c: char): nat
  {
    if s == [] then 0 else (if s[0] == c then 1 else 0) + Occurrences(s[1..], c)
  }

  lemma {:induction false} OccurrencesIn(s: string, c: char)
    requires Occurrences(s, c) > 0
    ensures c in s
  {
    if s[0] != c {
      OccurrencesIn(s[1..], c);
    }
  }

  lemma {:induction false} OccurrencesAfter(s: string, c: char)
    requires c in s
    ensures Occurrences(s, c) == 1 + Occurrences(After(s, c), c)
  {
    if s[0] != c {
      OccurrencesAfter(s[1..], c);
    }
  }

  lemma {:induction false} OccurrencesAppend(a: string, b: string, c: char)
    ensures Occurrences(a + b, c) == Occurrences(a, c) + Occurrences(b, c)
  {
    if a == [] {
      assert a + b == b;
    } else {
      assert (a + b)[0] == a[0] && (a + b)[1..] == a[1..] + b;
      OccurrencesAppend(a[1..], b, c);
    }
  }

  /** Counting a character is taking its multiplicity. */
  lemma {:induction false} OccurrencesIsMultiplicity(s: string, c: char)
    ensures Occurrences(s, c) == multiset(s)[c]
  {
    if s != [] {
      OccurrencesIsMultiplicity(s[1..], c);
      assert s == [s[0]] + s[1..];
    }
  }

  /** Python's `s.split(sep)`: the pieces between separators, empty ones
      included. */
  function Split(s: string, sep: char): (parts: seq<string>)
    ensures |parts| >= 1
    ensures forall k :: 0 <= k < |parts| ==> sep !in parts[k]
    decreases |s|
  {
    if sep in s then [Before(s, sep)] + Split(After(s, sep), sep) else [s]
  }

  /** Python's `sep.join(parts)`. */
  function Join(parts: seq<string>, sep: char): string
    requires |parts| >= 1
  {
    if |parts| == 1 then parts[0] else parts[0] + [sep] + Join(parts[1..], sep)
  }

  lemma {:induction false} BeforeAfterJoined(p: string, sep: char, rest: string)
    requires sep !in p
    ensures Before(p + [sep] + rest, sep) == p && After(p + [sep] + rest, sep) == rest
  {
    if p != [] {
      assert (p + [sep] + rest)[1..] == p[1..] + [sep] + rest;
      BeforeAfterJoined(p[1..], sep, rest);
    }
  }

  lemma {:induction false} BeforeAppend(p: string, s: string, sep: char)
    requires sep !in p
    ensures Before(p + s, sep) == p + Before(s, sep)
    ensures sep in s ==> sep in p + s && After(p + s, sep) == After(s, sep)
  {
    if p == [] {
      assert p + s == s;
    } else {
      assert (p + s)[1..] == p[1..] + s;
      BeforeAppend(p[1..], s, sep);
    }
  }

  /** Splitting what was joined gives back the parts, when no part holds
      the separator. */
  lemma {:induction false} SplitJoin(parts: seq<string>, sep: char)
    requires |parts| >= 1 && forall k :: 0 <= k < |parts| ==> sep !in parts[k]
    ensures Split(Join(parts, sep), sep) == parts
  {
    if |parts| > 1 {
      var rest := Join(parts[1..], sep);
      BeforeAfterJoined(parts[0], sep, rest);
      SplitJoin(parts[1..], sep);
    }
  }

  /** Joining the pieces of a split gives back the string. */
  lemma {:induction false} JoinSplit(s: string, sep: char)
    ensures Join(Split(s, sep), sep) == s
    decreases |s|
  {
    if sep in s {
      JoinSplit(After(s, sep), sep);
    }
  }

  /** The characters `str.strip()`, `str.split()` and `int()` treat as
      blank, in ASCII: tab to carriage return, the separators 0x1c to 0x1f
      and the space. */
  predicate IsSpace(c: char)
  {
    9 <= c as int <= 13 || 28 <= c as int <= 32
  }

  /** `not line.strip()`: nothing but blanks. */
  predicate Blank(s: string)
  {
    forall k :: 0 <= k < |s| ==> IsSpace(s[k])
  }

  /** The longest prefix without blanks. */
  function Word(s: string): (w: string)
    ensures w <= s && forall k :: 0 <= k < |w| ==> !IsSpace(w[k])
    ensures |w| < |s| ==> IsSpace(s[|w|])
  {
    if s == [] || IsSpace(s[0]) then [] else [s[0]] + Word(s[1..])
  }

  /** `s.split()`: the maximal runs without blanks. */
  function Words(s: string): (ws: seq<string>)
    ensures forall k :: 0 <= k < |ws| ==> ws[k] != [] && forall j :: 0 <= j < |ws[k]| ==> !IsSpace(ws[k][j])
    decreases |s|
  {
    if s == [] then []
    else if IsSpace(s[0]) then Words(s[1..])
    else
      var w := Word(s);
      [w] + Words(s[|w|..])
  }

  /** Joining words with one space and splitting again gives the words. */
  lemma {:induction false} WordsOfJoin(ws: seq<string>)
    requires |ws| >= 1
    requires forall k :: 0 <= k < |ws| ==> ws[k] != [] && forall j :: 0 <= j < |ws[k]| ==> !IsSpace(ws[k][j])
    ensures Words(Join(ws, ' ')) == ws
  {
    var w := ws[0];
    if |ws| == 1 {
      WordOfWord(w, []);
      assert w + [] == w;
      assert w[|w|..] == [];
    } else {
      var rest := Join(ws[1..], ' ');
      var s := w + " " + rest;
      WordOfWord(w, " " + rest);
      assert s == w + (" " + rest);
      assert s[|w|..] == " " + rest;
      assert (" " + rest)[1..] == rest;
      WordsOfJoin(ws[1..]);
    }
  }

  lemma {:induction false} WordOfWord(w: string, rest: string)
    requires w != [] && forall j :: 0 <= j < |w| ==> !IsSpace(w[j])
    requires rest == [] || IsSpace(rest[0])
    ensures Word(w + rest) == w
  {
    assert (w + rest)[0] == w[0] && (w + rest)[1..] == w[1..] + rest;
    if |w| > 1 {
      WordOfWord(w[1..], rest);
    } else {
      assert w[1..] + rest == rest;
    }
  }

  /** `pat in s` for strings: `pat` occurs as a substring. */
  predicate Contains(s: string, pat: string)
    decreases |s|
  {
    pat <= s || (s != [] && Contains(s[1..], pat))
  }

  predicate IsDigit(c: char)
  {
    '0' <= c <= '9'
  }

  /** The first index at or after `i` that is not a digit: the end of the
      digit run starting at `i`. */
  function RunEnd(s: string, i: nat): (j: nat)
    requires i <= |s|
    ensures i <= j <= |s| && (forall k :: i <= k < j ==> IsDigit(s[k])) && (j == |s| || !IsDigit(s[j]))
    decreases |s| - i
  {
    if i < |s| && IsDigit(s[i]) then RunEnd(s, i + 1) else i
  }

  /** The value of a non-empty string of decimal digits; `None` for anything
      else. This is the part of `int()` the parsers rely on: `PyInt` below
      is the whole of it, and `DecimalIsPyInt` shows they agree wherever
      this succeeds. */
  function Decimal(s: string): (r: Option<nat>)
    ensures r.Some? ==> s != []
  {
    if s == [] || exists k :: 0 <= k < |s| && !('0' <= s[k] <= '9') then None
    else Some(DigitsValue(s))
  }

  function DigitsValue(s: string): nat
    requires forall k :: 0 <= k < |s| ==> '0' <= s[k] <= '9'
  {
    if s == [] then 0 else 10 * DigitsValue(s[..|s| - 1]) + (s[|s| - 1] as int - '0' as int)
  }

  /** The decimal digits of `n`, without leading zeros. */
  function Show(n: nat): (s: string)
    ensures s != [] && forall k :: 0 <= k < |s| ==> '0' <= s[k] <= '9'
  {
    var d := ['0' + (n % 10) as char];
    if n < 10 then d else Show(n / 10) + d
  }

  /** Reading back the digits of a number gives the number. */
  lemma {:induction false} DecimalShow(n: nat)
    ensures Decimal(Show(n)) == Some(n)
  {
    var s := Show(n);
    var d := '0' + (n % 10) as char;
    assert s[|s| - 1] == d;
    assert d as int - '0' as int == n % 10;
    if n >= 10 {
      DecimalShow(n / 10);
      assert s[..|s| - 1] == Show(n / 10);
      assert DigitsValue(s[..|s| - 1]) == n / 10;
    } else {
      assert s[..|s| - 1] == [];
    }
    assert DigitsValue(s) == n;
    assert !exists k :: 0 <= k < |s| && !('0' <= s[k] <= '9');
  }


  /** `str.strip()`: drop whitespace at both ends. */
  function Strip(s: string): (t: string)
    ensures |t| <= |s|
    ensures t != [] ==> !IsSpace(t[0]) && !IsSpace(t[|t| - 1])
    ensures forall k :: 0 <= k < |s| && !IsSpace(s[k]) ==> t != []
    decreases |s|
  {
    if s == [] then []
    else if IsSpace(s[0]) then Strip(s[1..])
    else if IsSpace(s[|s| - 1]) then Strip(s[..|s| - 1])
    else s
  }

  /** The body `int()` accepts after the sign: digits in groups joined by
      single underscores, with a digit at each end. */
  predicate Grouped(s: string)
  {
    && s != [] && IsDigit(s[0]) && IsDigit(s[|s| - 1])
    && forall k :: 0 <= k < |s| ==> GroupChar(s, k)
  }

  /** Character `k` is a digit, or an underscore between two digits. */
  predicate GroupChar(s: string, k: nat)
    requires k < |s|
  {
    IsDigit(s[k]) || (s[k] == '_' && 0 < k < |s| - 1 && IsDigit(s[k - 1]) && IsDigit(s[k + 1]))
  }

  /** The digits of a body, underscores dropped. */
  function Undigits(s: string): (d: string)
    ensures forall k :: 0 <= k < |d| ==> d[k] != '_'
    ensures (forall k :: 0 <= k < |s| ==> IsDigit(s[k]) || s[k] == '_') ==> forall k :: 0 <= k < |d| ==> IsDigit(d[k])
  {
    if s == [] then []
    else (if s[0] == '_' then [] else [s[0]]) + Undigits(s[1..])
  }

  /** Python's `int(s)` in base 10, ASCII only: surrounding whitespace, an
      optional sign, then grouped digits; `None` for the `ValueError`. */
  function PyInt(s: string): (r: Option<int>)
    ensures r.Some? <==> Strip(s) != [] && Grouped(if Strip(s)[0] in "+-" then Strip(s)[1..] else Strip(s))
  {
    var t := Strip(s);
    if t == [] then None
    else
      var body := if t[0] in "+-" then t[1..] else t;
      if !Grouped(body) then None
      else
        GroupedChars(body);
        var v: int := DigitsValue(Undigits(body));
        Some(if t[0] == '-' then -v else v)
  }

  /** A grouped body holds only digits and underscores. */
  lemma GroupedChars(s: string)
    requires Grouped(s)
    ensures forall k :: 0 <= k < |s| ==> IsDigit(s[k]) || s[k] == '_'
  {
    forall k | 0 <= k < |s|
      ensures IsDigit(s[k]) || s[k] == '_'
    {
      assert GroupChar(s, k);
    }
  }

  /** A string of digits has no whitespace to strip. */
  lemma StripDigits(s: string)
    requires s != [] && forall k :: 0 <= k < |s| ==> IsDigit(s[k])
    ensures Strip(s) == s
  {
  }

  /** A string without underscores loses nothing. */
  lemma {:induction false} UndigitsPlain(s: string)
    requires forall k :: 0 <= k < |s| ==> s[k] != '_'
    ensures Undigits(s) == s
  {
    if s != [] {
      UndigitsPlain(s[1..]);
    }
  }

  /** Wherever `Decimal` reads a number, `int()` reads the same one. */
  lemma DecimalIsPyInt(s: string)
    requires Decimal(s).Some?
    ensures PyInt(s) == Some(Decimal(s).value as int)
  {
    StripDigits(s);
    UndigitsPlain(s);
  }

  /** `int()` also reads what `Decimal` refuses: a sign, */
  lemma PyIntSigned(minus: string)
    requires minus == "-3"
    ensures PyInt(minus) == Some(-3) && Decimal(minus) == None
  {
    assert Strip(minus) == minus;
    assert minus[1..] == "3";
    assert Undigits("3") == "3";
    assert DigitsValue("3") == 3 by { assert "3"[..0] == []; }
    assert !IsDigit(minus[0]);
  }

  /** surrounding whitespace, */
  lemma PyIntPadded(padded: string)
    requires padded == " 7 "
    ensures PyInt(padded) == Some(7) && Decimal(padded) == None
  {
    assert padded[1..] == "7 " && "7 "[..1] == "7";
    assert Strip(padded) == Strip("7 ") == Strip("7") == "7";
    assert Undigits("7") == "7";
    assert DigitsValue("7") == 7 by { assert "7"[..0] == []; }
    assert !IsDigit(padded[0]);
  }

  /** and single underscores between digits. */
  lemma PyIntGrouped(grouped: string)
    requires grouped == "1_0"
    ensures PyInt(grouped) == Some(10) && Decimal(grouped) == None
  {
    assert Strip(grouped) == grouped;
    assert Undigits(grouped) == "10" by {
      assert grouped[1..] == "_0" && grouped[1..][1..] == "0";
      assert Undigits("0") == "0";
    }
    assert DigitsValue("10") == 10 by { assert "10"[..1] == "1"; assert "1"[..0] == []; }
    assert !IsDigit(grouped[1]);
  }

  /** Doubled, leading or trailing underscores are the `ValueError`. */
  lemma PyIntRefusesLooseUnderscores(doubled: string, leading: string, trailing: string)
    requires doubled == "1__0" && leading == "_1" && trailing == "1_"
    ensures PyInt(doubled) == None && PyInt(leading) == None && PyInt(trailing) == None
  {
    assert Strip(doubled) == doubled && Strip(leading) == leading && Strip(trailing) == trailing;
    assert !Grouped(doubled) by { assert !GroupChar(doubled, 1); }
  }
}
