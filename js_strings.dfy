/**
 * The JavaScript string operations the core relies on: `split` with a one-character
 * separator, `join`, the decimal rendering of an integral number, `parseInt(s, 10)`,
 * the `\s` character class and ASCII upper-casing.
 */
module JsStrings {
  import opened Wrappers

  /** `s.split(sep)`: the pieces between separators, empty pieces kept; `"".split(sep) == [""]`. */
  function Split(s: string, sep: char): (parts: seq<string>)
    ensures |parts| >= 1
    ensures forall i :: 0 <= i < |parts| ==> sep !in parts[i]
    decreases |s|
  {
    if s == [] then [""]
    else
      var rest := Split(s[1..], sep);
      if s[0] == sep then [""] + rest else [[s[0]] + rest[0]] + rest[1..]
  }

  /** `parts.join(sep)`; an empty array joins to the empty string. */
  function Join(parts: seq<string>, sep: string): string
  {
    if |parts| == 0 then ""
    else if |parts| == 1 then parts[0]
    else parts[0] + sep + Join(parts[1..], sep)
  }

  /** Joining the pieces of a split with the same separator gives back the string. */
  lemma {:induction false} JoinSplit(s: string, sep: char)
    ensures Join(Split(s, sep), [sep]) == s
    decreases |s|
  {
    if s != [] {
      JoinSplit(s[1..], sep);
      var rest := Split(s[1..], sep);
      if s[0] == sep {
        assert Split(s, sep) == [""] + rest;
        assert Join([""] + rest, [sep]) == "" + [sep] + Join(rest, [sep]);
      } else {
        if |rest| == 1 {
          assert Split(s, sep) == [[s[0]] + rest[0]];
        } else {
          assert Split(s, sep) == [[s[0]] + rest[0]] + rest[1..];
          assert Join(rest, [sep]) == rest[0] + [sep] + Join(rest[1..], [sep]);
        }
      }
    }
  }

  /** A string without the separator splits into itself alone. */
  lemma {:induction false} SplitWithoutSeparator(s: string, sep: char)
    requires sep !in s
    ensures Split(s, sep) == [s]
    decreases |s|
  {
    if s != [] {
      SplitWithoutSeparator(s[1..], sep);
      assert [s[0]] + s[1..] == s;
    }
  }

  /** A separator-free prefix ends up in front of the first piece. */
  lemma {:induction false} SplitPrefix(a: string, b: string, sep: char)
    requires sep !in a
    ensures Split(a + b, sep) == [a + Split(b, sep)[0]] + Split(b, sep)[1..]
    decreases |a|
  {
    if a != [] {
      var s := Split(b, sep);
      assert (a + b)[1..] == a[1..] + b;
      assert (a + b)[0] == a[0] && a[0] != sep;
      SplitPrefix(a[1..], b, sep);
      var r := Split(a[1..] + b, sep);
      assert r == [a[1..] + s[0]] + s[1..];
      assert Split(a + b, sep) == [[a[0]] + r[0]] + r[1..];
      assert [a[0]] + (a[1..] + s[0]) == a + s[0];
    } else {
      var s := Split(b, sep);
      assert a + b == b && a + s[0] == s[0];
      assert [s[0]] + s[1..] == s;
    }
  }

  /** Splitting a join of separator-free, non-empty lists of pieces gives the pieces back. */
  lemma {:induction false} SplitJoin(parts: seq<string>, sep: char)
    requires |parts| >= 1
    requires forall i :: 0 <= i < |parts| ==> sep !in parts[i]
    ensures Split(Join(parts, [sep]), sep) == parts
    decreases |parts|
  {
    if |parts| == 1 {
      SplitWithoutSeparator(parts[0], sep);
    } else {
      var tail := Join(parts[1..], [sep]);
      SplitJoin(parts[1..], sep);
      assert Join(parts, [sep]) == parts[0] + ([sep] + tail);
      SplitPrefix(parts[0], [sep] + tail, sep);
      assert ([sep] + tail)[1..] == tail;
      assert ([sep] + tail)[0] == sep;
      assert Split([sep] + tail, sep) == [""] + Split(tail, sep);
      assert parts[0] + "" == parts[0];
      assert [parts[0]] + parts[1..] == parts;
    }
  }

  /** `s.split(sep).pop()`: the text after the last separator, or the whole string. */
  function LastPiece(s: string, sep: char): string
  {
    var parts := Split(s, sep);
    parts[|parts| - 1]
  }

  /** The last piece holds no separator, ends the string, and is all of it when there is no separator. */
  lemma {:induction false} LastPieceIsSuffix(s: string, sep: char)
    ensures sep !in LastPiece(s, sep)
    ensures |LastPiece(s, sep)| <= |s| && s[|s| - |LastPiece(s, sep)|..] == LastPiece(s, sep)
    ensures sep !in s ==> LastPiece(s, sep) == s
    ensures sep in s ==> s[|s| - |LastPiece(s, sep)| - 1] == sep
    decreases |s|
  {
    if s != [] {
      var t := s[1..];
      LastPieceIsSuffix(t, sep);
      var rest := Split(t, sep);
      var last := LastPiece(t, sep);
      var k := |t| - |last|;
      assert t[k..] == s[k + 1..];
      if s[0] == sep {
        assert Split(s, sep) == [""] + rest;
        assert LastPiece(s, sep) == last;
        if sep in t {
          assert s[k] == t[k - 1];
        } else {
          assert k == 0;
        }
      } else if |rest| == 1 {
        SeparatorSplits(t, sep);
        assert Split(s, sep) == [[s[0]] + rest[0]];
        assert LastPiece(s, sep) == [s[0]] + t == s;
      } else {
        assert Split(s, sep) == [[s[0]] + rest[0]] + rest[1..];
        assert LastPiece(s, sep) == last;
        assert sep in t by {
          if sep !in t { SplitWithoutSeparator(t, sep); }
        }
        assert s[k] == t[k - 1];
      }
    }
  }

  lemma {:induction false} SeparatorSplits(s: string, sep: char)
    ensures sep in s ==> |Split(s, sep)| >= 2
    decreases |s|
  {
    if s != [] && s[0] != sep {
      SeparatorSplits(s[1..], sep);
      assert sep in s ==> sep in s[1..];
    }
  }

  function DigitChar(d: nat): char
    requires d < 10
  {
    ('0' as int + d) as char
  }

  /** Decimal digits of a natural number, most significant first, no leading zero. */
  function Digits(n: nat): (s: string)
    ensures |s| >= 1
    ensures forall i :: 0 <= i < |s| ==> '0' <= s[i] <= '9'
    ensures |s| > 1 ==> s[0] != '0'
    decreases n
  {
    if n < 10 then [DigitChar(n)] else Digits(n / 10) + [DigitChar(n % 10)]
  }

  /** `String(n)` / `n.toString()` for an integral JavaScript number. */
  function Decimal(n: int): (s: string)
    ensures |s| >= 1 && (s[0] == '-' <==> n < 0)
  {
    if n < 0 then "-" + Digits(-n) else Digits(n)
  }

  /** The value of a string of decimal digits. */
  function DigitsValue(s: string): int
  {
    if s == [] then 0 else DigitsValue(s[..|s| - 1]) * 10 + (s[|s| - 1] as int - '0' as int)
  }

  /** The longest prefix of decimal digits. */
  function DigitPrefix(s: string): (d: string)
    ensures d <= s
    ensures forall i :: 0 <= i < |d| ==> '0' <= d[i] <= '9'
  {
    if s != [] && '0' <= s[0] <= '9' then [s[0]] + DigitPrefix(s[1..]) else ""
  }

  /** The `\s` class of a JavaScript regular expression (also the white space `parseInt` skips). */
  predicate IsJsSpace(c: char)
  {
    || c == '\t' || c == '\n' || c == '\U{000B}' || c == '\U{000C}' || c == '\r' || c == ' '
    || c == '\U{00A0}' || c == '\U{1680}' || ('\U{2000}' <= c <= '\U{200A}')
    || c == '\U{2028}' || c == '\U{2029}' || c == '\U{202F}' || c == '\U{205F}'
    || c == '\U{3000}' || c == '\U{FEFF}'
  }

  function TrimStart(s: string): string
  {
    if s != [] && IsJsSpace(s[0]) then TrimStart(s[1..]) else s
  }

  /** The value of the leading decimal digits, None when there are none. */
  function LeadingDigits(body: string): Option<int>
  {
    var ds := DigitPrefix(body);
    if ds == "" then None else Some(DigitsValue(ds))
  }

  /** `parseInt(s, 10)`: leading white space and one sign are skipped; None stands for NaN. */
  function ParseInt(s: string): Option<int>
  {
    var t := TrimStart(s);
    if t != [] && t[0] == '-' then
      match LeadingDigits(t[1..])
      case None => None
      case Some(v) => Some(-v)
    else if t != [] && t[0] == '+' then
      match LeadingDigits(t[1..])
      case None => None
      case Some(v) => Some(v)
    else
      match LeadingDigits(t)
      case None => None
      case Some(v) => Some(v)
  }

  lemma {:induction false} DigitsValueOfDigits(n: nat)
    ensures DigitsValue(Digits(n)) == n
    decreases n
  {
    if n >= 10 {
      DigitsValueOfDigits(n / 10);
      var s := Digits(n);
      assert s[..|s| - 1] == Digits(n / 10);
      assert s[|s| - 1] as int - '0' as int == n % 10;
      assert DigitsValue(s) == (n / 10) * 10 + n % 10;
    }
  }

  lemma {:induction false} DigitPrefixOfDigits(s: string)
    requires forall i :: 0 <= i < |s| ==> '0' <= s[i] <= '9'
    ensures DigitPrefix(s) == s
  {
    if s != [] {
      DigitPrefixOfDigits(s[1..]);
    }
  }

  /** A digit string is read whole. */
  lemma LeadingDigitsOfDigits(d: string)
    requires d != [] && forall i :: 0 <= i < |d| ==> '0' <= d[i] <= '9'
    ensures LeadingDigits(d) == Some(DigitsValue(d))
  {
    DigitPrefixOfDigits(d);
  }

  /** `parseInt` of a string that starts with a digit is the value of its leading digits. */
  lemma ParseIntOfDigits(d: string, v: int)
    requires d != [] && '0' <= d[0] <= '9'
    requires LeadingDigits(d) == Some(v)
    ensures ParseInt(d) == Some(v)
  {
    assert d[0] != '-' && d[0] != '+';
    assert TrimStart(d) == d by { assert !IsJsSpace(d[0]); }
  }

  /** `parseInt` of a minus sign and a string with leading digits is their negated value. */
  lemma ParseIntOfNegated(d: string, v: int)
    requires LeadingDigits(d) == Some(v)
    ensures ParseInt("-" + d) == Some(-v)
  {
    var t := "-" + d;
    assert t != [] && t[0] == '-' && t[1..] == d;
    assert TrimStart(t) == t by { assert !IsJsSpace(t[0]); }
  }

  /** `Number.MAX_SAFE_INTEGER`: every integer up to it in magnitude is exact as a JavaScript number. */
  const MaxSafeInteger := 9007199254740991

  /** From 1e21 in magnitude, `Number.prototype.toString` writes a number in exponent form. */
  const ExponentFrom := 1000000000000000000000

  /**
   * `parseInt` reads back the decimal rendering of a safe integer (beyond the safe range
   * JavaScript rounds the result to the nearest double).
   */
  lemma ParseIntDecimal(n: int)
    requires -MaxSafeInteger <= n <= MaxSafeInteger
    ensures ParseInt(Decimal(n)) == Some(n)
  {
    if n < 0 {
      var m: nat := -n;
      var d := Digits(m);
      DigitsValueOfDigits(m);
      LeadingDigitsOfDigits(d);
      ParseIntOfNegated(d, m);
      assert Decimal(n) == "-" + d;
    } else {
      var d := Digits(n);
      DigitsValueOfDigits(n);
      LeadingDigitsOfDigits(d);
      ParseIntOfDigits(d, n);
      assert Decimal(n) == d;
    }
  }

  /** Upper-casing restricted to ASCII letters. */
  function AsciiUpper(c: char): char
  {
    if 'a' <= c <= 'z' then (c as int - 32) as char else c
  }

  /**
   * `s.toUpperCase()` restricted to ASCII letters. Outside ASCII only U+0131 and U+017F
   * upper-case into ASCII letters ('I' and 'S'), and ligatures such as U+FB06 into
   * several; none of them yields a word the core compares against.
   */
  function UpperCase(s: string): (r: string)
    ensures |r| == |s|
  {
    seq(|s|, i requires 0 <= i < |s| => AsciiUpper(s[i]))
  }

  /** Upper-casing an upper-cased string changes nothing, and the result holds no letter a–z. */
  lemma UpperCaseIdempotent(s: string)
    ensures UpperCase(UpperCase(s)) == UpperCase(s)
    ensures forall i :: 0 <= i < |s| ==> !('a' <= UpperCase(s)[i] <= 'z')
  {
  }

  /** The UTF-16 code units JavaScript stores for one character: a surrogate pair above U+FFFF. */
  function CodeUnits(c: char): (u: seq<int>)
    ensures |u| == 1 || |u| == 2
    ensures |u| == 2 <==> 0xD800 <= u[0] < 0xDC00
    ensures forall i :: 0 <= i < |u| ==> 0 <= u[i] < 0x10000
  {
    var n := c as int;
    if n < 0x10000 then [n]
    else [0xD800 + (n - 0x10000) / 0x400, 0xDC00 + (n - 0x10000) % 0x400]
  }

  lemma CodeUnitsInjective(c: char, d: char)
    requires CodeUnits(c) == CodeUnits(d)
    ensures c == d
  {
    var u := CodeUnits(c);
    if |u| == 2 {
      assert c as int == 0x10000 + (u[0] - 0xD800) * 0x400 + (u[1] - 0xDC00);
      assert d as int == 0x10000 + (u[0] - 0xD800) * 0x400 + (u[1] - 0xDC00);
    }
  }

  /** The UTF-16 code units of a string, the units JavaScript compares strings by. */
  function Utf16(s: string): (u: seq<int>)
    ensures |u| >= |s|
  {
    if s == [] then [] else CodeUnits(s[0]) + Utf16(s[1..])
  }

  /** `s.length`: a string without characters beyond U+FFFF has one code unit per character, and none has more than two. */
  lemma {:induction false} Utf16Length(s: string)
    ensures |Utf16(s)| <= 2 * |s|
    ensures (forall i :: 0 <= i < |s| ==> s[i] < '\U{10000}') ==> |Utf16(s)| == |s|
  {
    if s != [] {
      Utf16Length(s[1..]);
      assert forall i :: 0 <= i < |s[1..]| ==> s[1..][i] == s[i + 1];
    }
  }

  /** Different strings have different UTF-16 encodings. */
  lemma {:induction false} Utf16Injective(a: string, b: string)
    requires Utf16(a) == Utf16(b)
    ensures a == b
  {
    if a != [] {
      var ua, ub := CodeUnits(a[0]), CodeUnits(b[0]);
      assert b != [];
      assert Utf16(a)[0] == ua[0] && Utf16(b)[0] == ub[0];
      assert |ua| == |ub|;
      assert Utf16(a)[..|ua|] == ua && Utf16(b)[..|ub|] == ub;
      CodeUnitsInjective(a[0], b[0]);
      assert Utf16(a)[|ua|..] == Utf16(a[1..]) && Utf16(b)[|ub|..] == Utf16(b[1..]);
      Utf16Injective(a[1..], b[1..]);
      assert a == [a[0]] + a[1..] && b == [b[0]] + b[1..];
    }
  }
}
