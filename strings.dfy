/** The few JavaScript string operations the core relies on, on `seq<char>`. */
module Strings {
  import opened Wrappers

  // ---------------------------------------------------------------------------
  // String.prototype.split with a one-character separator
  // ---------------------------------------------------------------------------

  /** `s.split(sep)`: the separator-free pieces between separators, in order.
      The empty string splits into one empty piece. */
  function Split(s: string, sep: char): (pieces: seq<string>)
    ensures |pieces| >= 1
    ensures forall i :: 0 <= i < |pieces| ==> sep !in pieces[i]
    decreases |s|
  {
    if |s| == 0 then [""]
    else if s[0] == sep then [""] + Split(s[1..], sep)
    else
      var rest := Split(s[1..], sep);
      [[s[0]] + rest[0]] + rest[1..]
  }

  /** `pieces.join(sep)`: the inverse of Split. */
  function Join(pieces: seq<string>, sep: char): string
    requires |pieces| >= 1
    decreases |pieces|
  {
    if |pieces| == 1 then pieces[0]
    else pieces[0] + [sep] + Join(pieces[1..], sep)
  }

  /** Joining the pieces of a split gives back the original string. */
  lemma {:induction false} JoinSplit(s: string, sep: char)
    ensures Join(Split(s, sep), sep) == s
    decreases |s|
  {
    if |s| == 0 {
    } else if s[0] == sep {
      JoinSplit(s[1..], sep);
      assert s == [sep] + s[1..];
    } else {
      JoinSplit(s[1..], sep);
      var rest := Split(s[1..], sep);
      if |rest| == 1 {
        assert s == [s[0]] + rest[0];
      } else {
        assert Join(rest, sep) == rest[0] + [sep] + Join(rest[1..], sep);
        assert s == [s[0]] + s[1..];
      }
    }
  }

  /** Splitting a join of separator-free pieces gives back the pieces: the
      pieces are determined by the string. */
  lemma {:induction false} SplitJoin(pieces: seq<string>, sep: char)
    requires |pieces| >= 1
    requires forall i :: 0 <= i < |pieces| ==> sep !in pieces[i]
    ensures Split(Join(pieces, sep), sep) == pieces
    decreases |pieces|, |pieces[0]|
  {
    var p := pieces[0];
    if |p| == 0 {
      if |pieces| > 1 {
        var s := Join(pieces, sep);
        assert s == [sep] + Join(pieces[1..], sep);
        assert s[1..] == Join(pieces[1..], sep);
        SplitJoin(pieces[1..], sep);
        assert pieces == [""] + pieces[1..];
      }
    } else {
      var shorter := [p[1..]] + pieces[1..];
      assert forall i :: 0 <= i < |shorter| ==> sep !in shorter[i] by {
        forall i | 0 <= i < |shorter| ensures sep !in shorter[i] {
          if i == 0 {
            assert forall c :: c in p[1..] ==> c in p;
          } else {
            assert shorter[i] == pieces[i];
          }
        }
      }
      SplitJoin(shorter, sep);
      SplitJoinFirstChar(pieces, sep);
    }
  }

  /** The step of SplitJoin that moves the first character of the first
      piece back in front. */
  lemma SplitJoinFirstChar(pieces: seq<string>, sep: char)
    requires |pieces| >= 1 && |pieces[0]| > 0 && pieces[0][0] != sep
    requires Split(Join([pieces[0][1..]] + pieces[1..], sep), sep) == [pieces[0][1..]] + pieces[1..]
    ensures Split(Join(pieces, sep), sep) == pieces
  {
    var p := pieces[0];
    var shorter := [p[1..]] + pieces[1..];
    var s := Join(pieces, sep);
    if |pieces| == 1 {
      assert s == [p[0]] + p[1..];
      assert s[1..] == Join(shorter, sep);
    } else {
      assert shorter[1..] == pieces[1..];
      assert s == [p[0]] + (p[1..] + [sep] + Join(pieces[1..], sep));
      assert s[1..] == Join(shorter, sep);
    }
    assert s[0] == p[0];
    assert p == [p[0]] + shorter[0];
    assert pieces == [p] + shorter[1..];
  }

  /** Appending a separator adds one empty piece at the end. */
  lemma SplitTrailingSeparator(s: string, sep: char)
    ensures Split(s + [sep], sep) == Split(s, sep) + [""]
  {
    var pieces := Split(s, sep);
    JoinSplit(s, sep);
    JoinAppend(pieces, "", sep);
    var more := pieces + [""];
    assert forall i :: 0 <= i < |more| ==> sep !in more[i] by {
      forall i | 0 <= i < |more| ensures sep !in more[i] {
        if i < |pieces| { assert more[i] == pieces[i]; }
      }
    }
    SplitJoin(more, sep);
    assert Join(more, sep) == s + [sep];
  }

  lemma {:induction false} JoinAppend(pieces: seq<string>, last: string, sep: char)
    requires |pieces| >= 1
    ensures Join(pieces + [last], sep) == Join(pieces, sep) + [sep] + last
    decreases |pieces|
  {
    if |pieces| > 1 {
      JoinAppend(pieces[1..], last, sep);
      assert (pieces + [last])[1..] == pieces[1..] + [last];
    }
  }

  /** The first piece of a split is the longest separator-free prefix. */
  lemma {:induction false} SplitHead(s: string, sep: char, k: nat)
    requires k <= |s|
    requires sep !in s[..k]
    requires k == |s| || s[k] == sep
    ensures Split(s, sep)[0] == s[..k]
    ensures k < |s| ==> Split(s, sep)[1..] == Split(s[k + 1..], sep)
    decreases k
  {
    if k == 0 {
    } else {
      assert s[0] in s[..k];
      assert s[1..][..k - 1] == s[..k][1..];
      assert forall c :: c in s[..k][1..] ==> c in s[..k];
      SplitHead(s[1..], sep, k - 1);
      if k < |s| {
        assert s[1..][k..] == s[k + 1..];
      }
      assert s[..k] == [s[0]] + s[1..][..k - 1];
    }
  }

  // ---------------------------------------------------------------------------
  // Characters
  // ---------------------------------------------------------------------------

  /** The character class `[a-zA-Z]`. */
  predicate IsAsciiLetter(c: char) {
    'a' <= c <= 'z' || 'A' <= c <= 'Z'
  }

  /** `[a-zA-Z]+`: one or more ASCII letters. */
  predicate IsLetters(s: string) {
    |s| >= 1 && forall i :: 0 <= i < |s| ==> IsAsciiLetter(s[i])
  }

  /** The number of leading ASCII letters of `s`. */
  function LetterPrefixLength(s: string): (k: nat)
    ensures k <= |s|
    ensures forall i :: 0 <= i < k ==> IsAsciiLetter(s[i])
    ensures k < |s| ==> !IsAsciiLetter(s[k])
    decreases |s|
  {
    if |s| == 0 || !IsAsciiLetter(s[0]) then 0 else 1 + LetterPrefixLength(s[1..])
  }

  predicate IsDigit(c: char) {
    '0' <= c <= '9'
  }

  function DigitValue(c: char): (d: nat)
    requires IsDigit(c)
    ensures d < 10
  {
    c as int - '0' as int
  }

  function DigitChar(d: nat): (c: char)
    requires d < 10
    ensures IsDigit(c) && DigitValue(c) == d
  {
    (d + '0' as int) as char
  }

  /** A digit of base `radix`, ten or sixteen: `0-9`, and in base sixteen
      also `a-f` and `A-F`. */
  predicate IsRadixDigit(c: char, radix: nat) {
    IsDigit(c) || (radix == 16 && ('a' <= c <= 'f' || 'A' <= c <= 'F'))
  }

  predicate IsRadixDigits(s: string, radix: nat) {
    forall i :: 0 <= i < |s| ==> IsRadixDigit(s[i], radix)
  }

  function RadixDigitValue(c: char, radix: nat): (d: nat)
    requires radix == 10 || radix == 16
    requires IsRadixDigit(c, radix)
    ensures d < radix
    ensures IsDigit(c) ==> d == DigitValue(c)
  {
    if IsDigit(c) then DigitValue(c)
    else if 'a' <= c <= 'f' then c as int - 'a' as int + 10
    else c as int - 'A' as int + 10
  }

  /** The value of a string of base-`radix` digits, most significant first. */
  function RadixValue(s: string, radix: nat): nat
    requires radix == 10 || radix == 16
    requires IsRadixDigits(s, radix)
    decreases |s|
  {
    if |s| == 0 then 0
    else RadixValue(s[..|s| - 1], radix) * radix + RadixDigitValue(s[|s| - 1], radix)
  }

  // ---------------------------------------------------------------------------
  // Decimal notation of natural numbers (template literals `${n}`)
  // ---------------------------------------------------------------------------

  /** The decimal notation of `n`, as a template literal prints it. */
  function DecimalString(n: nat): (s: string)
    ensures |s| >= 1 && IsRadixDigits(s, 10)
    ensures |s| > 1 ==> s[0] != '0'
    decreases n
  {
    if n < 10 then [DigitChar(n)] else DecimalString(n / 10) + [DigitChar(n % 10)]
  }

  /** Reading back the decimal notation of `n` gives `n`. */
  lemma {:induction false} DecimalRoundTrip(n: nat)
    ensures RadixValue(DecimalString(n), 10) == n
    decreases n
  {
    var s := DecimalString(n);
    if n < 10 {
      assert s[..0] == [];
    } else {
      DecimalRoundTrip(n / 10);
      assert s[..|s| - 1] == DecimalString(n / 10);
    }
  }

  /** Distinct numbers have distinct decimal notations. */
  lemma DecimalInjective(m: nat, n: nat)
    requires DecimalString(m) == DecimalString(n)
    ensures m == n
  {
    DecimalRoundTrip(m);
    DecimalRoundTrip(n);
  }

  // ---------------------------------------------------------------------------
  // Numeric conversions of JavaScript
  // ---------------------------------------------------------------------------

  /** The characters `parseInt` skips before the number: the white space and
      line terminators of section 7.1.4.1.1 of ECMA-262 (StrWhiteSpaceChar),
      the space separators being those of Unicode category Zs. */
  predicate IsJsWhiteSpace(c: char) {
    || c == '\t' || c == '\n' || c == '\U{B}' || c == '\U{C}' || c == '\r' || c == ' '
    || c == '\U{A0}' || c == '\U{1680}' || ('\U{2000}' <= c <= '\U{200A}')
    || c == '\U{2028}' || c == '\U{2029}' || c == '\U{202F}' || c == '\U{205F}'
    || c == '\U{3000}' || c == '\U{FEFF}'
  }

  /** `s` without its leading white space. */
  function TrimStart(s: string): string
    decreases |s|
  {
    if |s| > 0 && IsJsWhiteSpace(s[0]) then TrimStart(s[1..]) else s
  }

  /** TrimStart drops a prefix of white space and stops at the first other
      character. */
  lemma {:induction false} TrimStartDropsWhiteSpace(s: string)
    ensures var t := TrimStart(s);
      && |t| <= |s| && t == s[|s| - |t|..]
      && (forall i :: 0 <= i < |s| - |t| ==> IsJsWhiteSpace(s[i]))
      && (|t| > 0 ==> !IsJsWhiteSpace(t[0]))
    decreases |s|
  {
    if |s| > 0 && IsJsWhiteSpace(s[0]) {
      TrimStartDropsWhiteSpace(s[1..]);
      var t := TrimStart(s[1..]);
      assert forall i :: 1 <= i < |s| - |t| ==> s[i] == s[1..][i - 1];
    }
  }

  /** The number of leading base-`radix` digits of `s`. */
  function RadixPrefixLength(s: string, radix: nat): (k: nat)
    ensures k <= |s| && IsRadixDigits(s[..k], radix)
    ensures k < |s| ==> !IsRadixDigit(s[k], radix)
    decreases |s|
  {
    if |s| == 0 || !IsRadixDigit(s[0], radix) then 0
    else
      var k := 1 + RadixPrefixLength(s[1..], radix);
      assert s[..k] == [s[0]] + s[1..][..k - 1];
      k
  }

  /** A run of digits ended by a non-digit, or by the end, is the prefix
      RadixPrefixLength finds. */
  lemma {:induction false} RadixPrefixOf(s: string, k: nat, radix: nat)
    requires k <= |s| && IsRadixDigits(s[..k], radix)
    requires k == |s| || !IsRadixDigit(s[k], radix)
    ensures RadixPrefixLength(s, radix) == k
    decreases k
  {
    if k > 0 {
      assert s[0] == s[..k][0];
      assert s[1..][..k - 1] == s[..k][1..];
      RadixPrefixOf(s[1..], k - 1, radix);
    }
  }

  /** The unsigned part of `parseInt`: after a `0x` or `0X` prefix the
      longest run of hexadecimal digits, otherwise the longest run of
      decimal digits; `None` when that run is empty. */
  function ParseMagnitude(u: string): (r: Option<nat>)
    ensures r.Some? ==> |u| > 0 && IsDigit(u[0])
  {
    var hex := |u| >= 2 && u[0] == '0' && (u[1] == 'x' || u[1] == 'X');
    var radix := if hex then 16 else 10;
    var digits := if hex then u[2..] else u;
    var k := RadixPrefixLength(digits, radix);
    if k == 0 then None
    else
      assert hex || IsRadixDigit(digits[..k][0], 10);
      Some(RadixValue(digits[..k], radix))
  }

  /** `parseInt` on text with no leading white space: an optional sign,
      then the magnitude. */
  function ParseSigned(t: string): (r: Option<int>)
    ensures r.Some? ==> exists k :: 0 <= k < |t| && IsDigit(t[k])
  {
    var signed := |t| > 0 && (t[0] == '-' || t[0] == '+');
    var u := if signed then t[1..] else t;
    match ParseMagnitude(u)
    case None => None
    case Some(v) =>
      assert IsDigit(t[if signed then 1 else 0]);
      Some(if signed && t[0] == '-' then -(v as int) else v)
  }

  /** `parseInt(s)` with no radix (section 19.2.5 of ECMA-262): skip the
      leading white space, read an optional sign, then, after a `0x` or `0X`
      prefix, the longest run of hexadecimal digits, and otherwise the
      longest run of decimal digits; `None` stands for NaN (no digit). The
      value is exact: numbers are not rounded to doubles. */
  function ParseInt(s: string): (r: Option<int>)
    ensures r.Some? ==> exists k :: 0 <= k < |s| && IsDigit(s[k])
  {
    var t := TrimStart(s);
    var r := ParseSigned(t);
    assert r.Some? ==> exists k :: 0 <= k < |s| && IsDigit(s[k]) by {
      if r.Some? {
        TrimStartDropsWhiteSpace(s);
        var k :| 0 <= k < |t| && IsDigit(t[k]);
        assert s[|s| - |t| + k] == t[k];
      }
    }
    r
  }

  /** White space before the number is skipped. */
  lemma ParseIntSkipsWhiteSpace(c: char, s: string)
    requires IsJsWhiteSpace(c)
    ensures ParseInt([c] + s) == ParseInt(s)
  {
    assert ([c] + s)[1..] == s;
    assert TrimStart([c] + s) == TrimStart(s);
  }

  /** The decimal notation of `n` followed by a non-digit, or by nothing,
      reads as `n`; only `0` followed by `x` or `X` starts a hexadecimal
      number instead. */
  lemma ParseMagnitudeDecimal(n: nat, rest: string)
    requires |rest| == 0 || !IsDigit(rest[0])
    requires n != 0 || |rest| == 0 || (rest[0] != 'x' && rest[0] != 'X')
    ensures ParseMagnitude(DecimalString(n) + rest) == Some(n)
  {
    var d := DecimalString(n);
    var u := d + rest;
    DecimalRoundTrip(n);
    if |d| == 1 && d[0] == '0' {
      assert d[..0] == [];
    }
    assert u[..|d|] == d;
    assert !(|u| >= 2 && u[0] == '0' && (u[1] == 'x' || u[1] == 'X'));
    RadixPrefixOf(u, |d|, 10);
  }

  /** A sign in front of text that starts with a digit is read as the
      sign of its magnitude. */
  lemma ParseSignedOf(sign: string, u: string)
    requires sign == "" || sign == "+" || sign == "-"
    requires |u| > 0 && IsDigit(u[0])
    ensures ParseSigned(sign + u) == match ParseMagnitude(u)
      case None => None
      case Some(v) => Some(if sign == "-" then -(v as int) else v)
  {
    if sign != "" {
      assert (sign + u)[0] == sign[0] && (sign + u)[1..] == u;
    } else {
      assert sign + u == u;
    }
  }

  /** Text that starts with a sign or a digit has no white space to skip. */
  lemma ParseIntUntrimmed(s: string)
    requires |s| > 0 && (s[0] == '-' || s[0] == '+' || IsDigit(s[0]))
    ensures ParseInt(s) == ParseSigned(s)
  {
    assert !IsJsWhiteSpace(s[0]);
    assert TrimStart(s) == s;
  }

  /** A sign in front of a magnitude `n` gives `n` or its opposite. */
  lemma ParseIntSigned(sign: string, u: string, n: nat)
    requires sign == "" || sign == "+" || sign == "-"
    requires |u| > 0 && IsDigit(u[0])
    requires ParseMagnitude(u) == Some(n)
    ensures ParseInt(sign + u) == Some(if sign == "-" then -(n as int) else n)
  {
    assert (sign + u)[0] == if sign == "" then u[0] else sign[0];
    ParseIntUntrimmed(sign + u);
    ParseSignedOf(sign, u);
  }

  /** A sign in front of text that has no magnitude gives no number. */
  lemma ParseIntUnsigned(sign: string, u: string)
    requires sign == "" || sign == "+" || sign == "-"
    requires |u| > 0 && IsDigit(u[0])
    requires ParseMagnitude(u) == None
    ensures ParseInt(sign + u) == None
  {
    assert (sign + u)[0] == if sign == "" then u[0] else sign[0];
    ParseIntUntrimmed(sign + u);
    ParseSignedOf(sign, u);
  }

  /** parseInt reads the decimal notation of `n`, after an optional sign,
      up to the first character that is not a digit. */
  lemma ParseIntDecimalPrefix(sign: string, n: nat, rest: string)
    requires sign == "" || sign == "+" || sign == "-"
    requires |rest| == 0 || !IsDigit(rest[0])
    requires n != 0 || |rest| == 0 || (rest[0] != 'x' && rest[0] != 'X')
    ensures ParseInt(sign + DecimalString(n) + rest) == Some(if sign == "-" then -(n as int) else n)
  {
    var d := DecimalString(n);
    var u := d + rest;
    ParseMagnitudeDecimal(n, rest);
    assert sign + d + rest == sign + u by {
      assert forall k :: 0 <= k < |sign + u| ==> (sign + d + rest)[k] == (sign + u)[k];
    }
    ParseIntSigned(sign, u, n);
  }

  /** `0x` or `0X`, after an optional sign, switches to base sixteen: the
      hexadecimal digits `h` up to the first other character are the number,
      of value `n`. */
  lemma ParseIntHexPrefix(sign: string, x: char, h: string, rest: string, n: nat)
    requires sign == "" || sign == "+" || sign == "-"
    requires x == 'x' || x == 'X'
    requires |h| > 0 && IsRadixDigits(h, 16) && n == RadixValue(h, 16)
    requires |rest| == 0 || !IsRadixDigit(rest[0], 16)
    ensures ParseInt(sign + (['0', x] + h + rest)) == Some(if sign == "-" then -(n as int) else n)
  {
    var u := ['0', x] + h + rest;
    ParseMagnitudeHex(x, h, rest);
    assert u[0] == '0';
    ParseIntSigned(sign, u, n);
  }

  /** `0x` or `0X` with no hexadecimal digit after it is no number, though
      its `0` is a decimal digit. */
  lemma ParseIntHexEmpty(sign: string, x: char, rest: string)
    requires sign == "" || sign == "+" || sign == "-"
    requires x == 'x' || x == 'X'
    requires |rest| == 0 || !IsRadixDigit(rest[0], 16)
    ensures ParseInt(sign + (['0', x] + rest)) == None
  {
    var u := ['0', x] + rest;
    ParseMagnitudeHex(x, [], rest);
    assert ['0', x] + [] + rest == u;
    ParseIntUnsigned(sign, u);
  }

  lemma ParseMagnitudeHex(x: char, h: string, rest: string)
    requires x == 'x' || x == 'X'
    requires IsRadixDigits(h, 16)
    requires |rest| == 0 || !IsRadixDigit(rest[0], 16)
    ensures ParseMagnitude(['0', x] + h + rest) == if |h| == 0 then None else Some(RadixValue(h, 16))
  {
    var u := ['0', x] + h + rest;
    assert u[2..] == h + rest;
    assert (h + rest)[..|h|] == h;
    RadixPrefixOf(h + rest, |h|, 16);
  }

  /** Text that starts with no white space, sign or digit is no number. */
  lemma ParseIntNoDigitFirst(s: string)
    requires |s| > 0 && !IsJsWhiteSpace(s[0]) && s[0] != '-' && s[0] != '+' && !IsDigit(s[0])
    ensures ParseInt(s) == None
  {
    assert TrimStart(s) == s;
  }

  /** The integer a string denotes under JavaScript's loose equality with a
      number, for strings made of an optional sign and decimal digits; `None`
      for every other string. */
  function IntegerText(s: string): Option<int> {
    if |s| > 1 && s[0] == '-' && IsRadixDigits(s[1..], 10) then Some(-(RadixValue(s[1..], 10) as int))
    else if |s| > 1 && s[0] == '+' && IsRadixDigits(s[1..], 10) then Some(RadixValue(s[1..], 10))
    else if |s| > 0 && IsRadixDigits(s, 10) then Some(RadixValue(s, 10))
    else None
  }

  /** On a string of an optional sign and decimal digits, parseInt and
      loose equality agree. */
  lemma IntegerTextParses(s: string)
    requires IntegerText(s).Some?
    ensures ParseInt(s) == IntegerText(s)
  {
    assert !IsJsWhiteSpace(s[0]);
    assert TrimStart(s) == s;
    var u := if s[0] == '-' || s[0] == '+' then s[1..] else s;
    assert |u| < 2 || IsDigit(u[1]);
    assert u[..|u|] == u;
    RadixPrefixOf(u, |u|, 10);
  }

  /** Loose equality reads back the decimal notation of every natural number. */
  lemma IntegerTextDecimal(n: nat)
    ensures IntegerText(DecimalString(n)) == Some(n)
  {
    DecimalRoundTrip(n);
  }
}
