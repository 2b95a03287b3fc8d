/**
 * String primitives of the JavaScript runtime that the dashboard relies on:
 * `startsWith`, `includes`, `trim`, ASCII `toLowerCase`, the `\s` and `\d`
 * character classes, and the UTF-16 code-unit order used by `<` and
 * `localeCompare` on date strings.
 */
module Text {

  /**
   * The UTF-16 code units a character takes: one in the Basic Multilingual
   * Plane, two (a surrogate pair) above it.
   */
  function Utf16Units(c: char): nat {
    if c as int < 0x1_0000 then 1 else 2
  }

  /**
   * `s.length` in JavaScript, which counts UTF-16 code units rather than
   * characters: it is `|s|` exactly when no character lies above the Basic
   * Multilingual Plane.
   */
  function Utf16Length(s: string): (n: nat)
    ensures |s| <= n <= 2 * |s|
    decreases |s|
  {
    if s == [] then 0 else Utf16Length(s[..|s| - 1]) + Utf16Units(s[|s| - 1])
  }

  /**
   * The UTF-16 length is the character count exactly when every character
   * lies in the Basic Multilingual Plane, and twice it exactly when none does.
   */
  lemma {:induction false} Utf16LengthBounds(s: string)
    ensures Utf16Length(s) == |s| <==> forall i :: 0 <= i < |s| ==> s[i] as int < 0x1_0000
    ensures Utf16Length(s) == 2 * |s| <==> forall i :: 0 <= i < |s| ==> s[i] as int >= 0x1_0000
    decreases |s|
  {
    if s != [] {
      Utf16LengthBounds(s[..|s| - 1]);
      assert forall i :: 0 <= i < |s| - 1 ==> s[..|s| - 1][i] == s[i];
    }
  }

  /** `(a + b).length`. */
  lemma {:induction false} Utf16LengthAppend(a: string, b: string)
    ensures Utf16Length(a + b) == Utf16Length(a) + Utf16Length(b)
    decreases |b|
  {
    if b != [] {
      assert (a + b)[..|a + b| - 1] == a + b[..|b| - 1];
      Utf16LengthAppend(a, b[..|b| - 1]);
    } else {
      assert a + b == a;
    }
  }

  /** `s.startsWith(prefix)`. */
  predicate StartsWith(s: string, prefix: string) {
    |prefix| <= |s| && s[..|prefix|] == prefix
  }

  /**
   * The characters removed by `String.prototype.trim` and matched by the
   * regular-expression class `\s`: WhiteSpace and LineTerminator of
   * ECMAScript (section 12.2 and 12.3 of ECMA-262).
   */
  predicate IsSpace(c: char) {
    || c == ' ' || c == '\t' || c == '\n' || c == '\r'
    || c == '\U{000B}' || c == '\U{000C}' || c == '\U{00A0}' || c == '\U{1680}'
    || ('\U{2000}' <= c <= '\U{200A}')
    || c == '\U{2028}' || c == '\U{2029}' || c == '\U{202F}' || c == '\U{205F}'
    || c == '\U{3000}' || c == '\U{FEFF}'
  }

  /** The regular-expression class `\d`: ASCII digits only. */
  predicate IsDigit(c: char) {
    '0' <= c <= '9'
  }

  predicate AllDigits(s: string) {
    forall i :: 0 <= i < |s| ==> IsDigit(s[i])
  }

  predicate AllSpace(s: string) {
    forall i :: 0 <= i < |s| ==> IsSpace(s[i])
  }

  /** Removes leading whitespace. */
  function TrimStart(s: string): (r: string)
    ensures |r| <= |s| && r == s[|s| - |r|..]
    ensures r == [] || !IsSpace(r[0])
    ensures AllSpace(s[..|s| - |r|])
    decreases |s|
  {
    if |s| > 0 && IsSpace(s[0]) then
      var r := TrimStart(s[1..]);
      assert s[..|s| - |r|] == [s[0]] + s[1..][..|s| - 1 - |r|];
      r
    else s
  }

  /** Removes trailing whitespace. */
  function TrimEnd(s: string): (r: string)
    ensures |r| <= |s| && r == s[..|r|]
    ensures r == [] || !IsSpace(r[|r| - 1])
    ensures AllSpace(s[|r|..])
    decreases |s|
  {
    if |s| > 0 && IsSpace(s[|s| - 1]) then
      var r := TrimEnd(s[..|s| - 1]);
      assert s[|r|..] == s[..|s| - 1][|r|..] + [s[|s| - 1]];
      r
    else s
  }

  /**
   * `s.trim()`: the infix of `s` left once the whitespace on both sides is
   * removed; it neither starts nor ends with whitespace.
   */
  function Trim(s: string): (r: string)
    ensures |r| <= |s|
    ensures r == [] || (!IsSpace(r[0]) && !IsSpace(r[|r| - 1]))
    ensures exists i :: SpaceAround(s, r, i)
  {
    TrimInfix(s);
    TrimEnd(TrimStart(s))
  }

  /** `r` occurs in `s` at `i` with only whitespace before and after it. */
  predicate SpaceAround(s: string, r: string, i: int) {
    OccursAt(s, r, i) && AllSpace(s[..i]) && AllSpace(s[i + |r|..])
  }

  /** Trimming the start and then the end leaves an infix with only whitespace around it. */
  lemma TrimInfix(s: string)
    ensures SpaceAround(s, TrimEnd(TrimStart(s)), |s| - |TrimStart(s)|)
  {
    var t := TrimStart(s);
    var k := |s| - |t|;
    TrimEndInfix(s, k, t);
  }

  /** Trimming the end of the suffix `t` of `s` leaves an infix followed only by whitespace. */
  lemma TrimEndInfix(s: string, k: int, t: string)
    requires 0 <= k <= |s| && t == s[k..]
    ensures var r := TrimEnd(t); OccursAt(s, r, k) && AllSpace(s[k + |r|..])
  {
    var r := TrimEnd(t);
    assert s[k..k + |r|] == t[..|r|];
    assert s[k + |r|..] == t[|r|..];
  }

  /** A string is blank, i.e. `s.trim() === ""`, exactly when it is all whitespace. */
  lemma {:induction false} BlankIffAllSpace(s: string)
    ensures Trim(s) == "" <==> AllSpace(s)
  {
    var t := TrimStart(s);
    var k := |s| - |t|;
    assert s == s[..k] + t;
    if Trim(s) == "" {
      assert t[|TrimEnd(t)|..] == t;
    }
  }

  /** Trimming a string that already has no surrounding whitespace leaves it unchanged. */
  lemma TrimOfTrimmed(s: string)
    requires s == [] || (!IsSpace(s[0]) && !IsSpace(s[|s| - 1]))
    ensures Trim(s) == s
  {
  }

  /** ASCII lower-casing of one character. */
  function LowerChar(c: char): char {
    if 'A' <= c <= 'Z' then (c as int + 32) as char else c
  }

  /** `s.toLowerCase()` restricted to ASCII letters. */
  function Lower(s: string): (r: string)
    ensures |r| == |s|
    ensures forall i :: 0 <= i < |s| ==> r[i] == LowerChar(s[i])
  {
    seq(|s|, i requires 0 <= i < |s| => LowerChar(s[i]))
  }

  /** `sub` occurs in `s` at position `i`. */
  predicate OccursAt(s: string, sub: string, i: int) {
    0 <= i && i + |sub| <= |s| && s[i..i + |sub|] == sub
  }

  /** `s.includes(sub)`, written as a left-to-right scan. */
  predicate Contains(s: string, sub: string)
    decreases |s|
  {
    StartsWith(s, sub) || (|s| > 0 && Contains(s[1..], sub))
  }

  /** The scan finds `sub` exactly when `sub` occurs somewhere in `s`. */
  lemma {:induction false} ContainsIff(s: string, sub: string)
    ensures Contains(s, sub) <==> exists i :: OccursAt(s, sub, i)
    decreases |s|
  {
    if StartsWith(s, sub) {
      assert OccursAt(s, sub, 0);
    } else if |s| > 0 {
      ContainsIff(s[1..], sub);
      if Contains(s[1..], sub) {
        var i :| OccursAt(s[1..], sub, i);
        assert s[1..][i..i + |sub|] == s[i + 1..i + 1 + |sub|];
        assert OccursAt(s, sub, i + 1);
      }
      if exists i :: OccursAt(s, sub, i) {
        var i :| OccursAt(s, sub, i);
        assert i != 0;
        assert s[1..][i - 1..i - 1 + |sub|] == s[i..i + |sub|];
        assert OccursAt(s[1..], sub, i - 1);
      }
    }
  }

  /**
   * One character before another in UTF-16 code-unit order. Characters on
   * the same side of U+FFFF compare as code points; a character above it is
   * encoded from a high surrogate (U+D800 to U+DBFF), so it sorts after
   * every character below U+D800 and before every one from U+E000 up.
   */
  predicate UnitLess(x: char, y: char) {
    if (x as int < 0x1_0000) == (y as int < 0x1_0000) then x < y
    else if x as int < 0x1_0000 then x as int < 0xD800
    else y as int >= 0xE000
  }

  /** The UTF-16 encoding of one character. */
  function Units(c: char): (u: seq<int>)
    ensures |u| == Utf16Units(c)
    ensures forall k :: 0 <= k < |u| ==> 0 <= u[k] < 0x1_0000
  {
    if c as int < 0x1_0000 then [c as int]
    else [0xD800 + (c as int - 0x1_0000) / 0x400, 0xDC00 + (c as int - 0x1_0000) % 0x400]
  }

  /** The UTF-16 encoding of a string: the code units JavaScript stores. */
  function Encode(s: string): seq<int>
    decreases |s|
  {
    if s == [] then [] else Units(s[0]) + Encode(s[1..])
  }

  /** Lexicographic order on sequences of code units. */
  predicate UnitSeqLess(a: seq<int>, b: seq<int>)
    decreases |a|
  {
    if |a| == 0 then |b| > 0
    else if |b| == 0 then false
    else if a[0] != b[0] then a[0] < b[0]
    else UnitSeqLess(a[1..], b[1..])
  }

  /**
   * JavaScript's `<` on strings, which compares their UTF-16 code units one
   * by one (`EncodeOrder` ties the two). On the `YYYY-MM-DD` strings it is
   * applied to, `localeCompare` agrees with it.
   */
  predicate LexLess(a: string, b: string)
    decreases |a|
  {
    if |a| == 0 then |b| > 0
    else if |b| == 0 then false
    else if a[0] != b[0] then UnitLess(a[0], b[0])
    else LexLess(a[1..], b[1..])
  }

  /**
   * Where code-unit order departs from code-point order: U+10000 is encoded
   * from a high surrogate, which sorts before the single unit U+FFFF.
   */
  lemma AstralBeforeHighBmp()
    ensures LexLess("\U{10000}", "\U{FFFF}") && !LexLess("\U{FFFF}", "\U{10000}")
  {
  }

  /** A shared prefix does not change the order of two unit sequences. */
  lemma {:induction false} UnitSeqCancel(p: seq<int>, r: seq<int>, s: seq<int>)
    ensures UnitSeqLess(p + r, p + s) <==> UnitSeqLess(r, s)
    decreases |p|
  {
    if |p| > 0 {
      assert (p + r)[1..] == p[1..] + r && (p + s)[1..] == p[1..] + s;
      UnitSeqCancel(p[1..], r, s);
    } else {
      assert p + r == r && p + s == s;
    }
  }

  /**
   * Two different characters' encodings differ within the shorter of them, so
   * whatever follows them does not matter, and the first difference agrees
   * with `UnitLess`.
   */
  lemma UnitsFirstDifference(x: char, y: char, r: seq<int>, s: seq<int>)
    requires x != y
    ensures UnitSeqLess(Units(x) + r, Units(y) + s) <==> UnitLess(x, y)
  {
    var ux, uy := Units(x) + r, Units(y) + s;
    var a, b := x as int - 0x1_0000, y as int - 0x1_0000;
    if x as int >= 0x1_0000 && y as int >= 0x1_0000 && a / 0x400 == b / 0x400 {
      assert a % 0x400 != b % 0x400;
      assert ux[1..] == [0xDC00 + a % 0x400] + r && uy[1..] == [0xDC00 + b % 0x400] + s;
    } else if x as int >= 0x1_0000 && y as int >= 0x1_0000 {
      assert a / 0x400 < b / 0x400 <==> a < b;
    }
  }

  /** JavaScript's `<` on strings is the order of their UTF-16 encodings. */
  lemma {:induction false} EncodeOrder(a: string, b: string)
    ensures LexLess(a, b) <==> UnitSeqLess(Encode(a), Encode(b))
    decreases |a|
  {
    if |a| > 0 && |b| > 0 {
      if a[0] != b[0] {
        UnitsFirstDifference(a[0], b[0], Encode(a[1..]), Encode(b[1..]));
      } else {
        UnitSeqCancel(Units(a[0]), Encode(a[1..]), Encode(b[1..]));
        EncodeOrder(a[1..], b[1..]);
      }
    }
  }

  /** JavaScript's `a <= b` on strings. */
  predicate LexLessEq(a: string, b: string) {
    a == b || LexLess(a, b)
  }

  /** Strings that agree up to position `k` and differ there are ordered by that position. */
  lemma {:induction false} LexLessAt(a: string, b: string, k: nat)
    requires k < |a| && k < |b| && a[..k] == b[..k] && UnitLess(a[k], b[k])
    ensures LexLess(a, b)
    decreases k
  {
    if k > 0 {
      assert a[0] == a[..k][0] == b[..k][0] == b[0];
      assert a[1..][..k - 1] == a[..k][1..] == b[..k][1..] == b[1..][..k - 1];
      LexLessAt(a[1..], b[1..], k - 1);
    }
  }

  lemma {:induction false} LexIrreflexive(a: string)
    ensures !LexLess(a, a)
    decreases |a|
  {
    if |a| > 0 {
      LexIrreflexive(a[1..]);
    }
  }

  lemma {:induction false} LexTransitive(a: string, b: string, c: string)
    requires LexLess(a, b) && LexLess(b, c)
    ensures LexLess(a, c)
    decreases |a|
  {
    if |a| > 0 && a[0] == b[0] && b[0] == c[0] {
      LexTransitive(a[1..], b[1..], c[1..]);
    }
  }

  /** Any two different strings are ordered one way or the other. */
  lemma {:induction false} LexTotal(a: string, b: string)
    ensures a == b || LexLess(a, b) || LexLess(b, a)
    decreases |a|
  {
    if |a| > 0 && |b| > 0 && a[0] == b[0] {
      LexTotal(a[1..], b[1..]);
      if a[1..] == b[1..] {
        assert a == [a[0]] + a[1..] && b == [b[0]] + b[1..];
      }
    }
  }

  lemma LexAsymmetric(a: string, b: string)
    requires LexLess(a, b)
    ensures !LexLess(b, a)
  {
    if LexLess(b, a) {
      LexTransitive(a, b, a);
      LexIrreflexive(a);
    }
  }

  /** `a + x + b == a + y + b` only when `x == y`. */
  lemma InfixCancel(a: string, x: string, y: string, b: string)
    requires a + x + b == a + y + b
    ensures x == y
  {
    assert |x| == |y|;
    assert x == (a + x + b)[|a|..|a| + |x|];
    assert y == (a + y + b)[|a|..|a| + |y|];
  }

  /** The number a string of decimal digits denotes, read most significant first. */
  function DecimalValue(s: string): int
    decreases |s|
  {
    if |s| == 0 then 0 else DecimalValue(s[..|s| - 1]) * 10 + (s[|s| - 1] as int - '0' as int)
  }

  /**
   * The decimal rendering of a natural number, as a template literal produces
   * it: digits denoting `n`, with no leading zero except for `0` itself.
   */
  function NatToString(n: nat): (r: string)
    ensures |r| > 0 && AllDigits(r)
    ensures DecimalValue(r) == n
    ensures |r| == 1 || r[0] != '0'
    decreases n
  {
    var c := ('0' as int + n % 10) as char;
    if n < 10 then
      DecimalValueSnoc([], c);
      [c]
    else
      var p := NatToString(n / 10);
      DecimalValueSnoc(p, c);
      SingleDigitValue(p);
      p + [c]
  }

  lemma SingleDigitValue(p: string)
    ensures |p| == 1 ==> DecimalValue(p) == p[0] as int - '0' as int
  {
    if |p| == 1 {
      assert p[..0] == [];
    }
  }

  /** Appending a digit multiplies the value by ten and adds the digit. */
  lemma DecimalValueSnoc(p: string, c: char)
    ensures DecimalValue(p + [c]) == DecimalValue(p) * 10 + (c as int - '0' as int)
  {
    assert (p + [c])[..|p|] == p;
  }

  /**
   * The decimal rendering of an integer: the digits of a non-negative number,
   * or a minus sign followed by the digits of its magnitude.
   */
  function IntToString(i: int): (r: string)
    ensures |r| > 0
    ensures i >= 0 <==> AllDigits(r)
    ensures i >= 0 ==> DecimalValue(r) == i
    ensures i < 0 ==> r[0] == '-' && AllDigits(r[1..]) && DecimalValue(r[1..]) == -i
    ensures |r| == 1 || r[0] != '0'
    ensures i < 0 ==> |r| == 2 || r[1] != '0'
  {
    if i < 0 then
      var r := "-" + NatToString(-i);
      assert !IsDigit(r[0]);
      assert r[1..] == NatToString(-i);
      r
    else NatToString(i)
  }

  /** A rendered number holds only digits and a leading minus sign. */
  lemma IntToStringChars(i: int, k: int)
    requires 0 <= k < |IntToString(i)|
    ensures IsDigit(IntToString(i)[k]) || (k == 0 && IntToString(i)[k] == '-')
  {
    var r := IntToString(i);
    if i < 0 && k > 0 {
      assert r[k] == r[1..][k - 1];
    }
  }

  /** Different numbers render differently, so an id can be read back from a path. */
  lemma IntToStringInjective(a: int, b: int)
    ensures IntToString(a) == IntToString(b) <==> a == b
  {
  }
}
