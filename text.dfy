/** The string operations of the TypeScript code: decimal rendering and parsing
    of ids (`String(n)`, `Number(s)`), `padStart`, `trim`, and `replace` with a
    global pattern. */
module Text {

  predicate IsDigit(c: char) { '0' <= c <= '9' }

  predicate AllDigits(s: string) { forall i :: 0 <= i < |s| ==> IsDigit(s[i]) }

  /** The ticket-id test `!id || isNaN(Number(id))`, negated and simplified to
      "a non-empty run of ASCII digits". */
  predicate IsNumeric(s: string)
    ensures IsNumeric(s) <==> |s| > 0 && IsDigit(s[0]) && AllDigits(s[1..])
  {
    |s| > 0 && AllDigits(s)
  }

  /** An id rendered by `String(n)`, as the pages send it, passes the test
      and reads back as `n`; the placeholder `"main"` that two pages send
      before a ticket is chosen, and the empty string, fail it. */
  lemma IdStringsAccepted(n: nat)
    ensures IsNumeric(Decimal(n)) && ParseDecimal(Decimal(n)) == n
    ensures !IsNumeric("main") && !IsNumeric("")
  {
    ParseDecimalOfDecimal(n);
    assert !IsDigit("main"[0]);
  }

  function DigitValue(c: char): nat
    requires IsDigit(c)
  {
    (c as int) - ('0' as int)
  }

  function DigitChar(d: nat): (c: char)
    requires d < 10
    ensures IsDigit(c) && DigitValue(c) == d
  {
    (('0' as int) + d) as char
  }

  /** `Number(s)` for a string of digits. */
  function ParseDecimal(s: string): (n: nat)
    requires AllDigits(s)
    ensures s == [] ==> n == 0
    ensures |s| > 0 ==> n % 10 == DigitValue(s[|s| - 1])
  {
    if s == [] then 0 else 10 * ParseDecimal(s[..|s| - 1]) + DigitValue(s[|s| - 1])
  }

  /** `String(n)` for a natural number. */
  function Decimal(n: nat): (r: string)
    ensures IsNumeric(r)
  {
    if n < 10 then [DigitChar(n)] else Decimal(n / 10) + [DigitChar(n % 10)]
  }

  /** Rendering a number and parsing it back gives the number. */
  lemma {:induction false} ParseDecimalOfDecimal(n: nat)
    ensures ParseDecimal(Decimal(n)) == n
  {
    if n >= 10 {
      var s := Decimal(n);
      assert s[..|s| - 1] == Decimal(n / 10);
      ParseDecimalOfDecimal(n / 10);
    }
  }

  /** A character outside the Basic Multilingual Plane, which UTF-16 stores
      as a surrogate pair. */
  predicate IsAstral(c: char) { c as int > 0xFFFF }

  /** `s.length` in JavaScript: the number of UTF-16 code units, two for each
      astral character and one for every other. */
  function Utf16Length(s: string): (n: nat)
    ensures |s| <= n <= 2 * |s|
    ensures (forall i :: 0 <= i < |s| ==> !IsAstral(s[i])) ==> n == |s|
    ensures (forall i :: 0 <= i < |s| ==> IsAstral(s[i])) ==> n == 2 * |s|
  {
    if s == [] then 0
    else Utf16Length(s[..|s| - 1]) + (if IsAstral(s[|s| - 1]) then 2 else 1)
  }

  function Repeat(c: char, n: nat): (r: string)
    ensures |r| == n && forall i :: 0 <= i < n ==> r[i] == c
  {
    seq(n, _ => c)
  }

  /** `s.padStart(width, c)` for a one-character pad. */
  function PadStart(s: string, width: nat, c: char): (r: string)
    ensures |r| == if |s| >= width then |s| else width
    ensures s == r[|r| - |s|..]
    ensures forall i :: 0 <= i < |r| - |s| ==> r[i] == c
  {
    if |s| >= width then s else Repeat(c, width - |s|) + s
  }

  /** Leading zeros do not change the value of a digit string. */
  lemma {:induction false} ParseDecimalLeadingZeros(k: nat, s: string)
    requires AllDigits(s)
    ensures AllDigits(Repeat('0', k) + s)
    ensures ParseDecimal(Repeat('0', k) + s) == ParseDecimal(s)
  {
    var z := Repeat('0', k);
    if s == [] {
      assert z + s == z;
      if k > 0 {
        assert z[..k - 1] == Repeat('0', k - 1);
        ParseDecimalLeadingZeros(k - 1, []);
        assert Repeat('0', k - 1) + [] == Repeat('0', k - 1);
      }
    } else {
      var init := s[..|s| - 1];
      assert (z + s)[..|z + s| - 1] == z + init;
      ParseDecimalLeadingZeros(k, init);
    }
  }

  /** The characters `String.prototype.trim` removes: the ECMAScript
      WhiteSpace and LineTerminator code points. */
  predicate IsJsWhitespace(c: char) {
    c == ' ' || c == '\t' || c == '\n' || c == '\r' || c == '\U{000B}' || c == '\U{000C}'
    || c == '\U{00A0}' || c == '\U{1680}' || ('\U{2000}' <= c <= '\U{200A}')
    || c == '\U{2028}' || c == '\U{2029}' || c == '\U{202F}' || c == '\U{205F}'
    || c == '\U{3000}' || c == '\U{FEFF}'
  }

  function TrimStart(s: string): (r: string)
    ensures |r| <= |s| && r == s[|s| - |r|..]
    ensures r == [] || !IsJsWhitespace(r[0])
    ensures forall k :: 0 <= k < |s| - |r| ==> IsJsWhitespace(s[k])
  {
    if s != [] && IsJsWhitespace(s[0]) then TrimStart(s[1..]) else s
  }

  function TrimEnd(s: string): (r: string)
    ensures |r| <= |s| && r == s[..|r|]
    ensures r == [] || !IsJsWhitespace(r[|r| - 1])
    ensures forall k :: |r| <= k < |s| ==> IsJsWhitespace(s[k])
  {
    if s != [] && IsJsWhitespace(s[|s| - 1]) then TrimEnd(s[..|s| - 1]) else s
  }

  /** `s.trim()`: the input with the whitespace cut from both ends. The cut
      is maximal, since what is left neither starts nor ends with
      whitespace; an input made only of whitespace gives "". */
  function Trim(s: string): (r: string)
    ensures |r| <= |s|
    ensures r == [] || (!IsJsWhitespace(r[0]) && !IsJsWhitespace(r[|r| - 1]))
    ensures exists i, j ::
      && 0 <= i <= j <= |s| && r == s[i..j]
      && (forall k :: 0 <= k < i ==> IsJsWhitespace(s[k]))
      && (forall k :: j <= k < |s| ==> IsJsWhitespace(s[k]))
  {
    var t := TrimStart(s);
    var r := TrimEnd(t);
    var i, j := |s| - |t|, |s| - |t| + |r|;
    assert r == s[i..j];
    assert forall k :: j <= k < |s| ==> s[k] == t[k - i];
    r
  }

  predicate StartsWith(s: string, p: string) {
    |p| <= |s| && s[..|p|] == p
  }

  /** `s.replace(/p/g, r)` where `p` matches itself literally and `r` holds no
      `$` replacement pattern: every non-overlapping occurrence of `p`, found
      from left to right, is replaced by `r`. */
  function ReplaceAll(s: string, p: string, r: string): (out: string)
    requires |p| > 0
    ensures p[0] !in s ==> out == s
    decreases |s|
  {
    if |s| < |p| then s
    else if s[..|p|] == p then r + ReplaceAll(s[|p|..], p, r)
    else [s[0]] + ReplaceAll(s[1..], p, r)
  }

  /** A text in which no occurrence of `p` starts is copied unchanged in front of
      the rest. */
  lemma ReplaceAllSkips(x: string, t: string, p: string, r: string)
    requires |p| > 0
    requires forall i :: 0 <= i < |x| ==> !StartsWith((x + t)[i..], p)
    ensures ReplaceAll(x + t, p, r) == x + ReplaceAll(t, p, r)
  {
    var s := x + t;
    ReplaceAllSkipsPrefix(s, |x|, p, r);
    assert s[..|x|] == x && s[|x|..] == t;
  }

  /** The first `n` characters of `s`, none of which starts an occurrence of
      `p`, are copied unchanged. */
  lemma {:induction false} ReplaceAllSkipsPrefix(s: string, n: nat, p: string, r: string)
    requires |p| > 0 && n <= |s|
    requires forall i :: 0 <= i < n ==> !StartsWith(s[i..], p)
    ensures ReplaceAll(s, p, r) == s[..n] + ReplaceAll(s[n..], p, r)
  {
    if n == 0 {
      assert s[..0] + ReplaceAll(s[0..], p, r) == ReplaceAll(s, p, r) by {
        assert s[0..] == s;
      }
    } else {
      var rest := s[n - 1..];
      var tail := ReplaceAll(s[n..], p, r);
      calc {
        ReplaceAll(s, p, r);
      == { ReplaceAllSkipsPrefix(s, n - 1, p, r); }
        s[..n - 1] + ReplaceAll(rest, p, r);
      == { assert !StartsWith(rest, p); ReplaceAllStep(rest, p, r); assert rest[1..] == s[n..]; }
        s[..n - 1] + ([s[n - 1]] + tail);
      == { assert s[..n - 1] + [s[n - 1]] == s[..n]; }
        s[..n] + tail;
      }
    }
  }

  /** Where no occurrence of `p` starts, the first character is copied. */
  lemma ReplaceAllStep(s: string, p: string, r: string)
    requires |p| > 0 && |s| > 0 && !StartsWith(s, p)
    ensures ReplaceAll(s, p, r) == [s[0]] + ReplaceAll(s[1..], p, r)
  {
    if |s| < |p| {
      assert ReplaceAll(s[1..], p, r) == s[1..];
      assert [s[0]] + s[1..] == s;
    }
  }

  /** An occurrence of `p` in front is replaced and scanning resumes after it. */
  lemma ReplaceAllMatch(t: string, p: string, r: string)
    requires |p| > 0
    ensures ReplaceAll(p + t, p, r) == r + ReplaceAll(t, p, r)
  {
    assert (p + t)[..|p|] == p;
    assert (p + t)[|p|..] == t;
  }

  /** A text without the first character of `p` holds no occurrence of it. */
  lemma NoLeadCharSkips(x: string, t: string, p: string, r: string)
    requires |p| > 0 && p[0] !in x
    ensures ReplaceAll(x + t, p, r) == x + ReplaceAll(t, p, r)
  {
    forall i | 0 <= i < |x| ensures !StartsWith((x + t)[i..], p) {
      assert (x + t)[i..][0] == x[i];
    }
    ReplaceAllSkips(x, t, p, r);
  }
}
