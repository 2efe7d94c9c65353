/**
 * Models of the JavaScript string built-ins the application relies on, over
 * strings as sequences of code points:
 *   - the regular-expression class `\s`,
 *   - `String.prototype.toLowerCase`, restricted to ASCII letters,
 *   - `String.prototype.replace` with a global single-character class,
 *   - `String.prototype.includes`,
 *   - the decimal rendering of a safe non-negative integer (at most 2^53 - 1)
 *     in a template literal.
 */
module JsString {

  /** The ECMAScript `\s` class: the WhiteSpace and LineTerminator code points. */
  predicate IsWhitespace(c: char) {
    || c == '\t' || c == '\n' || c == '\U{000B}' || c == '\U{000C}' || c == '\r'
    || c == ' ' || c == '\U{00A0}' || c == '\U{1680}'
    || ('\U{2000}' <= c <= '\U{200A}')
    || c == '\U{2028}' || c == '\U{2029}' || c == '\U{202F}' || c == '\U{205F}'
    || c == '\U{3000}' || c == '\U{FEFF}'
  }

  predicate IsAsciiUpper(c: char) { 'A' <= c <= 'Z' }

  /** Lower-cases one character; only ASCII `A`-`Z` are changed. */
  function AsciiLower(c: char): (d: char)
    ensures !IsAsciiUpper(d)
    ensures !IsAsciiUpper(c) ==> d == c
    ensures IsAsciiUpper(c) ==> 'a' <= d <= 'z' && d as int == c as int + 32
  {
    if IsAsciiUpper(c) then (c as int - 'A' as int + 'a' as int) as char else c
  }

  /** `s.toLowerCase()`, with the ASCII-only case mapping above. */
  function ToLowerCase(s: string): (r: string)
    ensures |r| == |s|
    ensures forall i :: 0 <= i < |s| ==> r[i] == AsciiLower(s[i])
  {
    if s == [] then [] else [AsciiLower(s[0])] + ToLowerCase(s[1..])
  }

  lemma {:induction false} ToLowerCaseConcat(a: string, b: string)
    ensures ToLowerCase(a + b) == ToLowerCase(a) + ToLowerCase(b)
  {
    if a != [] {
      assert (a + b)[1..] == a[1..] + b;
      ToLowerCaseConcat(a[1..], b);
    }
  }

  /** Strings that differ only in the case of ASCII letters. */
  predicate SameUpToAsciiCase(a: string, b: string) {
    |a| == |b| && forall i :: 0 <= i < |a| ==> AsciiLower(a[i]) == AsciiLower(b[i])
  }

  lemma SameUpToAsciiCaseLowerEqual(a: string, b: string)
    ensures SameUpToAsciiCase(a, b) <==> ToLowerCase(a) == ToLowerCase(b)
  {
    if ToLowerCase(a) == ToLowerCase(b) {
      forall i | 0 <= i < |a| ensures AsciiLower(a[i]) == AsciiLower(b[i]) {
        assert ToLowerCase(a)[i] == ToLowerCase(b)[i];
      }
    }
  }

  /**
   * `s.replace(/[class]/g, repl)`: every character of the class is replaced by
   * `repl`, every other character is kept, left to right.
   */
  function ReplaceAll(s: string, inClass: char -> bool, repl: string): string
  {
    if s == [] then []
    else (if inClass(s[0]) then repl else [s[0]]) + ReplaceAll(s[1..], inClass, repl)
  }

  /** A global replacement acts character by character, so it distributes over `+`. */
  lemma {:induction false} ReplaceAllConcat(a: string, b: string, inClass: char -> bool, repl: string)
    ensures ReplaceAll(a + b, inClass, repl) == ReplaceAll(a, inClass, repl) + ReplaceAll(b, inClass, repl)
  {
    if a != [] {
      assert (a + b)[0] == a[0];
      assert (a + b)[1..] == a[1..] + b;
      ReplaceAllConcat(a[1..], b, inClass, repl);
    } else {
      assert a + b == b;
    }
  }

  lemma ReplaceAllShort(s: string, inClass: char -> bool, repl: string)
    requires |s| <= 1
    ensures ReplaceAll(s, inClass, repl) == if s == [] then [] else if inClass(s[0]) then repl else s
  {
    if s != [] {
      assert s[1..] == [];
    }
  }

  /** Two classes that agree on every character of `s` replace the same way. */
  lemma {:induction false} ReplaceAllCongruent(s: string, p: char -> bool, q: char -> bool, repl: string)
    requires forall c :: c in s ==> p(c) == q(c)
    ensures ReplaceAll(s, p, repl) == ReplaceAll(s, q, repl)
  {
    if s != [] {
      assert s[0] in s;
      assert forall c :: c in s[1..] ==> c in s;
      ReplaceAllCongruent(s[1..], p, q, repl);
    }
  }

  predicate StartsWith(s: string, prefix: string) {
    |prefix| <= |s| && s[..|prefix|] == prefix
  }

  /** `haystack.includes(needle)`. */
  predicate Includes(haystack: string, needle: string) {
    StartsWith(haystack, needle) || (haystack != [] && Includes(haystack[1..], needle))
  }

  /** The index form of `includes`: some slice of the haystack equals the needle. */
  ghost predicate OccursAt(haystack: string, needle: string, i: int) {
    0 <= i && i + |needle| <= |haystack| && haystack[i..i + |needle|] == needle
  }

  lemma {:induction false} IncludesIffOccurs(haystack: string, needle: string)
    ensures Includes(haystack, needle) <==> exists i :: OccursAt(haystack, needle, i)
  {
    if StartsWith(haystack, needle) {
      assert OccursAt(haystack, needle, 0);
    } else if haystack != [] {
      IncludesIffOccurs(haystack[1..], needle);
      if exists i :: OccursAt(haystack[1..], needle, i) {
        var i :| OccursAt(haystack[1..], needle, i);
        assert haystack[i + 1..i + 1 + |needle|] == haystack[1..][i..i + |needle|];
        assert OccursAt(haystack, needle, i + 1);
      }
      if exists i :: OccursAt(haystack, needle, i) {
        var i :| OccursAt(haystack, needle, i);
        assert i != 0;
        assert haystack[1..][i - 1..i - 1 + |needle|] == haystack[i..i + |needle|];
        assert OccursAt(haystack[1..], needle, i - 1);
      }
    }
  }

  /** Every string includes the empty string. */
  lemma IncludesEmpty(haystack: string)
    ensures Includes(haystack, "")
  {
  }

  /** A needle with a character the haystack lacks is not included. */
  lemma IncludesOnlyPresentChars(haystack: string, needle: string, c: char)
    requires c in needle && c !in haystack
    ensures !Includes(haystack, needle)
  {
    IncludesIffOccurs(haystack, needle);
  }

  /** `includes` is transitive: a piece of a piece of `h` is a piece of `h`. */
  lemma IncludesTransitive(h: string, q: string, q': string)
    requires Includes(h, q) && Includes(q, q')
    ensures Includes(h, q')
  {
    IncludesIffOccurs(h, q);
    IncludesIffOccurs(q, q');
    IncludesIffOccurs(h, q');
    var i :| OccursAt(h, q, i);
    var j :| OccursAt(q, q', j);
    forall k | 0 <= k < |q'| ensures h[i + j + k] == q'[k] {
      assert q'[k] == q[j..j + |q'|][k] == q[j + k];
      assert q[j + k] == h[i..i + |q|][j + k] == h[i + j + k];
    }
    assert h[i + j..i + j + |q'|] == q';
    assert OccursAt(h, q', i + j);
  }

  /** Lower-casing both sides keeps an occurrence: a piece of `h` lower-cases to a piece of `h` lower-cased. */
  lemma ToLowerCaseKeepsIncludes(h: string, q: string)
    requires Includes(h, q)
    ensures Includes(ToLowerCase(h), ToLowerCase(q))
  {
    IncludesIffOccurs(h, q);
    IncludesIffOccurs(ToLowerCase(h), ToLowerCase(q));
    var i :| OccursAt(h, q, i);
    forall k | 0 <= k < |q| ensures ToLowerCase(h)[i + k] == ToLowerCase(q)[k] {
      assert q[k] == h[i..i + |q|][k] == h[i + k];
    }
    assert ToLowerCase(h)[i..i + |q|] == ToLowerCase(q);
    assert OccursAt(ToLowerCase(h), ToLowerCase(q), i);
  }

  function DigitChar(d: nat): (c: char)
    requires d < 10
    ensures '0' <= c <= '9'
  {
    ('0' as int + d) as char
  }

  function DigitValue(c: char): nat {
    if '0' <= c <= '9' then c as int - '0' as int else 0
  }

  /**
   * The exact decimal digits of `n`. A template literal renders a safe
   * non-negative integer (at most 2^53 - 1) this way; above that,
   * JavaScript's rendering differs.
   */
  function Decimal(n: nat): (r: string)
    ensures |r| >= 1
    ensures forall c :: c in r ==> '0' <= c <= '9'
    ensures |r| > 1 ==> r[0] != '0'
  {
    if n < 10 then [DigitChar(n)] else Decimal(n / 10) + [DigitChar(n % 10)]
  }

  /** Reads a string of decimal digits back as a number. */
  function ParseDecimal(s: string): nat {
    if s == [] then 0 else 10 * ParseDecimal(s[..|s| - 1]) + DigitValue(s[|s| - 1])
  }

  lemma {:induction false} ParseDecimalInverts(n: nat)
    ensures ParseDecimal(Decimal(n)) == n
  {
    if n >= 10 {
      var s := Decimal(n);
      assert s[..|s| - 1] == Decimal(n / 10);
      ParseDecimalInverts(n / 10);
    }
  }

  /** Distinct numbers have distinct decimal texts. */
  lemma DecimalInjective(m: nat, n: nat)
    requires m != n
    ensures Decimal(m) != Decimal(n)
  {
    ParseDecimalInverts(m);
    ParseDecimalInverts(n);
  }
}
