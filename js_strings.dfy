/** The JavaScript string built-ins the program relies on: `trim`,
    `split` on one character, `join`, `String(n)` of an integer and
    `toUpperCase` (restricted to ASCII letters). */
module JsStrings {

  /** WhiteSpace and LineTerminator code points of ECMA-262 (sections 12.2
      and 12.3): the characters `String.prototype.trim` strips. */
  predicate IsJsWhitespace(c: char) {
    || c == '\t' || c == '\n' || c == '\U{000B}' || c == '\U{000C}' || c == '\r'
    || c == ' ' || c == '\U{00A0}' || c == '\U{1680}'
    || ('\U{2000}' <= c <= '\U{200A}')
    || c == '\U{2028}' || c == '\U{2029}' || c == '\U{202F}' || c == '\U{205F}'
    || c == '\U{3000}' || c == '\U{FEFF}'
  }

  /** No whitespace at either end. */
  predicate IsTrimmed(s: string) {
    s == [] || (!IsJsWhitespace(s[0]) && !IsJsWhitespace(s[|s| - 1]))
  }

  /** Drops leading whitespace: the result is the suffix of `s` that starts
      at its first non-whitespace character. */
  function TrimStart(s: string): (r: string)
    ensures |r| <= |s| && r == s[|s| - |r|..]
    ensures r == [] || !IsJsWhitespace(r[0])
    ensures forall i :: 0 <= i < |s| - |r| ==> IsJsWhitespace(s[i])
  {
    if s != [] && IsJsWhitespace(s[0]) then TrimStart(s[1..]) else s
  }

  /** Drops trailing whitespace: the result is the prefix of `s` that ends
      at its last non-whitespace character. */
  function TrimEnd(s: string): (r: string)
    ensures |r| <= |s| && r == s[..|r|]
    ensures r == [] || !IsJsWhitespace(r[|r| - 1])
    ensures forall i :: |r| <= i < |s| ==> IsJsWhitespace(s[i])
  {
    if s != [] && IsJsWhitespace(s[|s| - 1]) then TrimEnd(s[..|s| - 1]) else s
  }

  /** Cutting `s` down to `s[i..j]` removes only whitespace. */
  predicate CutsOnlyWhitespace(s: string, i: int, j: int) {
    && 0 <= i <= j <= |s|
    && (forall k :: 0 <= k < i ==> IsJsWhitespace(s[k]))
    && (forall k :: j <= k < |s| ==> IsJsWhitespace(s[k]))
  }

  /** `s.trim()`: no whitespace at either end, made only of characters of
      `s`, and empty exactly when `s` is all whitespace. TrimIsSlice states
      that it is `s` with only the whitespace at its two ends cut off. */
  function Trim(s: string): (r: string)
    ensures IsTrimmed(r)
    ensures |r| <= |s|
    ensures forall c :: c in r ==> c in s
    ensures r == [] <==> forall i :: 0 <= i < |s| ==> IsJsWhitespace(s[i])
  {
    var t := TrimStart(s);
    var r := TrimEnd(t);
    assert forall c :: c in r ==> c in t;
    assert forall c :: c in t ==> c in s;
    assert forall i :: |s| - |t| <= i < |s| ==> s[i] == t[i - (|s| - |t|)];
    r
  }

  /** The trim of `s` is a slice `s[i..j]` with nothing but whitespace
      outside it. */
  lemma {:induction false} TrimIsSlice(s: string)
    ensures exists i, j :: CutsOnlyWhitespace(s, i, j) && Trim(s) == s[i..j]
  {
    var t := TrimStart(s);
    var i := |s| - |t|;
    var r := TrimEnd(t);
    var j := i + |r|;
    assert r == s[i..j] by {
      assert t == s[i..];
      assert r == t[..|r|];
    }
    TrailingWhitespace(s, i);
    assert CutsOnlyWhitespace(s, i, j);
  }

  /** What TrimEnd cuts off a suffix of `s` is whitespace of `s`. */
  lemma {:induction false} TrailingWhitespace(s: string, i: int)
    requires 0 <= i <= |s|
    ensures forall k :: i + |TrimEnd(s[i..])| <= k < |s| ==> IsJsWhitespace(s[k])
  {
    var t := s[i..];
    forall k | i + |TrimEnd(t)| <= k < |s| ensures IsJsWhitespace(s[k]) {
      assert s[k] == t[k - i];
    }
  }

  lemma {:induction false} TrimOfTrimmed(s: string)
    requires IsTrimmed(s)
    ensures Trim(s) == s
  {
  }

  /** Trimming removes any amount of leading whitespace in front of an
      already trimmed string. */
  lemma {:induction false} TrimAfterSpaces(pad: string, s: string)
    requires forall i :: 0 <= i < |pad| ==> IsJsWhitespace(pad[i])
    requires IsTrimmed(s)
    ensures Trim(pad + s) == s
  {
    if pad == [] {
      assert pad + s == s;
    } else {
      assert (pad + s)[1..] == pad[1..] + s;
      TrimAfterSpaces(pad[1..], s);
    }
  }

  /** `s.split(sep)` for a one-character separator: always at least one
      piece (`"".split(",")` is `[""]`), and no piece holds the separator. */
  function Split(s: string, sep: char): (parts: seq<string>)
    ensures |parts| >= 1
    ensures forall i :: 0 <= i < |parts| ==> sep !in parts[i]
  {
    if s == [] then [[]]
    else
      var rest := Split(s[1..], sep);
      if s[0] == sep then [[]] + rest
      else [[s[0]] + rest[0]] + rest[1..]
  }

  /** `parts.join(sep)`. */
  function Join(parts: seq<string>, sep: string): string
  {
    if |parts| == 0 then []
    else if |parts| == 1 then parts[0]
    else parts[0] + sep + Join(parts[1..], sep)
  }

  /** Splitting and joining back with the same separator gives the
      original string. */
  lemma {:induction false} JoinSplit(s: string, sep: char)
    ensures Join(Split(s, sep), [sep]) == s
  {
    if s != [] {
      var rest := Split(s[1..], sep);
      JoinSplit(s[1..], sep);
      if s[0] == sep {
        assert Split(s, sep) == [[]] + rest;
        assert (([[]] + rest)[1..]) == rest;
        assert s == [sep] + s[1..];
      } else {
        var parts := [[s[0]] + rest[0]] + rest[1..];
        assert Split(s, sep) == parts;
        if |rest| == 1 {
          assert Join(rest, [sep]) == rest[0];
        } else {
          assert parts[1..] == rest[1..];
          assert Join(rest, [sep]) == rest[0] + [sep] + Join(rest[1..], [sep]);
        }
      }
    }
  }

  /** A piece free of the separator, followed by the separator, splits as
      that piece in front of the rest's pieces. */
  lemma {:induction false} SplitAfterPiece(a: string, sep: char, b: string)
    requires sep !in a
    ensures Split(a + [sep] + b, sep) == [a] + Split(b, sep)
  {
    if a == [] {
      assert a + [sep] + b == [sep] + b;
      assert ([sep] + b)[1..] == b;
    } else {
      assert (a + [sep] + b)[1..] == a[1..] + [sep] + b;
      SplitAfterPiece(a[1..], sep, b);
      assert [a[0]] + a[1..] == a;
    }
  }

  /** Splitting at one separator between `a` and `b` splits each side on
      its own: the pieces of `a`, then the pieces of `b`. */
  lemma {:induction false} SplitAtSeparator(a: string, sep: char, b: string)
    ensures Split(a + [sep] + b, sep) == Split(a, sep) + Split(b, sep)
  {
    var right := Split(b, sep);
    if a == [] {
      assert a + [sep] + b == [sep] + b;
      SplitCons(sep, b, sep);
    } else {
      var u := a[1..] + [sep] + b;
      assert a + [sep] + b == [a[0]] + u;
      assert a == [a[0]] + a[1..];
      SplitAtSeparator(a[1..], sep, b);
      var left := Split(a[1..], sep);
      SplitCons(a[0], u, sep);
      SplitCons(a[0], a[1..], sep);
      PushPieceOfConcat(a[0], sep, left, right);
    }
  }

  /** The pieces after one more character `c` in front, given the pieces
      of the rest. */
  function PushPiece(c: char, sep: char, pieces: seq<string>): seq<string>
    requires |pieces| >= 1
  {
    if c == sep then [[]] + pieces else [[c] + pieces[0]] + pieces[1..]
  }

  /** One step of `split`: a leading separator starts a new piece, any
      other character joins the first piece. */
  lemma {:induction false} SplitCons(c: char, u: string, sep: char)
    ensures Split([c] + u, sep) == PushPiece(c, sep, Split(u, sep))
  {
    assert ([c] + u)[1..] == u;
  }

  lemma {:induction false} PushPieceOfConcat(c: char, sep: char, left: seq<string>, right: seq<string>)
    requires |left| >= 1
    ensures PushPiece(c, sep, left + right) == PushPiece(c, sep, left) + right
  {
    if c != sep {
      assert (left + right)[1..] == left[1..] + right;
    }
  }

  /** A string without the separator is a single piece. */
  lemma {:induction false} SplitWithoutSeparator(a: string, sep: char)
    requires sep !in a
    ensures Split(a, sep) == [a]
  {
    if a != [] {
      SplitWithoutSeparator(a[1..], sep);
      assert [a[0]] + a[1..] == a;
    }
  }

  /** Joining separator-free pieces and splitting again gives the pieces
      back. */
  lemma {:induction false} SplitJoin(parts: seq<string>, sep: char)
    requires |parts| >= 1
    requires forall i :: 0 <= i < |parts| ==> sep !in parts[i]
    ensures Split(Join(parts, [sep]), sep) == parts
  {
    if |parts| == 1 {
      SplitWithoutSeparator(parts[0], sep);
    } else {
      SplitJoin(parts[1..], sep);
      SplitAfterPiece(parts[0], sep, Join(parts[1..], [sep]));
    }
  }

  /** The decimal digit for 0..9. */
  function DigitChar(d: int): (c: char)
    requires 0 <= d < 10
    ensures '0' <= c <= '9'
  {
    ('0' as int + d) as char
  }

  function DigitValue(c: char): int
    requires '0' <= c <= '9'
  {
    c as int - '0' as int
  }

  predicate IsDigits(s: string) {
    forall i :: 0 <= i < |s| ==> '0' <= s[i] <= '9'
  }

  /** The decimal rendering of a natural number, as `String(n)` gives it. */
  function NatToString(n: nat): (s: string)
    ensures |s| >= 1 && IsDigits(s)
    ensures s[0] == '0' ==> n == 0
  {
    if n < 10 then [DigitChar(n)] else NatToString(n / 10) + [DigitChar(n % 10)]
  }

  /** `String(n)` for an integer. */
  function IntToString(n: int): string
  {
    if n < 0 then "-" + NatToString(-n) else NatToString(n)
  }

  /** Reads a string of decimal digits as a number (the partner of
      NatToString). */
  function ParseDigits(s: string): nat
    requires IsDigits(s)
  {
    if s == [] then 0 else ParseDigits(s[..|s| - 1]) * 10 + DigitValue(s[|s| - 1])
  }

  /** Rendering a number in decimal loses nothing: reading it back gives the
      number. */
  lemma {:induction false} ParseNatToString(n: nat)
    ensures ParseDigits(NatToString(n)) == n
  {
    if n >= 10 {
      var s := NatToString(n);
      ParseNatToString(n / 10);
      assert s[..|s| - 1] == NatToString(n / 10);
    }
  }

  /** Rendering is injective: different numbers give different strings,
      and the sign is visible in the first character. */
  lemma {:induction false} IntToStringInjective(m: int, n: int)
    requires IntToString(m) == IntToString(n)
    ensures m == n
  {
    var s := IntToString(m);
    assert (s[0] == '-') == (m < 0) by { SignVisible(m); }
    assert (s[0] == '-') == (n < 0) by { SignVisible(n); }
    var a: nat := if m < 0 then -m else m;
    var b: nat := if n < 0 then -n else n;
    assert NatToString(a) == NatToString(b) by {
      if m < 0 {
        assert NatToString(a) == s[1..] == NatToString(b);
      }
    }
    ParseNatToString(a);
    ParseNatToString(b);
  }

  lemma SignVisible(n: int)
    ensures (IntToString(n)[0] == '-') == (n < 0)
  {
    if n >= 0 {
      var t := NatToString(n);
      assert '0' <= t[0] <= '9';
    }
  }

  /** `toUpperCase` on one character, ASCII letters only: a lower-case
      letter becomes its upper-case partner, every other character is
      kept, so no lower-case letter is left and letters stay letters. */
  function ToUpperAscii(c: char): (u: char)
    ensures 'a' <= c <= 'z' ==> u as int == c as int - 32
    ensures u != c <==> 'a' <= c <= 'z'
    ensures !('a' <= u <= 'z')
    ensures ('A' <= u <= 'Z') <==> ('a' <= c <= 'z' || 'A' <= c <= 'Z')
  {
    if 'a' <= c <= 'z' then (c as int - 32) as char else c
  }

  /** Upper-casing twice is upper-casing once. */
  lemma ToUpperAsciiIdempotent(c: char)
    ensures ToUpperAscii(ToUpperAscii(c)) == ToUpperAscii(c)
  {
  }

  /** Two characters upper-case alike only when they are equal or one is
      the lower-case partner of the other. */
  lemma ToUpperAsciiCaseInsensitive(c: char, d: char)
    requires ToUpperAscii(c) == ToUpperAscii(d)
    ensures c == d || c as int - d as int == 32 || d as int - c as int == 32
  {
  }
}
