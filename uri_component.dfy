/** JavaScript's `encodeURIComponent`: every character outside the
    unreserved set is written as the `%XY` escapes (RFC 3986 section 2.1,
    upper-case hexadecimal) of its UTF-8 bytes (RFC 3629 section 3).
    `Decode` is the matching decoder, the partner that shows the encoding
    loses nothing. */
module UriComponent {
  import opened Wrappers

  /** The characters `encodeURIComponent` leaves alone: ASCII letters,
      digits and `- _ . ! ~ * ' ( )`. */
  predicate IsUnreserved(c: char) {
    || ('A' <= c <= 'Z') || ('a' <= c <= 'z') || ('0' <= c <= '9')
    || c == '-' || c == '_' || c == '.' || c == '!' || c == '~'
    || c == '*' || c == '\'' || c == '(' || c == ')'
  }

  predicate IsByte(b: int) {
    0 <= b < 256
  }

  predicate IsUpperHex(c: char) {
    ('0' <= c <= '9') || ('A' <= c <= 'F')
  }

  /** Hex digits as a decoder accepts them, in either case. */
  predicate IsHex(c: char) {
    ('0' <= c <= '9') || ('A' <= c <= 'F') || ('a' <= c <= 'f')
  }

  function HexDigit(d: int): (c: char)
    requires 0 <= d < 16
    ensures IsUpperHex(c)
  {
    if d < 10 then ('0' as int + d) as char else ('A' as int + d - 10) as char
  }

  function HexValue(c: char): (d: int)
    requires IsHex(c)
    ensures 0 <= d < 16
  {
    if '0' <= c <= '9' then c as int - '0' as int
    else if 'A' <= c <= 'F' then c as int - 'A' as int + 10
    else c as int - 'a' as int + 10
  }

  /** The UTF-8 encoding of one Unicode scalar value. */
  function Utf8Bytes(c: char): (bs: seq<int>)
    ensures 1 <= |bs| <= 4
    ensures forall i :: 0 <= i < |bs| ==> IsByte(bs[i])
  {
    var n := c as int;
    if n < 0x80 then [n]
    else if n < 0x800 then [0xC0 + n / 64, 0x80 + n % 64]
    else if n < 0x10000 then [0xE0 + n / 4096, 0x80 + (n / 64) % 64, 0x80 + n % 64]
    else [0xF0 + n / 262144, 0x80 + (n / 4096) % 64, 0x80 + (n / 64) % 64, 0x80 + n % 64]
  }

  /** `%XY` for each byte. */
  function PercentBytes(bs: seq<int>): (s: string)
    requires forall i :: 0 <= i < |bs| ==> IsByte(bs[i])
    ensures |s| == 3 * |bs|
  {
    if bs == [] then []
    else
      var b := bs[0];
      assert IsByte(b);
      ['%', HexDigit(b / 16), HexDigit(b % 16)] + PercentBytes(bs[1..])
  }

  function EncodeChar(c: char): string {
    if IsUnreserved(c) then [c] else PercentBytes(Utf8Bytes(c))
  }

  /** `encodeURIComponent(s)`. The result holds only unreserved characters,
      `%` and upper-case hex digits, and a string of unreserved characters
      is returned as it is. */
  function EncodeURIComponent(s: string): (r: string)
    ensures forall i :: 0 <= i < |r| ==> IsUnreserved(r[i]) || r[i] == '%' || IsUpperHex(r[i])
    ensures (forall i :: 0 <= i < |s| ==> IsUnreserved(s[i])) ==> r == s
  {
    if s == [] then []
    else
      var head := EncodeChar(s[0]);
      assert forall i :: 0 <= i < |head| ==> IsUnreserved(head[i]) || head[i] == '%' || IsUpperHex(head[i]) by {
        if IsUnreserved(s[0]) {
          assert head == [s[0]];
        } else {
          PercentBytesAlphabet(Utf8Bytes(s[0]));
        }
      }
      head + EncodeURIComponent(s[1..])
  }

  lemma {:induction false} PercentBytesAlphabet(bs: seq<int>)
    requires forall i :: 0 <= i < |bs| ==> IsByte(bs[i])
    ensures forall i :: 0 <= i < |PercentBytes(bs)| ==> PercentBytes(bs)[i] == '%' || IsUpperHex(PercentBytes(bs)[i])
  {
    if bs != [] {
      PercentBytesAlphabet(bs[1..]);
      var s := PercentBytes(bs);
      var rest := PercentBytes(bs[1..]);
      var b := bs[0];
      assert IsByte(b);
      assert s == ['%', HexDigit(b / 16), HexDigit(b % 16)] + rest;
      assert forall i :: 3 <= i < |s| ==> s[i] == rest[i - 3];
    }
  }

  /** Reads `n` escapes `%XY` at the front of `s`. */
  function ReadBytes(s: string, n: nat): (r: Option<seq<int>>)
    ensures r.Some? ==> |r.value| == n && |s| >= 3 * n
    ensures r.Some? ==> forall i :: 0 <= i < n ==> IsByte(r.value[i])
  {
    if n == 0 then Some([])
    else if |s| < 3 || s[0] != '%' || !IsHex(s[1]) || !IsHex(s[2]) then None
    else match ReadBytes(s[3..], n - 1)
      case None => None
      case Some(rest) => Some([HexValue(s[1]) * 16 + HexValue(s[2])] + rest)
  }

  /** How many bytes a UTF-8 sequence with this first byte has; 0 when no
      well-formed sequence starts with it. */
  function SequenceLength(lead: int): nat {
    if 0 <= lead < 0x80 then 1
    else if 0xC2 <= lead < 0xE0 then 2
    else if 0xE0 <= lead < 0xF0 then 3
    else if 0xF0 <= lead < 0xF5 then 4
    else 0
  }

  predicate IsContinuation(b: int) {
    0x80 <= b < 0xC0
  }

  predicate IsScalarValue(v: int) {
    (0 <= v < 0xD800) || (0xE000 <= v < 0x110000)
  }

  /** Decodes one well-formed UTF-8 sequence (no overlong forms, no
      surrogates, nothing above U+10FFFF). */
  function Utf8Decode(bs: seq<int>): Option<char>
    requires 1 <= |bs| <= 4
  {
    var v :=
      if |bs| == 1 then bs[0]
      else if |bs| == 2 then (bs[0] - 0xC0) * 64 + (bs[1] - 0x80)
      else if |bs| == 3 then (bs[0] - 0xE0) * 4096 + (bs[1] - 0x80) * 64 + (bs[2] - 0x80)
      else (bs[0] - 0xF0) * 262144 + (bs[1] - 0x80) * 4096 + (bs[2] - 0x80) * 64 + (bs[3] - 0x80);
    var least := if |bs| == 1 then 0 else if |bs| == 2 then 0x80 else if |bs| == 3 then 0x800 else 0x10000;
    if SequenceLength(bs[0]) == |bs| && (forall i :: 1 <= i < |bs| ==> IsContinuation(bs[i]))
       && least <= v && IsScalarValue(v)
    then Some(v as char)
    else None
  }

  function Prepend(c: char, r: Option<string>): Option<string> {
    match r
    case None => None
    case Some(t) => Some([c] + t)
  }

  /** Percent-decoding of a whole string; `None` on a malformed escape or
      byte sequence. */
  function Decode(s: string): Option<string>
    decreases |s|
  {
    if s == [] then Some([])
    else if s[0] != '%' then Prepend(s[0], Decode(s[1..]))
    else match ReadBytes(s, 1)
      case None => None
      case Some(lead) =>
        var n := SequenceLength(lead[0]);
        if n == 0 then None
        else match ReadBytes(s, n)
          case None => None
          case Some(bs) =>
            match Utf8Decode(bs)
            case None => None
            case Some(c) => Prepend(c, Decode(s[3 * n..]))
  }

  lemma {:induction false} ReadPercentBytes(bs: seq<int>, t: string)
    requires forall i :: 0 <= i < |bs| ==> IsByte(bs[i])
    ensures ReadBytes(PercentBytes(bs) + t, |bs|) == Some(bs)
  {
    if bs != [] {
      var s := PercentBytes(bs) + t;
      assert s[3..] == PercentBytes(bs[1..]) + t;
      ReadPercentBytes(bs[1..], t);
      assert [bs[0]] + bs[1..] == bs;
    }
  }

  lemma ReadFirstByte(bs: seq<int>, t: string)
    requires 1 <= |bs| && forall i :: 0 <= i < |bs| ==> IsByte(bs[i])
    ensures ReadBytes(PercentBytes(bs) + t, 1) == Some([bs[0]])
  {
    var s := PercentBytes(bs) + t;
    assert s[..3] == PercentBytes([bs[0]]);
    assert s == PercentBytes([bs[0]]) + s[3..];
    ReadPercentBytes([bs[0]], s[3..]);
  }

  lemma Utf8RoundTrip(c: char)
    ensures var bs := Utf8Bytes(c); SequenceLength(bs[0]) == |bs| && Utf8Decode(bs) == Some(c)
  {
    var n := c as int;
    if n < 0x80 {
    } else if n < 0x800 {
      Utf8RoundTrip2(n);
    } else if n < 0x10000 {
      Utf8RoundTrip3(n);
    } else {
      Utf8RoundTrip4(n);
    }
  }

  lemma Utf8RoundTrip2(n: int)
    requires 0x80 <= n < 0x800
    ensures var bs := [0xC0 + n / 64, 0x80 + n % 64];
      SequenceLength(bs[0]) == 2 && IsContinuation(bs[1]) && (bs[0] - 0xC0) * 64 + (bs[1] - 0x80) == n
  {
  }

  lemma Utf8RoundTrip3(n: int)
    requires 0x800 <= n < 0x10000
    ensures var bs := [0xE0 + n / 4096, 0x80 + (n / 64) % 64, 0x80 + n % 64];
      && SequenceLength(bs[0]) == 3 && IsContinuation(bs[1]) && IsContinuation(bs[2])
      && (bs[0] - 0xE0) * 4096 + (bs[1] - 0x80) * 64 + (bs[2] - 0x80) == n
  {
    var q := n / 64;
    assert n == q * 64 + n % 64;
    assert q == (q / 64) * 64 + q % 64;
    assert q / 64 == n / 4096;
  }

  lemma Utf8RoundTrip4(n: int)
    requires 0x10000 <= n < 0x110000
    ensures var bs := [0xF0 + n / 262144, 0x80 + (n / 4096) % 64, 0x80 + (n / 64) % 64, 0x80 + n % 64];
      && SequenceLength(bs[0]) == 4 && IsContinuation(bs[1]) && IsContinuation(bs[2]) && IsContinuation(bs[3])
      && (bs[0] - 0xF0) * 262144 + (bs[1] - 0x80) * 4096 + (bs[2] - 0x80) * 64 + (bs[3] - 0x80) == n
  {
    var q := n / 64;
    var r := q / 64;
    assert n == q * 64 + n % 64;
    assert q == r * 64 + q % 64;
    assert r == (r / 64) * 64 + r % 64;
    assert r == n / 4096;
    assert r / 64 == n / 262144;
  }

  /** Decoding undoes the encoding of one character in front of anything. */
  lemma DecodeEncodeChar(c: char, t: string)
    ensures Decode(EncodeChar(c) + t) == Prepend(c, Decode(t))
  {
    var s := EncodeChar(c) + t;
    if IsUnreserved(c) {
      assert s[1..] == t;
    } else {
      var bs := Utf8Bytes(c);
      Utf8RoundTrip(c);
      ReadFirstByte(bs, t);
      ReadPercentBytes(bs, t);
      assert s[3 * |bs|..] == t;
    }
  }

  /** The round trip: decoding what `encodeURIComponent` produced gives the
      original string back. */
  lemma {:induction false} DecodeEncode(s: string)
    ensures Decode(EncodeURIComponent(s)) == Some(s)
  {
    if s != [] {
      DecodeEncode(s[1..]);
      DecodeEncodeChar(s[0], EncodeURIComponent(s[1..]));
      assert [s[0]] + s[1..] == s;
    }
  }

  /** Hence the encoding is injective: two names with the same encoding are
      the same name. */
  lemma EncodeInjective(s: string, t: string)
    requires EncodeURIComponent(s) == EncodeURIComponent(t)
    ensures s == t
  {
    DecodeEncode(s);
    DecodeEncode(t);
  }
}
