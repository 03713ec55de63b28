/** Percent encoding over byte strings, a byte being a character below 256. */
module UrlCodec {
  predicate IsByteString(s: string) {
    forall i :: 0 <= i < |s| ==> s[i] as int < 256
  }

  /** static_cast<unsigned char>. */
  function ByteOf(c: char): (n: nat)
    ensures n < 256
  {
    c as int % 256
  }

  predicate IsAlnum(c: char) {
    'a' <= c <= 'z' || 'A' <= c <= 'Z' || '0' <= c <= '9'
  }

  predicate Unreserved(c: char) {
    IsAlnum(c) || c in {'-', '_', '.', '~'}
  }

  function UpperHex(n: nat): char
    requires n < 16
  {
    if n < 10 then '0' + n as char else 'A' + (n - 10) as char
  }

  predicate IsUpperHex(c: char) {
    '0' <= c <= '9' || 'A' <= c <= 'F'
  }

  /** The value of a hexadecimal digit of either case, or -1. */
  function HexValue(c: char): (n: int)
    ensures -1 <= n < 16
  {
    if '0' <= c <= '9' then c as int - '0' as int
    else if 'a' <= c <= 'f' then c as int - 'a' as int + 10
    else if 'A' <= c <= 'F' then c as int - 'A' as int + 10
    else -1
  }

  predicate IsSpace(c: char) {
    c == ' ' || 9 <= c as int <= 13
  }

  /** strtol of two characters in base 16: leading space and sign are accepted, and reading
      stops at the first character that is no digit. */
  function Strtol(a: char, b: char): int {
    if HexValue(a) >= 0 then (if HexValue(b) >= 0 then 16 * HexValue(a) + HexValue(b) else HexValue(a))
    else if HexValue(b) < 0 then 0
    else if a == '-' then -HexValue(b)
    else if a == '+' || IsSpace(a) then HexValue(b)
    else 0
  }

  function EncodeByte(c: char): string {
    if Unreserved(c) then [c] else ['%', UpperHex(ByteOf(c) / 16), UpperHex(ByteOf(c) % 16)]
  }

  function Encode(s: string): string {
    if s == [] then [] else EncodeByte(s[0]) + Encode(s[1..])
  }

  /** The character the front of an encoded string stands for, and how much of it that takes. */
  function Head(s: string): char
    requires s != ""
  {
    if s[0] == '%' && 2 < |s| then (Strtol(s[1], s[2]) % 256) as char
    else if s[0] == '+' then ' '
    else s[0]
  }

  function Taken(s: string): (n: nat)
    requires s != ""
    ensures 1 <= n <= |s|
  {
    if s[0] == '%' && 2 < |s| then 3 else 1
  }

  function Decode(s: string): string {
    if s == "" then "" else [Head(s)] + Decode(s[Taken(s)..])
  }

  lemma {:induction false} EncodeAppend(s: string, c: char)
    ensures Encode(s + [c]) == Encode(s) + EncodeByte(c)
  {
    if s == "" {
      assert s + [c] == [c] && [c][1..] == "";
    } else {
      assert (s + [c])[1..] == s[1..] + [c];
      EncodeAppend(s[1..], c);
    }
  }

  method UrlEncode(decoded: string) returns (escaped: string)
    ensures escaped == Encode(decoded)
  {
    escaped := [];
    ghost var done := "";
    for i := 0 to |decoded|
      invariant done == decoded[..i] && escaped == Encode(done)
    {
      var c := decoded[i];
      EncodeAppend(done, c);
      done := done + [c];
      if Unreserved(c) {
        escaped := escaped + [c];
      } else {
        escaped := escaped + ['%', UpperHex(ByteOf(c) / 16), UpperHex(ByteOf(c) % 16)];
      }
    }
    assert done == decoded;
  }

  lemma AppendOne(done: string, c: char, rest: string, whole: string)
    requires done + ([c] + rest) == whole
    ensures done + [c] + rest == whole
  {
  }

  method UrlDecode(encoded: string) returns (decoded: string)
    ensures decoded == Decode(encoded)
  {
    decoded := [];
    var i := 0;
    ghost var rest := encoded;
    while i < |encoded|
      invariant i <= |encoded| && rest == encoded[i..] && decoded + Decode(rest) == Decode(encoded)
    {
      var c: char;
      ghost var head, taken := Head(rest), Taken(rest);
      AppendOne(decoded, head, Decode(rest[taken..]), Decode(encoded));
      if encoded[i] == '%' && i + 2 < |encoded| {
        c := (Strtol(encoded[i + 1], encoded[i + 2]) % 256) as char;
        i := i + 2;
      } else if encoded[i] == '+' {
        c := ' ';
      } else {
        c := encoded[i];
      }
      decoded := decoded + [c];
      i, rest := i + 1, rest[taken..];
    }
  }

  lemma HexPairRoundTrip(n: nat)
    requires n < 256
    ensures Strtol(UpperHex(n / 16), UpperHex(n % 16)) == n
  {
  }

  /** Decoding undoes encoding, for every byte string. */
  lemma {:induction false} EncodeRoundTrip(s: string)
    requires IsByteString(s)
    ensures Decode(Encode(s)) == s
  {
    if s != [] {
      var c, rest := s[0], Encode(s[1..]);
      EncodeRoundTrip(s[1..]);
      HexPairRoundTrip(ByteOf(c));
      var e := EncodeByte(c) + rest;
      assert e[|EncodeByte(c)|..] == rest;
    }
  }

  const CAPITALS := "ABCDEFGHIJKLMNOPQRSTUVWXYZ"
  const SMALL := "abcdefghijklmnopqrstuvwxyz"
  const DIGITS := "0123456789"
  const MARKS := "-_.~"

  /** A row of characters, each the successor of the one before. */
  predicate IsRow(row: string) {
    forall i :: 0 <= i < |row| ==> row[i] as int == row[0] as int + i
  }

  lemma InRowExactly(row: string, c: char)
    requires IsRow(row) && row != ""
    ensures c in row <==> row[0] as int <= c as int < row[0] as int + |row|
  {
    if row[0] as int <= c as int < row[0] as int + |row| {
      assert row[c as int - row[0] as int] == c;
    }
  }

  /** The unreserved characters are the 66 of RFC 3986, section 2.3. */
  lemma UnreservedExactly(c: char)
    ensures Unreserved(c) <==> c in CAPITALS || c in SMALL || c in DIGITS || c in MARKS
  {
    assert IsRow(CAPITALS) && IsRow(SMALL) && IsRow(DIGITS);
    InRowExactly(CAPITALS, c);
    InRowExactly(SMALL, c);
    InRowExactly(DIGITS, c);
  }

  /** An unreserved character stands for itself, any other for a triple. */
  lemma EncodedByte(c: char)
    ensures if Unreserved(c) then EncodeByte(c) == [c] else |EncodeByte(c)| == 3 && EncodeByte(c)[0] == '%'
  {
  }

  lemma DigitDenotes(n: nat)
    requires n < 16
    ensures HexValue(UpperHex(n)) == n
  {
  }

  /** The digits of a triple denote the byte. */
  lemma TripleDenotes(c: char)
    requires !Unreserved(c) && c as int < 256
    ensures 16 * HexValue(EncodeByte(c)[1]) + HexValue(EncodeByte(c)[2]) == c as int
  {
    DigitDenotes(ByteOf(c) / 16);
    DigitDenotes(ByteOf(c) % 16);
    assert EncodeByte(c)[1] == UpperHex(ByteOf(c) / 16) && EncodeByte(c)[2] == UpperHex(ByteOf(c) % 16);
  }

  /** A hexadecimal digit, in either case, has its place in the row of digits as its value. */
  lemma HexValueExactly(c: char)
    ensures forall i :: 0 <= i < 16 ==> HexValue("0123456789abcdef"[i]) == i && HexValue("0123456789ABCDEF"[i]) == i
    ensures HexValue(c) >= 0 ==> c == "0123456789abcdef"[HexValue(c)] || c == "0123456789ABCDEF"[HexValue(c)]
  {
  }

  /** A triple of two digits, in either case, is read as their byte. */
  lemma DecodedTriple(h: char, l: char, rest: string)
    requires HexValue(h) >= 0 && HexValue(l) >= 0
    ensures Decode(['%', h, l] + rest) == [(16 * HexValue(h) + HexValue(l)) as char] + Decode(rest)
  {
    var whole := ['%', h, l] + rest;
    assert whole[1] == h && whole[2] == l && whole[3..] == rest;
    assert Taken(whole) == 3 && Head(whole) == (16 * HexValue(h) + HexValue(l)) as char;
  }

  /** A percent sign before two characters is always read as a byte: of one digit if only the
      first is a digit, of the second digit after a blank or a plus sign and of its negation after a
      minus sign, and as zero otherwise. */
  lemma DecodedMalformed(h: char, l: char, rest: string)
    requires HexValue(h) < 0 || HexValue(l) < 0
    ensures Decode(['%', h, l] + rest) ==
            [(if HexValue(h) >= 0 then HexValue(h)
              else if HexValue(l) < 0 then 0
              else if h == '+' || h == ' ' || 9 <= h as int <= 13 then HexValue(l)
              else if h == '-' && HexValue(l) > 0 then 256 - HexValue(l)
              else 0) as char] + Decode(rest)
  {
    var whole := ['%', h, l] + rest;
    assert whole[1] == h && whole[2] == l && whole[3..] == rest;
    assert Taken(whole) == 3;
  }

  /** A plus sign is read as a space, and any other character as itself, a percent sign too near
      the end included. */
  lemma DecodedCharacter(c: char, rest: string)
    requires c != '%' || |rest| < 2
    ensures Decode([c] + rest) == [if c == '+' then ' ' else c] + Decode(rest)
  {
    var whole := [c] + rest;
    assert whole[1..] == rest && Taken(whole) == 1;
  }

  /** Only unreserved characters and well-formed uppercase triples. */
  predicate WellEncoded(e: string) {
    e == [] ||
    (Unreserved(e[0]) && WellEncoded(e[1..])) ||
    (|e| >= 3 && e[0] == '%' && IsUpperHex(e[1]) && IsUpperHex(e[2]) && WellEncoded(e[3..]))
  }

  lemma {:induction false} EncodeIsWellFormed(s: string)
    ensures WellEncoded(Encode(s))
  {
    if s != [] {
      EncodeIsWellFormed(s[1..]);
      var e := EncodeByte(s[0]) + Encode(s[1..]);
      assert e[|EncodeByte(s[0])|..] == Encode(s[1..]);
    }
  }

  /** Two byte strings never share an encoding. */
  lemma EncodeIsInjective(s: string, t: string)
    requires IsByteString(s) && IsByteString(t) && Encode(s) == Encode(t)
    ensures s == t
  {
    EncodeRoundTrip(s);
    EncodeRoundTrip(t);
  }
}
