/** Validators for conditional requests, printed from modification time and size. */
module Etags {
  import opened Strings
  import UrlCodec

  const TWO_63 := 0x8000_0000_0000_0000

  type int64 = x: int | -TWO_63 <= x < TWO_63

  function LowerHex(n: nat): (c: char)
    requires n < 16
    ensures c != '-' && c != '"'
  {
    if n < 10 then '0' + n as char else 'a' + (n - 10) as char
  }

  /** Hexadecimal without leading zeros. */
  function Hex(n: nat): string {
    (if n < 16 then "" else Hex(n / 16)) + [LowerHex(n % 16)]
  }

  /** std::hex prints a signed number as its two's-complement bits. */
  function Bits(x: int64): nat {
    if x < 0 then x + 2 * TWO_63 else x
  }

  function MakeEtag(modifiedAt: int64, size: int64): string {
    ['"'] + Hex(Bits(modifiedAt)) + ['-'] + Hex(Bits(size)) + ['"']
  }

  lemma HexIsNotEmpty(n: nat)
    ensures Hex(n) != ""
  {
  }

  lemma {:induction false} HexIsInjective(m: nat, n: nat)
    requires Hex(m) == Hex(n)
    ensures m == n
  {
    var hm, hn := Hex(m), Hex(n);
    assert hm[|hm| - 1] == LowerHex(m % 16) && hn[|hn| - 1] == LowerHex(n % 16);
    assert m % 16 == n % 16;
    assert hm[..|hm| - 1] == if m < 16 then "" else Hex(m / 16);
    assert hn[..|hn| - 1] == if n < 16 then "" else Hex(n / 16);
    HexIsNotEmpty(m / 16);
    HexIsNotEmpty(n / 16);
    if m >= 16 && n >= 16 {
      HexIsInjective(m / 16, n / 16);
    }
  }

  lemma {:induction false} HexIsPlain(n: nat)
    ensures '-' !in Hex(n) && '"' !in Hex(n)
  {
    if n >= 16 {
      HexIsPlain(n / 16);
    }
  }

  /** The number a row of hexadecimal digits denotes. */
  function ReadHex(s: string): int {
    if s == "" then 0 else 16 * ReadHex(s[..|s| - 1]) + UrlCodec.HexValue(s[|s| - 1])
  }

  /** What is printed denotes the number. */
  lemma {:induction false} HexDenotes(n: nat)
    ensures ReadHex(Hex(n)) == n
  {
    var front := if n < 16 then "" else Hex(n / 16);
    assert Hex(n) == front + [LowerHex(n % 16)] && Hex(n)[..|front|] == front;
    if n >= 16 {
      HexDenotes(n / 16);
    }
  }

  /** It is printed in lowercase digits without leading zeros. */
  lemma {:induction false} HexIsTidy(n: nat)
    ensures forall c :: c in Hex(n) ==> '0' <= c <= '9' || 'a' <= c <= 'f'
    ensures n > 0 ==> Hex(n)[0] != '0'
  {
    if n >= 16 {
      HexIsTidy(n / 16);
      HexIsNotEmpty(n / 16);
      assert Hex(n)[0] == Hex(n / 16)[0];
    }
  }

  lemma BitsAreModulo(x: int64)
    ensures Bits(x) == x % (2 * TWO_63)
  {
  }

  /** Both numbers of an ETag are read as the two's-complement values of time and size. */
  lemma EtagDenotes(m: int64, s: int64) returns (a: string, b: string)
    ensures MakeEtag(m, s) == ['"'] + a + ['-'] + b + ['"'] && '-' !in a
    ensures ReadHex(a) == m % (2 * TWO_63) && ReadHex(b) == s % (2 * TWO_63)
  {
    a, b := Hex(Bits(m)), Hex(Bits(s));
    HexDenotes(Bits(m));
    HexDenotes(Bits(s));
    HexIsPlain(Bits(m));
    BitsAreModulo(m);
    BitsAreModulo(s);
  }

  /** Two ETags are equal exactly when time and size are, over all 64-bit values. */
  lemma EtagsAreExact(m: int64, s: int64, m': int64, s': int64)
    ensures MakeEtag(m, s) == MakeEtag(m', s') <==> m == m' && s == s'
  {
    if MakeEtag(m, s) == MakeEtag(m', s') {
      var e, e' := MakeEtag(m, s), MakeEtag(m', s');
      var inner := Hex(Bits(m)) + ['-'] + Hex(Bits(s));
      var inner' := Hex(Bits(m')) + ['-'] + Hex(Bits(s'));
      assert e[1..|e| - 1] == inner && e'[1..|e'| - 1] == inner';
      HexIsPlain(Bits(m));
      HexIsPlain(Bits(m'));
      JoinIsInjective(Hex(Bits(m)), Hex(Bits(s)), Hex(Bits(m')), Hex(Bits(s')), '-');
      HexIsInjective(Bits(m), Bits(m'));
      HexIsInjective(Bits(s), Bits(s'));
    }
  }

  lemma Unquoted(a: string, b: string)
    requires '"' !in a && '"' !in b
    ensures var e := ['"'] + a + ['-'] + b + ['"'];
            e[0] == '"' && e[|e| - 1] == '"' && e[1..|e| - 1] == a + ['-'] + b && '"' !in e[1..|e| - 1]
  {
    var e, inner := ['"'] + a + ['-'] + b + ['"'], a + ['-'] + b;
    assert e[1..|e| - 1] == inner;
  }

  /** An ETag is a quoted string in the sense of RFC 7232, section 2.3: no quote inside it. */
  lemma EtagIsQuoted(m: int64, s: int64)
    ensures var e := MakeEtag(m, s);
            |e| >= 2 && e[0] == '"' && e[|e| - 1] == '"' && '"' !in e[1..|e| - 1]
  {
    HexIsPlain(Bits(m));
    HexIsPlain(Bits(s));
    Unquoted(Hex(Bits(m)), Hex(Bits(s)));
  }
}
