/** Putting a value into an LDAP search filter, and reading it back by the rules of RFC 4515,
    section 3. A character stands for a byte. */
module LdapFilter {
  import opened Strings
  import opened Options
  import UrlCodec

  const NUL := 0 as char

  /** What may stand in an assertion value only in its escaped form. */
  predicate IsSpecial(c: char) {
    c in {'*', '(', ')', '\\', NUL}
  }

  function EscapeChar(c: char): string {
    match c
    case '*' => "\\2a"
    case '(' => "\\28"
    case ')' => "\\29"
    case '\\' => "\\5c"
    case _ => if c == NUL then "\\00" else [c]
  }

  function Escaped(s: string): string {
    if s == "" then "" else EscapeChar(s[0]) + Escaped(s[1..])
  }

  lemma {:induction false} EscapedAppend(s: string, c: char)
    ensures Escaped(s + [c]) == Escaped(s) + EscapeChar(c)
  {
    if s == "" {
      assert s + [c] == [c] && [c][1..] == "";
    } else {
      assert (s + [c])[1..] == s[1..] + [c];
      EscapedAppend(s[1..], c);
    }
  }

  method EscapeFilterValue(s: string) returns (out: string)
    ensures out == Escaped(s)
  {
    out := "";
    ghost var done := "";
    for i := 0 to |s|
      invariant done == s[..i] && out == Escaped(done)
    {
      EscapedAppend(done, s[i]);
      done := done + [s[i]];
      match s[i]
      case '*' => out := out + "\\2a";
      case '(' => out := out + "\\28";
      case ')' => out := out + "\\29";
      case '\\' => out := out + "\\5c";
      case _ => out := out + if s[i] == NUL then "\\00" else [s[i]];
    }
    assert done == s;
  }

  /** The byte string an assertion value denotes, if it is well formed: a backslash and two
      hexadecimal digits are one byte, no other special character may occur. */
  function Unescape(v: string): Option<string> {
    if v == "" then Some("")
    else if v[0] == '\\' then
      if |v| >= 3 && UrlCodec.HexValue(v[1]) >= 0 && UrlCodec.HexValue(v[2]) >= 0 then
        match Unescape(v[3..])
        case Some(rest) => Some([(16 * UrlCodec.HexValue(v[1]) + UrlCodec.HexValue(v[2])) as char] + rest)
        case None => None
      else None
    else if IsSpecial(v[0]) then None
    else
      match Unescape(v[1..])
      case Some(rest) => Some([v[0]] + rest)
      case None => None
  }

  lemma UnescapeOne(c: char, rest: string, tail: string)
    requires Unescape(rest) == Some(tail)
    ensures Unescape(EscapeChar(c) + rest) == Some([c] + tail)
  {
    var e := EscapeChar(c);
    var v := e + rest;
    assert v[|e|..] == rest;
    if IsSpecial(c) {
      assert |e| == 3 && v[0] == '\\' && v[1] == e[1] && v[2] == e[2];
    } else {
      assert e == [c] && v[0] == c;
    }
  }

  /** Every byte string survives the trip into a filter and back. */
  lemma {:induction false} EscapeRoundTrip(s: string)
    ensures Unescape(Escaped(s)) == Some(s)
  {
    if s != "" {
      EscapeRoundTrip(s[1..]);
      UnescapeOne(s[0], Escaped(s[1..]), s[1..]);
      assert [s[0]] + s[1..] == s;
    }
  }

  /** No character with a meaning of its own is left, but the backslash that escapes it. */
  lemma {:induction false} EscapedIsInert(s: string)
    ensures forall c :: c in Escaped(s) ==> c == '\\' || !IsSpecial(c)
  {
    if s != "" {
      EscapedIsInert(s[1..]);
    }
  }

  // ----- the group search filter -----

  const FILTER_HEAD := "(&(objectClass=groupOfNames)(member="
  const FILTER_TAIL := "))"

  /** What a filter of this shape asks of a group's members; any other shape is Unclear. */
  datatype MemberTest = Exactly(dn: string) | Unclear

  function ReadFilter(filter: string): MemberTest {
    if !(FILTER_HEAD <= filter) then Unclear
    else
      var rest := filter[|FILTER_HEAD|..];
      var end := IndexOf(rest, ')');
      if rest[end..] != FILTER_TAIL then Unclear
      else
        match Unescape(rest[..end])
        case Some(dn) => Exactly(dn)
        case None => Unclear
  }

  /** Whatever the user's name holds, the directory reads the filter as asking for exactly that
      user. */
  lemma FilterMeansTheUser(userDn: string)
    ensures ReadFilter(FILTER_HEAD + Escaped(userDn) + FILTER_TAIL) == Exactly(userDn)
  {
    var filter := FILTER_HEAD + Escaped(userDn) + FILTER_TAIL;
    var rest := filter[|FILTER_HEAD|..];
    assert rest == Escaped(userDn) + FILTER_TAIL;
    EscapedIsInert(userDn);
    assert forall k :: 0 <= k < |Escaped(userDn)| ==> rest[k] == Escaped(userDn)[k] && rest[k] in Escaped(userDn);
    FirstIndexIsUnique(rest, ')', |Escaped(userDn)|);
    assert rest[..|Escaped(userDn)|] == Escaped(userDn);
    EscapeRoundTrip(userDn);
  }
}
