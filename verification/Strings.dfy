/** The few std::string searches the bridge relies on. */
module Strings {

  function IndexFrom(s: string, c: char, from: nat): (n: nat)
    requires from <= |s|
    ensures from <= n <= |s| && (n < |s| ==> s[n] == c)
    ensures forall k :: from <= k < n ==> s[k] != c
    decreases |s| - from
  {
    if from == |s| || s[from] == c then from else IndexFrom(s, c, from + 1)
  }

  /** std::string::find for one character; |s| plays the part of npos. */
  function IndexOf(s: string, c: char): (n: nat)
    ensures n <= |s| && (n < |s| ==> s[n] == c)
    ensures forall k :: 0 <= k < n ==> s[k] != c
  {
    IndexFrom(s, c, 0)
  }

  function LastIndexBefore(s: string, c: char, end: nat): (n: int)
    requires end <= |s|
    ensures -1 <= n < end && (n >= 0 ==> s[n] == c)
    ensures forall k :: n < k < end ==> s[k] != c
  {
    if end == 0 then -1
    else if s[end - 1] == c then end - 1
    else LastIndexBefore(s, c, end - 1)
  }

  /** std::string::find_last_of for one character; -1 plays the part of npos. */
  function LastIndexOf(s: string, c: char): (n: int)
    ensures -1 <= n < |s| && (n >= 0 ==> s[n] == c)
    ensures forall k :: n < k < |s| ==> s[k] != c
  {
    LastIndexBefore(s, c, |s|)
  }

  function ToLower(s: string): string {
    seq(|s|, i requires 0 <= i < |s| => if 'A' <= s[i] <= 'Z' then s[i] + 32 as char else s[i])
  }

  predicate IsUpper(c: char) {
    'A' <= c <= 'Z'
  }

  /** The same character, or the same letter in the other case. */
  predicate SameLetter(c: char, d: char) {
    || c == d
    || (IsUpper(c) && d as int == c as int + 32)
    || (IsUpper(d) && c as int == d as int + 32)
  }

  predicate SameButCase(a: string, b: string) {
    |a| == |b| && forall i :: 0 <= i < |a| ==> SameLetter(a[i], b[i])
  }

  /** Lowering leaves no capital and changes nothing but case. */
  lemma LoweredIsLower(s: string)
    ensures SameButCase(s, ToLower(s))
    ensures forall c :: c in ToLower(s) ==> !IsUpper(c)
  {
  }

  /** Two strings are lowered alike exactly when they differ in case only. */
  lemma LoweredAlikeExactly(a: string, b: string)
    ensures ToLower(a) == ToLower(b) <==> SameButCase(a, b)
  {
    if ToLower(a) == ToLower(b) {
      forall i | 0 <= i < |a|
        ensures |a| == |b| && SameLetter(a[i], b[i])
      {
        assert ToLower(a)[i] == ToLower(b)[i];
      }
    }
  }

  predicate EndsWith(s: string, end: string) {
    |s| >= |end| && s[|s| - |end|..] == end
  }

  lemma FirstIndexIsUnique(s: string, c: char, n: nat)
    requires n <= |s| && (n < |s| ==> s[n] == c)
    requires forall k :: 0 <= k < n ==> s[k] != c
    ensures IndexOf(s, c) == n
  {
  }

  /** `a + c + b` has one reading when `a` never holds `c`. */
  lemma JoinIsInjective(a: string, b: string, a': string, b': string, c: char)
    requires c !in a && c !in a'
    requires a + [c] + b == a' + [c] + b'
    ensures a == a' && b == b'
  {
    var s := a + [c] + b;
    assert s[|a|] == c && s[|a'|] == c;
    assert forall k :: 0 <= k < |a| ==> s[k] == a[k];
    assert forall k :: 0 <= k < |a'| ==> s[k] == a'[k];
    assert |a| == |a'|;
    assert s[..|a|] == a && s[..|a'|] == a';
    assert s[|a| + 1..] == b && s[|a| + 1..] == b';
  }

  predicate IsPiece(s: string, c: char) {
    s != "" && c !in s
  }

  /** The non-empty pieces of `s` between occurrences of `c`. */
  function Pieces(s: string, c: char): (ps: seq<string>)
    ensures forall i :: 0 <= i < |ps| ==> IsPiece(ps[i], c)
  {
    if s == "" then []
    else if s[0] == c then Pieces(s[1..], c)
    else
      var n := IndexOf(s, c);
      [s[..n]] + Pieces(s[n..], c)
  }

  lemma {:induction false} PiecesAtSeparator(a: string, b: string, c: char)
    ensures Pieces(a + [c] + b, c) == Pieces(a, c) + Pieces(b, c)
    decreases |a|
  {
    var s := a + [c] + b;
    if a == "" {
      assert s[1..] == b;
    } else if a[0] == c {
      assert s[1..] == a[1..] + [c] + b;
      PiecesAtSeparator(a[1..], b, c);
    } else {
      var n := IndexOf(a, c);
      FirstIndexIsUnique(s, c, n);
      assert s[..n] == a[..n];
      assert s[n..] == a[n..] + [c] + b;
      PiecesAtSeparator(a[n..], b, c);
    }
  }

  lemma {:induction false} PiecesOfOne(s: string, c: char)
    requires IsPiece(s, c)
    ensures Pieces(s, c) == [s]
  {
    assert IndexOf(s, c) == |s|;
    assert s[..|s|] == s && s[|s|..] == "";
  }

  lemma {:induction false} PiecesTrailing(a: string, c: char)
    ensures Pieces(a + [c], c) == Pieces(a, c)
  {
    assert a + [c] == a + [c] + "";
    PiecesAtSeparator(a, "", c);
  }

  lemma {:induction false} PiecesGrowLast(a: string, c: char, x: char)
    requires a != "" && a[|a| - 1] != c && x != c
    ensures Pieces(a, c) != []
    ensures var ps := Pieces(a, c); var last := |ps| - 1;
            Pieces(a + [x], c) == ps[..last] + [ps[last] + [x]]
    decreases |a|
  {
    if a[0] == c {
      assert (a + [x])[1..] == a[1..] + [x];
      PiecesGrowLast(a[1..], c, x);
    } else {
      var n := IndexOf(a, c);
      if n == |a| {
        PiecesOfOne(a, c);
        PiecesOfOne(a + [x], c);
      } else {
        FirstIndexIsUnique(a + [x], c, n);
        assert (a + [x])[..n] == a[..n] && (a + [x])[n..] == a[n..] + [x];
        PiecesGrowLast(a[n..], c, x);
        assert Pieces(a, c) == [a[..n]] + Pieces(a[n..], c);
      }
    }
  }
}
