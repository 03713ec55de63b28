/** The client's address behind reverse proxies. */
module ClientIp {
  import opened Strings
  import opened Options
  import opened Addresses

  predicate Blank(c: char) {
    c == ' ' || c == '\t'
  }

  /** Without leading and trailing blanks. */
  function Trim(s: string): string {
    if s == "" then ""
    else if Blank(s[0]) then Trim(s[1..])
    else if Blank(s[|s| - 1]) then Trim(s[..|s| - 1])
    else s
  }

  predicate AllBlank(s: string) {
    forall i :: 0 <= i < |s| ==> s[i] == ' ' || s[i] == '\t'
  }

  /** Trimming takes the blanks from both ends, all of them, and nothing else. */
  lemma {:induction false} TrimExactly(s: string) returns (front: string, back: string)
    ensures s == front + Trim(s) + back && AllBlank(front) && AllBlank(back)
    ensures var t := Trim(s);
            t != "" ==> t[0] != ' ' && t[0] != '\t' && t[|t| - 1] != ' ' && t[|t| - 1] != '\t'
    decreases |s|
  {
    if s == "" {
      front, back := "", "";
    } else if Blank(s[0]) {
      front, back := TrimExactly(s[1..]);
      assert s == [s[0]] + (front + Trim(s) + back);
      front := [s[0]] + front;
    } else if Blank(s[|s| - 1]) {
      front, back := TrimExactly(s[..|s| - 1]);
      assert s == front + Trim(s) + back + [s[|s| - 1]];
      back := back + [s[|s| - 1]];
    } else {
      front, back := "", "";
    }
  }

  /** The hops still to come when `cur` has been read since the last comma. */
  function Scan(cur: string, rest: string): (hops: seq<string>)
    ensures hops != []
    decreases |rest|
  {
    if rest == "" then [Trim(cur)]
    else if rest[0] == ',' then [Trim(cur)] + Scan("", rest[1..])
    else Scan(cur + [rest[0]], rest[1..])
  }

  /** The comma-separated hops of a header, empty ones included. */
  function Hops(xff: string): (hops: seq<string>)
    ensures hops != []
  {
    Scan("", xff)
  }

  predicate Untrusted(readers: Readers, trusted: seq<string>, hop: string) {
    hop != "" && !InAny(readers, hop, trusted)
  }

  /** The right-most hop that is no trusted proxy. */
  function Rightmost(readers: Readers, trusted: seq<string>, hops: seq<string>): Option<string> {
    if hops == [] then None
    else if Untrusted(readers, trusted, hops[|hops| - 1]) then Some(hops[|hops| - 1])
    else Rightmost(readers, trusted, hops[..|hops| - 1])
  }

  function ClientOf(readers: Readers, peer: string, xff: string, trusted: seq<string>): string {
    if trusted == [] then (if xff == "" then peer else Hops(xff)[0])
    else if !InAny(readers, peer, trusted) || xff == "" then peer
    else
      match Rightmost(readers, trusted, Hops(xff))
      case Some(hop) => hop
      case None => peer
  }

  method SplitHops(xff: string) returns (hops: seq<string>)
    ensures hops == Hops(xff)
  {
    hops := [];
    var cur := "";
    ghost var rest := xff;
    for i := 0 to |xff|
      invariant rest == xff[i..] && hops + Scan(cur, rest) == Scan("", xff)
    {
      if xff[i] == ',' {
        hops := hops + [Trim(cur)];
        cur := "";
      } else {
        cur := cur + [xff[i]];
      }
      rest := rest[1..];
    }
    hops := hops + [Trim(cur)];
  }

  lemma {:induction false} ScanAtComma(cur: string, a: string, b: string)
    ensures Scan(cur, a + "," + b) == Scan(cur, a) + Scan("", b)
    decreases |a|
  {
    var s := a + "," + b;
    if a == "" {
      assert s[1..] == b;
    } else {
      assert s[1..] == a[1..] + "," + b;
      ScanAtComma(if a[0] == ',' then "" else cur + [a[0]], a[1..], b);
    }
  }

  lemma {:induction false} ScanPlain(cur: string, a: string)
    requires ',' !in a
    ensures Scan(cur, a) == [Trim(cur + a)]
    decreases |a|
  {
    if a == "" {
      assert cur + a == cur;
    } else {
      assert cur + [a[0]] + a[1..] == cur + a;
      ScanPlain(cur + [a[0]], a[1..]);
    }
  }

  /** A comma separates hops, and text without one is a single trimmed hop. */
  lemma HopsAtComma(a: string, b: string)
    ensures Hops(a + "," + b) == Hops(a) + Hops(b)
    ensures ',' !in a ==> Hops(a) == [Trim(a)]
  {
    ScanAtComma("", a, b);
    if ',' !in a {
      ScanPlain("", a);
      assert "" + a == a;
    }
  }

  lemma FirstHop(xff: string)
    ensures Hops(xff)[0] == Trim(xff[..IndexOf(xff, ',')])
  {
    var n := IndexOf(xff, ',');
    if n == |xff| {
      HopsAtComma(xff, "");
      assert xff[..n] == xff;
    } else {
      HopsAtComma(xff[..n], xff[n + 1..]);
      assert xff == xff[..n] + "," + xff[n + 1..];
    }
  }

  /** The answer behind a trusted peer: a hop that is no trusted proxy with none such to its
      right, or the peer when no hop qualifies. A trusted or empty hop qualifies for nothing. */
  ghost predicate RightAnswer(readers: Readers, peer: string, hops: seq<string>, trusted: seq<string>, ip: string) {
    || (exists i :: && 0 <= i < |hops| && hops[i] == ip && ip != "" && !InAny(readers, ip, trusted)
                    && forall j :: i < j < |hops| ==> hops[j] == "" || InAny(readers, hops[j], trusted))
    || (ip == peer && forall j :: 0 <= j < |hops| ==> hops[j] == "" || InAny(readers, hops[j], trusted))
  }

  /** Hop `i` is untrusted and none after it is; -1 when none is at all. */
  predicate LastUntrusted(readers: Readers, trusted: seq<string>, hops: seq<string>, i: int) {
    && -1 <= i < |hops|
    && (i >= 0 ==> Untrusted(readers, trusted, hops[i]))
    && forall j :: i < j < |hops| ==> !Untrusted(readers, trusted, hops[j])
  }

  /** What the right-most untrusted hop is: untrusted itself, with nothing untrusted after it. */
  lemma {:induction false} RightmostIsRightmost(readers: Readers, trusted: seq<string>, hops: seq<string>)
    returns (i: int)
    ensures LastUntrusted(readers, trusted, hops, i)
    ensures Rightmost(readers, trusted, hops) == if i >= 0 then Some(hops[i]) else None
  {
    var last := |hops| - 1;
    if hops == [] || Untrusted(readers, trusted, hops[last]) {
      i := last;
    } else {
      i := RightmostIsRightmost(readers, trusted, hops[..last]);
      assert forall j :: 0 <= j < last ==> hops[j] == hops[..last][j];
    }
  }

  method ResolveClientIp(readers: Readers, peer: string, xff: string, trusted: seq<string>) returns (ip: string)
    ensures ip == ClientOf(readers, peer, xff, trusted)
    ensures trusted == [] ==> ip == if xff == "" then peer else Trim(xff[..IndexOf(xff, ',')])
    ensures trusted != [] && !InAny(readers, peer, trusted) ==> ip == peer
    ensures trusted != [] && InAny(readers, peer, trusted) ==>
      if xff == "" then ip == peer else RightAnswer(readers, peer, Hops(xff), trusted, ip)
  {
    ghost var last := RightmostIsRightmost(readers, trusted, Hops(xff));
    if trusted == [] {
      if xff != "" {
        FirstHop(xff);
        return Trim(xff[..IndexOf(xff, ',')]);
      }
      return peer;
    }
    var fromProxy := IpInAnyCidr(readers, peer, trusted);
    if !fromProxy || xff == "" {
      return peer;
    }
    var hops := SplitHops(xff);
    var i := |hops|;
    assert hops[..i] == hops;
    while i > 0
      invariant 0 <= i <= |hops| && Rightmost(readers, trusted, hops) == Rightmost(readers, trusted, hops[..i])
    {
      assert hops[..i][..i - 1] == hops[..i - 1];
      if hops[i - 1] != "" {
        var proxy := IpInAnyCidr(readers, hops[i - 1], trusted);
        if !proxy {
          return hops[i - 1];
        }
      }
      i := i - 1;
    }
    return peer;
  }

  lemma {:induction false} RightmostIgnoresLeft(readers: Readers, trusted: seq<string>, left: seq<string>,
                                                right: seq<string>)
    requires Rightmost(readers, trusted, right).Some?
    ensures Rightmost(readers, trusted, left + right) == Rightmost(readers, trusted, right)
  {
    var all, last := left + right, |right| - 1;
    assert all[|all| - 1] == right[last];
    if !Untrusted(readers, trusted, right[last]) {
      assert all[..|all| - 1] == left + right[..last];
      RightmostIgnoresLeft(readers, trusted, left, right[..last]);
    }
  }

  /** Behind a trusted peer, text put in front of a header that already shows an untrusted hop
      never changes the result. */
  lemma PrependingChangesNothing(readers: Readers, peer: string, text: string, xff: string, trusted: seq<string>)
    requires trusted != [] && InAny(readers, peer, trusted) && xff != ""
    requires Rightmost(readers, trusted, Hops(xff)).Some?
    ensures ClientOf(readers, peer, text + "," + xff, trusted) == ClientOf(readers, peer, xff, trusted)
  {
    HopsAtComma(text, xff);
    RightmostIgnoresLeft(readers, trusted, Hops(text), Hops(xff));
  }
}
