/** Reading a tenant out of a request's host name. */
module Hosts {
  import opened Strings

  predicate AllDigits(s: string) {
    forall i :: 0 <= i < |s| ==> '0' <= s[i] <= '9'
  }

  function UpTo(s: string, c: char): (r: string) {
    s[..IndexOf(s, c)]
  }

  lemma UpToAppended(s: string, c: char, rest: string)
    requires c !in s
    ensures UpTo(s + [c] + rest, c) == s
  {
    var whole := s + [c] + rest;
    assert forall k :: 0 <= k < |s| ==> whole[k] == s[k];
    FirstIndexIsUnique(whole, c, |s|);
  }

  /** What stands before the first `c`, and all of a string without one. */
  lemma UpToExactly(s: string, c: char, rest: string)
    requires c !in s
    ensures UpTo(s, c) == s && UpTo(s + [c] + rest, c) == s
  {
    UpToAppended(s, c, rest);
    assert IndexOf(s, c) == |s|;
  }

  lemma UpToIsFree(s: string, c: char)
    ensures c !in UpTo(s, c) && forall d :: d in UpTo(s, c) ==> d in s
  {
  }

  /** The first hyphen-delimited piece of the leading label; "" for the default tenant. */
  function ExtractTenant(hostname: string): string {
    var host := UpTo(hostname, ':');
    if '.' !in host then ""
    else
      var tag := UpTo(UpTo(host, '.'), '-');
      if tag == "" || tag == "www" || AllDigits(tag) then "" else tag
  }

  function TenantOf(host: string): string {
    var tenant := ExtractTenant(host);
    if tenant == "" then "default" else tenant
  }

  /** A tenant read from a host is never empty and never holds ':', '.' or '-'. */
  lemma TenantIsPlain(host: string)
    ensures var t := TenantOf(host); t != "" && ':' !in t && '.' !in t && '-' !in t
  {
    var bare := UpTo(host, ':');
    UpToIsFree(host, ':');
    UpToIsFree(bare, '.');
    UpToIsFree(UpTo(bare, '.'), '-');
  }

  lemma DigitsExactly(s: string)
    ensures AllDigits(s) <==> forall c :: c in s ==> c in "0123456789"
  {
    var digits := "0123456789";
    forall c: char
      ensures '0' <= c <= '9' <==> c in digits
    {
      if '0' <= c <= '9' {
        assert digits[c as int - '0' as int] == c;
      }
    }
    if forall c :: c in s ==> c in digits {
      forall i | 0 <= i < |s|
        ensures '0' <= s[i] <= '9'
      {
        assert s[i] in s;
      }
    }
  }

  /** For which hosts the tenant is the default one, and what it is for the others: the part of
      the host before port, first dot and first hyphen. */
  lemma DefaultTenantExactly(host: string)
    ensures var bare := UpTo(host, ':'); var tag := UpTo(UpTo(bare, '.'), '-');
            && (TenantOf(host) == "default" <==>
                  || '.' !in bare || tag in {"", "www", "default"}
                  || (forall c :: c in tag ==> c in "0123456789"))
            && (TenantOf(host) != "default" ==> TenantOf(host) == tag)
  {
    var tag := UpTo(UpTo(UpTo(host, ':'), '.'), '-');
    DigitsExactly(tag);
  }

  /** A plain first label is the tenant. */
  lemma LabelIsTenant(tag: string, domain: string)
    requires ':' !in tag && '.' !in tag && '-' !in tag && ':' !in domain
    requires tag != "" && tag != "www" && !AllDigits(tag)
    ensures TenantOf(tag + "." + domain) == tag
  {
    var host := tag + "." + domain;
    assert IndexOf(host, ':') == |host| && UpTo(host, ':') == host;
    UpToAppended(tag, '.', domain);
    assert IndexOf(tag, '-') == |tag| && UpTo(tag, '-') == tag;
    assert host[|tag|] == '.';
  }

  /** The port and the interface suffix do not matter: "acme-drive.example.com:8080" and
      "acme.example.com" are the same tenant. */
  lemma SuffixAndPortDoNotMatter(tag: string, suffix: string, domain: string, port: string)
    requires ':' !in tag && ':' !in suffix && ':' !in domain
    requires '.' !in tag && '-' !in tag && '.' !in suffix
    ensures ExtractTenant(tag + "-" + suffix + "." + domain + ":" + port) == ExtractTenant(tag + "." + domain)
  {
    var long, short := tag + "-" + suffix + "." + domain, tag + "." + domain;
    UpToAppended(long, ':', port);
    assert IndexOf(short, ':') == |short|;
    assert UpTo(short, ':') == short;
    UpToAppended(tag + "-" + suffix, '.', domain);
    UpToAppended(tag, '.', domain);
    UpToAppended(tag, '-', suffix);
    assert IndexOf(tag, '-') == |tag| && UpTo(tag, '-') == tag;
    assert long[|tag + "-" + suffix|] == '.' && short[|tag|] == '.';
  }
}
