/** The session gate: a client is let in from a trusted network, or with a live session that,
    if so configured, was opened from a matching address. */
module SessionGate {
  import opened Strings
  import opened Addresses

  /** Whether a session's address matches a request's: IPv4 exactly, IPv6 on the leading bits,
      never across families, and unreadable text by plain equality. */
  predicate IpMatches(readers: Readers, a: string, b: string, prefix: nat) {
    match (readers.address(a), readers.address(b))
    case (Some(x), Some(y)) =>
      && x.family == y.family
      && (if x.family.V6? && prefix < 128 then Leading(x.bits, 128, prefix) == Leading(y.bits, 128, prefix) else x == y)
    case _ => a == b
  }

  /** When two addresses match, spelled out: the same IPv4 number; IPv6 numbers that are equal once
      the bits after the prefix are divided away; or, where one cannot be read, the same text. */
  predicate SameClient(readers: Readers, a: string, b: string, prefix: nat) {
    var dropped := if prefix < 128 then 128 - prefix else 0;
    match (readers.address(a), readers.address(b))
    case (Some(x), Some(y)) =>
      || (x.family.V4? && y.family.V4? && x.bits == y.bits)
      || (x.family.V6? && y.family.V6? && x.bits / Pow2(dropped) == y.bits / Pow2(dropped))
    case _ => a == b
  }

  lemma MatchesExactly(readers: Readers, a: string, b: string, prefix: nat)
    ensures IpMatches(readers, a, b, prefix) <==> SameClient(readers, a, b, prefix)
  {
    match (readers.address(a), readers.address(b))
    case (Some(x), Some(y)) =>
      var dropped := if prefix < 128 then 128 - prefix else 0;
      DropLowIsQuotient(x.bits, dropped);
      DropLowIsQuotient(y.bits, dropped);
    case _ =>
  }

  /** For every prefix length, matching is an equivalence on all strings. */
  lemma MatchingIsEquivalence(readers: Readers, a: string, b: string, c: string, prefix: nat)
    ensures IpMatches(readers, a, a, prefix)
    ensures IpMatches(readers, a, b, prefix) ==> IpMatches(readers, b, a, prefix)
    ensures IpMatches(readers, a, b, prefix) && IpMatches(readers, b, c, prefix) ==> IpMatches(readers, a, c, prefix)
  {
  }

  /** A match on a longer prefix is a match on every shorter one. */
  lemma ShorterPrefixMatches(readers: Readers, a: string, b: string, longer: nat, shorter: nat)
    requires shorter <= longer && IpMatches(readers, a, b, longer)
    ensures IpMatches(readers, a, b, shorter)
  {
    match (readers.address(a), readers.address(b))
    case (Some(x), Some(y)) =>
      if x.family.V6? && longer < 128 {
        ShorterPrefixAgrees(x.bits, y.bits, 128, longer, shorter);
      }
    case _ =>
  }

  // ----- sessions -----

  /** A sorted set of session members, each "{id}|{address}", scored by its expiry. */
  type Sessions = map<string, int>

  type Time = int

  function Purge(z: Sessions, now: Time): Sessions {
    map m | m in z && !(0 <= z[m] <= now) :: z[m]
  }

  predicate MemberMatches(readers: Readers, m: string, ip: string, prefix: nat) {
    LastIndexOf(m, '|') >= 0 && IpMatches(readers, m[LastIndexOf(m, '|') + 1..], ip, prefix)
  }

  /** The address of a member is what follows its last bar. */
  lemma MemberAddress(readers: Readers, id: string, address: string, ip: string, prefix: nat)
    requires '|' !in address
    ensures MemberMatches(readers, id + "|" + address, ip, prefix) <==> IpMatches(readers, address, ip, prefix)
  {
    var m := id + "|" + address;
    assert m[|id|] == '|' && forall k :: |id| < k < |m| ==> m[k] == address[k - |id| - 1];
    assert LastIndexOf(m, '|') == |id| && m[|id| + 1..] == address;
  }

  /** A session as it is stored. */
  function Member(id: string, address: string): string {
    id + "|" + address
  }

  /** A session opened from a matching address that has not expired. */
  ghost predicate OpenFrom(readers: Readers, z: Sessions, ip: string, prefix: nat, now: Time) {
    exists id, address :: && '|' !in address && Member(id, address) in z && z[Member(id, address)] > now
                          && SameClient(readers, address, ip, prefix)
  }

  lemma MemberSplit(m: string)
    requires LastIndexOf(m, '|') >= 0
    ensures var n := LastIndexOf(m, '|'); m == Member(m[..n], m[n + 1..]) && '|' !in m[n + 1..]
  {
    var n := LastIndexOf(m, '|');
    assert m == m[..n] + [m[n]] + m[n + 1..];
  }

  datatype Config = Config(trusted: seq<string>, failOpen: bool, byAddress: bool, prefix: nat)

  predicate LiveSession(readers: Readers, config: Config, z: Sessions, ip: string) {
    if config.byAddress then exists m :: m in z && MemberMatches(readers, m, ip, config.prefix) else z != map[]
  }

  /** How far a call gets with the store: not at all, through the purge only, or to the end. */
  datatype Reach = Down | PurgedOnly | Up

  datatype Via = TrustedCidr | RedisUnavailable | Session | Denied

  function Decide(readers: Readers, config: Config, z: Sessions, ip: string, now: Time, reach: Reach): (bool, Via) {
    if InAny(readers, ip, config.trusted) then (true, TrustedCidr)
    else if !reach.Up? then (config.failOpen, RedisUnavailable)
    else if LiveSession(readers, config, Purge(z, now), ip) then (true, Session)
    else (false, Denied)
  }

  function SessionKey(tenant: string, uid: string): string {
    "webdav:session:" + tenant + ":" + uid
  }

  /** By address, a client outside the trusted networks is let in exactly with an unexpired session
      opened from a matching address. */
  lemma AdmittedByAddressExactly(readers: Readers, config: Config, z: Sessions, ip: string, now: Time)
    requires config.byAddress && !InAny(readers, ip, config.trusted)
    requires forall m :: m in z ==> z[m] >= 0
    ensures Decide(readers, config, z, ip, now, Up) ==
            if OpenFrom(readers, z, ip, config.prefix, now) then (true, Session) else (false, Denied)
  {
    var left := Purge(z, now);
    if m :| m in left && MemberMatches(readers, m, ip, config.prefix) {
      var n := LastIndexOf(m, '|');
      MemberSplit(m);
      MatchesExactly(readers, m[n + 1..], ip, config.prefix);
      assert Member(m[..n], m[n + 1..]) in z;
    }
    if OpenFrom(readers, z, ip, config.prefix, now) {
      var id, address :| && '|' !in address && Member(id, address) in z && z[Member(id, address)] > now
                         && SameClient(readers, address, ip, config.prefix);
      MemberAddress(readers, id, address, ip, config.prefix);
      MatchesExactly(readers, address, ip, config.prefix);
      assert Member(id, address) in left;
    }
  }

  /** Without the address, any unexpired session lets in. */
  lemma AdmittedBySessionExactly(readers: Readers, config: Config, z: Sessions, ip: string, now: Time)
    requires !config.byAddress && !InAny(readers, ip, config.trusted)
    requires forall m :: m in z ==> z[m] >= 0
    ensures Decide(readers, config, z, ip, now, Up) ==
            if exists m :: m in z && z[m] > now then (true, Session) else (false, Denied)
  {
    var left := Purge(z, now);
    if m :| m in z && z[m] > now {
      assert m in left;
    }
    if left != map[] {
      var m :| m in left;
      assert z[m] > now;
    }
  }

  /** A trusted network is let in whatever the store says or does; anyone else, while the store does
      not answer to the end, exactly if so configured. */
  lemma WithoutSessions(readers: Readers, config: Config, z: Sessions, ip: string, now: Time, reach: Reach)
    ensures InAny(readers, ip, config.trusted) ==>
      Decide(readers, config, z, ip, now, reach) == (true, TrustedCidr)
    ensures !InAny(readers, ip, config.trusted) && !reach.Up? ==>
      Decide(readers, config, z, ip, now, reach) == (config.failOpen, RedisUnavailable)
  {
  }

  /** Two users' sessions are never looked up under one key, for tenants without a colon. */
  lemma SessionKeysAreApart(tenant: string, uid: string, tenant': string, uid': string)
    requires ':' !in tenant && ':' !in tenant'
    ensures SessionKey(tenant, uid) == SessionKey(tenant', uid') <==> tenant == tenant' && uid == uid'
  {
    var prefix := "webdav:session:";
    var a, b := tenant + ":" + uid, tenant' + ":" + uid';
    assert SessionKey(tenant, uid) == prefix + a && SessionKey(tenant', uid') == prefix + b;
    if SessionKey(tenant, uid) == SessionKey(tenant', uid') {
      assert (prefix + a)[|prefix|..] == a && (prefix + b)[|prefix|..] == b;
      JoinIsInjective(tenant, uid, tenant', uid', ':');
    }
  }

  class Gate {
    const config: Config
    var sessions: map<string, Sessions>

    constructor (config: Config, sessions: map<string, Sessions>)
      ensures this.config == config && this.sessions == sessions
    {
      this.config, this.sessions := config, sessions;
    }

    function Of(key: string): Sessions
      reads this
    {
      if key in sessions then sessions[key] else map[]
    }

    /** Purges what has expired, then tests what is left; `ok` is whether the store answered. */
    method HasLiveSession(readers: Readers, key: string, ip: string, now: Time, reach: Reach)
      returns (found: bool, ok: bool)
      modifies this
      ensures ok <==> reach.Up?
      ensures found == (reach.Up? && LiveSession(readers, config, Purge(old(Of(key)), now), ip))
      ensures sessions == if reach.Down? then old(sessions) else old(sessions)[key := Purge(old(Of(key)), now)]
      ensures !reach.Down? ==> forall m ::
                && (m in Of(key) <==> m in old(Of(key)) && !(0 <= old(Of(key))[m] <= now))
                && (m in Of(key) ==> Of(key)[m] == old(Of(key))[m])
    {
      if reach.Down? {
        return false, false;
      }
      var z := Purge(Of(key), now);
      sessions := sessions[key := z];
      if reach.PurgedOnly? {
        return false, false;
      }
      if !config.byAddress {
        return z != map[], true;
      }
      var rest := z.Keys;
      while rest != {}
        invariant rest <= z.Keys
        invariant forall m :: m in z && m !in rest ==> !MemberMatches(readers, m, ip, config.prefix)
        decreases rest
      {
        var m :| m in rest;
        if MemberMatches(readers, m, ip, config.prefix) {
          return true, true;
        }
        rest := rest - {m};
      }
      return false, true;
    }

    method Decision(readers: Readers, tenant: string, uid: string, ip: string, now: Time, reach: Reach)
      returns (allow: bool, via: Via)
      modifies this
      ensures (allow, via) == Decide(readers, config, old(Of(SessionKey(tenant, uid))), ip, now, reach)
      ensures sessions == if InAny(readers, ip, config.trusted) || reach.Down? then old(sessions)
                          else old(sessions)[SessionKey(tenant, uid) := Purge(old(Of(SessionKey(tenant, uid))), now)]
    {
      var local := IpInAnyCidr(readers, ip, config.trusted);
      if local {
        return true, TrustedCidr;
      }
      var live, ok := HasLiveSession(readers, SessionKey(tenant, uid), ip, now, reach);
      if !ok {
        return config.failOpen, RedisUnavailable;
      }
      return live, if live then Session else Denied;
    }
  }

  // ----- purging early changes nothing -----

  function PurgeAll(z: Sessions, times: seq<Time>): Sessions {
    if times == [] then z else Purge(PurgeAll(z, times[..|times| - 1]), times[|times| - 1])
  }

  lemma {:induction false} PurgesAreAbsorbed(z: Sessions, times: seq<Time>, now: Time)
    requires forall i :: 0 <= i < |times| ==> times[i] <= now
    ensures Purge(PurgeAll(z, times), now) == Purge(z, now)
  {
    if times != [] {
      var last := |times| - 1;
      var before := PurgeAll(z, times[..last]);
      PurgesAreAbsorbed(z, times[..last], now);
      assert Purge(Purge(before, times[last]), now) == Purge(before, now);
    }
  }

  /** However often expired members were purged before, a later decision is the same. */
  lemma EarlierPurgesDoNotMatter(readers: Readers, config: Config, z: Sessions, times: seq<Time>,
                                 ip: string, now: Time, reach: Reach)
    requires forall i :: 0 <= i < |times| ==> times[i] <= now
    ensures Decide(readers, config, PurgeAll(z, times), ip, now, reach) ==
            Decide(readers, config, z, ip, now, reach)
  {
    PurgesAreAbsorbed(z, times, now);
  }

  /** Over non-negative scores, a session lets a client in exactly while it has not expired. */
  lemma SessionMeansUnexpired(readers: Readers, config: Config, z: Sessions, ip: string, now: Time)
    requires forall m :: m in z ==> z[m] >= 0
    requires !InAny(readers, ip, config.trusted)
    ensures Decide(readers, config, z, ip, now, Up).0 <==>
            exists m :: m in z && z[m] > now && (config.byAddress ==> MemberMatches(readers, m, ip, config.prefix))
  {
    var left := Purge(z, now);
    if m :| m in z && z[m] > now && (config.byAddress ==> MemberMatches(readers, m, ip, config.prefix)) {
      assert m in left;
    }
    if left != map[] && !config.byAddress {
      var m :| m in left;
      assert m in z && z[m] > now;
    }
  }
}
