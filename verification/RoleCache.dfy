/** The shared role cache: a newline codec for lists of roles, a key per tenant and user, and
    entries that expire. */
module RoleCache {
  import opened Strings
  import opened Options
  import opened Hosts

  type Role = string

  type Time = int

  predicate GoodRole(r: Role) {
    IsPiece(r, '\n')
  }

  predicate GoodRoles(roles: seq<Role>) {
    forall i :: 0 <= i < |roles| ==> GoodRole(roles[i])
  }

  // ----- the codec -----

  function JoinRoles(roles: seq<Role>): string {
    if roles == [] then ""
    else if |roles| == 1 then roles[0]
    else JoinRoles(roles[..|roles| - 1]) + "\n" + roles[|roles| - 1]
  }

  /** The non-empty pieces between newlines. */
  function SplitRoles(v: string): (roles: seq<Role>)
    ensures GoodRoles(roles)
  {
    Pieces(v, '\n')
  }

  method EncodeRoles(roles: seq<Role>) returns (v: string)
    ensures v == JoinRoles(roles)
  {
    v := "";
    for i := 0 to |roles|
      invariant v == JoinRoles(roles[..i])
    {
      assert roles[..i + 1][..i] == roles[..i];
      if i > 0 {
        v := v + "\n";
      }
      v := v + roles[i];
    }
    assert roles[..|roles|] == roles;
  }

  lemma {:induction false} SplitOnce(v: string, start: nat, nl: nat)
    requires start < |v| && nl == IndexFrom(v, '\n', start)
    ensures nl > start ==> SplitRoles(v[start..]) == [v[start..nl]] + SplitRoles(v[nl..])
    ensures nl < |v| ==> SplitRoles(v[nl..]) == SplitRoles(v[nl + 1..])
  {
    var rest := v[start..];
    FirstIndexIsUnique(rest, '\n', nl - start);
    assert rest[..nl - start] == v[start..nl] && rest[nl - start..] == v[nl..];
    if nl < |v| {
      assert v[nl..][1..] == v[nl + 1..];
    }
  }

  method DecodeRoles(v: string) returns (roles: seq<Role>)
    ensures roles == SplitRoles(v)
  {
    roles := [];
    var start := 0;
    assert v[0..] == v;
    while start < |v|
      invariant start <= |v| && roles + SplitRoles(v[start..]) == SplitRoles(v)
    {
      var nl := IndexFrom(v, '\n', start);
      SplitOnce(v, start, nl);
      if nl > start {
        roles := roles + [v[start..nl]];
      }
      if nl == |v| {
        return;
      }
      start := nl + 1;
    }
  }

  lemma {:induction false} GoodRolesRoundTrip(roles: seq<Role>)
    requires GoodRoles(roles)
    ensures SplitRoles(JoinRoles(roles)) == roles
  {
    if |roles| == 1 {
      PiecesOfOne(roles[0], '\n');
    } else if |roles| > 1 {
      var init, last := roles[..|roles| - 1], roles[|roles| - 1];
      GoodRolesRoundTrip(init);
      PiecesOfOne(last, '\n');
      PiecesAtSeparator(JoinRoles(init), last, '\n');
    }
  }

  /** A list survives the cache exactly when its roles are non-empty and free of newlines. */
  lemma {:induction false} RoundTripExactly(roles: seq<Role>)
    ensures SplitRoles(JoinRoles(roles)) == roles <==> GoodRoles(roles)
  {
    if GoodRoles(roles) {
      GoodRolesRoundTrip(roles);
    }
  }

  // ----- the key -----

  function RoleKey(tenant: string, uid: string): string {
    "webdav:roles:" + tenant + ":" + uid
  }

  /** Tenants without a colon never share a key with another pair. */
  lemma KeysAreInjective(tenant: string, uid: string, tenant': string, uid': string)
    requires ':' !in tenant && ':' !in tenant'
    ensures RoleKey(tenant, uid) == RoleKey(tenant', uid') <==> tenant == tenant' && uid == uid'
  {
    var prefix := "webdav:roles:";
    var a, b := tenant + ":" + uid, tenant' + ":" + uid';
    assert RoleKey(tenant, uid) == prefix + a && RoleKey(tenant', uid') == prefix + b;
    if RoleKey(tenant, uid) == RoleKey(tenant', uid') {
      assert (prefix + a)[|prefix|..] == a && (prefix + b)[|prefix|..] == b;
      JoinIsInjective(tenant, uid, tenant', uid', ':');
    }
  }

  /** With a colon they can; tenants read from a host name never hold one. */
  lemma ColonTenantsCanClash()
    ensures RoleKey("a:b", "c") == RoleKey("a", "b:c")
  {
  }

  // ----- the cache -----

  datatype Stored = Stored(value: string, expires: Time)

  function Fetch(store: map<string, Stored>, tenant: string, uid: string, now: Time): Option<seq<Role>> {
    var key := RoleKey(tenant, uid);
    if uid != "" && key in store && now < store[key].expires then Some(SplitRoles(store[key].value)) else None
  }

  function Kept(store: map<string, Stored>, ttl: int, tenant: string, uid: string, roles: seq<Role>,
                now: Time): map<string, Stored> {
    if uid == "" || ttl <= 0 then store
    else store[RoleKey(tenant, uid) := Stored(JoinRoles(roles), now + ttl)]
  }

  /** The cache as one bridge process uses it; `reachable` is whether the store answers. */
  class RoleStore {
    const ttl: int
    var store: map<string, Stored>

    constructor (ttl: int)
      ensures this.ttl == ttl && store == map[]
    {
      this.ttl := ttl;
      store := map[];
    }

    method GetCachedRoles(uid: string, tenant: string, now: Time, reachable: bool) returns (roles: Option<seq<Role>>)
      ensures roles == if reachable then Fetch(store, tenant, uid, now) else None
    {
      if uid == "" || !reachable {
        return None;
      }
      var key := RoleKey(tenant, uid);
      if key !in store || now >= store[key].expires {
        return None;
      }
      var out := DecodeRoles(store[key].value);
      return Some(out);
    }

    method PutCachedRoles(uid: string, tenant: string, roles: seq<Role>, now: Time, reachable: bool)
      modifies this
      ensures store == if reachable then Kept(old(store), ttl, tenant, uid, roles, now) else old(store)
    {
      if uid == "" || ttl <= 0 || !reachable {
        return;
      }
      var value := EncodeRoles(roles);
      store := store[RoleKey(tenant, uid) := Stored(value, now + ttl)];
    }

    /** The roles of a verified user: from the cache, or from the directory and then cached. */
    method RolesOf(uid: string, host: string, now: Time, reachable: bool,
                   directory: Option<seq<Role>>) returns (roles: Option<seq<Role>>)
      modifies this
      ensures var cached := if reachable then Fetch(old(store), TenantOf(host), uid, now) else None;
              && roles == (if cached.Some? then cached else directory)
              && store == (if cached.None? && directory.Some? && reachable
                           then Kept(old(store), ttl, TenantOf(host), uid, directory.value, now) else old(store))
    {
      var tenant := TenantOf(host);
      roles := GetCachedRoles(uid, tenant, now, reachable);
      if roles.None? {
        if directory.None? {
          return None;
        }
        roles := directory;
        PutCachedRoles(uid, tenant, directory.value, now, reachable);
      }
    }
  }

  // ----- runs -----

  /** One write that reached the store, by any process, for a request to this host. */
  datatype Write = Write(host: string, uid: string, roles: seq<Role>, now: Time)

  function StoreAfter(ttl: int, writes: seq<Write>): map<string, Stored> {
    if writes == [] then map[]
    else
      var w := writes[|writes| - 1];
      Kept(StoreAfter(ttl, writes[..|writes| - 1]), ttl, TenantOf(w.host), w.uid, w.roles, w.now)
  }

  /** The last write for this pair. */
  function LastFor(writes: seq<Write>, tenant: string, uid: string): Option<Write> {
    if writes == [] then None
    else
      var w := writes[|writes| - 1];
      if TenantOf(w.host) == tenant && w.uid == uid then Some(w) else LastFor(writes[..|writes| - 1], tenant, uid)
  }

  /** The entry of one pair after one write: replaced by a write for that pair, else untouched. */
  lemma KeptForPair(store: map<string, Stored>, ttl: int, w: Write, host: string, uid: string)
    requires ttl > 0 && uid != ""
    ensures var key := RoleKey(TenantOf(host), uid);
            var store' := Kept(store, ttl, TenantOf(w.host), w.uid, w.roles, w.now);
            if TenantOf(w.host) == TenantOf(host) && w.uid == uid
            then key in store' && store'[key] == Stored(JoinRoles(w.roles), w.now + ttl)
            else (key in store' <==> key in store) && (key in store ==> store'[key] == store[key])
  {
    TenantIsPlain(host);
    TenantIsPlain(w.host);
    KeysAreInjective(TenantOf(w.host), w.uid, TenantOf(host), uid);
  }

  /** What a pair's last write leaves under its key. */
  predicate EntryIs(store: map<string, Stored>, key: string, ttl: int, last: Option<Write>) {
    match last
    case None => key !in store
    case Some(w) => key in store && store[key] == Stored(JoinRoles(w.roles), w.now + ttl)
  }

  lemma {:induction false} StoreHoldsLast(ttl: int, writes: seq<Write>, host: string, uid: string)
    requires ttl > 0 && uid != ""
    ensures EntryIs(StoreAfter(ttl, writes), RoleKey(TenantOf(host), uid), ttl, LastFor(writes, TenantOf(host), uid))
  {
    if writes != [] {
      var w := writes[|writes| - 1];
      StoreHoldsLast(ttl, writes[..|writes| - 1], host, uid);
      KeptForPair(StoreAfter(ttl, writes[..|writes| - 1]), ttl, w, host, uid);
    }
  }

  /** The roles of a write that has not expired. */
  function Unexpired(last: Option<Write>, ttl: int, now: Time): Option<seq<Role>> {
    match last
    case None => None
    case Some(w) => if now < w.now + ttl then Some(w.roles) else None
  }

  /** Without a lifetime nothing is ever stored, and without a uid nothing is ever found. */
  lemma {:induction false} NothingIsStored(ttl: int, writes: seq<Write>)
    requires ttl <= 0 || forall i :: 0 <= i < |writes| ==> writes[i].uid == ""
    ensures StoreAfter(ttl, writes) == map[]
  {
    if writes != [] {
      NothingIsStored(ttl, writes[..|writes| - 1]);
    }
  }

  lemma {:induction false} LastIsAWrite(writes: seq<Write>, tenant: string, uid: string)
    ensures LastFor(writes, tenant, uid).Some? ==> LastFor(writes, tenant, uid).value in writes
  {
    if writes != [] {
      LastIsAWrite(writes[..|writes| - 1], tenant, uid);
    }
  }

  ghost predicate GoodWrites(writes: seq<Write>) {
    forall w :: w in writes ==> GoodRoles(w.roles)
  }

  /** Over every run, a hit is precisely the list last stored for that tenant and user and not
      yet expired, and there is a hit whenever there is such a list. */
  lemma HitIsLastStored(ttl: int, writes: seq<Write>, host: string, uid: string, now: Time)
    requires ttl > 0 && uid != ""
    requires GoodWrites(writes)
    ensures Fetch(StoreAfter(ttl, writes), TenantOf(host), uid, now) ==
            Unexpired(LastFor(writes, TenantOf(host), uid), ttl, now)
  {
    StoreHoldsLast(ttl, writes, host, uid);
    LastIsAWrite(writes, TenantOf(host), uid);
    match LastFor(writes, TenantOf(host), uid)
    case None =>
    case Some(w) => RoundTripExactly(w.roles);
  }
}
