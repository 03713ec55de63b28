/** The tenant-state gate: a cache of verdicts with asymmetric lifetimes in front of a remote
    lookup made without holding the lock, run by any number of threads at once. */
module TenantGate {
  import opened Options

  type Time = int
  const ADMIT_SECONDS := 60
  const REFUSE_SECONDS := 10

  /** What a lookup of a tenant's state came back with. */
  datatype Lookup = Failed | Found(state: string)

  predicate Known(state: string) {
    state in {"requested", "awaiting_dns", "provisioning", "live", "suspended", "decommissioning", "decommissioned"}
  }

  predicate Admits(state: string) {
    state == "live"
  }

  function Verdict(l: Lookup): bool {
    l.Found? && Known(l.state) && Admits(l.state)
  }

  /** Only a successful lookup that says "live" admits. */
  lemma OnlyLiveAdmits(l: Lookup)
    ensures Verdict(l) <==> l == Found("live")
  {
  }

  datatype Entry = Entry(until: Time, admits: bool)

  function Lifetime(admits: bool): Time {
    if admits then ADMIT_SECONDS else REFUSE_SECONDS
  }

  /** The first locked section: an unexpired verdict, if there is one. */
  function Check(cache: map<string, Entry>, tenant: string, now: Time): Option<bool> {
    if tenant in cache && now < cache[tenant].until then Some(cache[tenant].admits) else None
  }

  /** The second locked section: the lifetime counts from the clock reading before the lookup. */
  function Store(cache: map<string, Entry>, tenant: string, now: Time, admits: bool): map<string, Entry> {
    cache[tenant := Entry(now + Lifetime(admits), admits)]
  }

  // ----- one call, as the code runs it -----

  class Gate {
    var cache: map<string, Entry>

    constructor ()
      ensures cache == map[]
    {
      cache := map[];
    }

    /** One undisturbed call; `reply` is what the remote lookup answers if it is made. */
    method TenantAdmits(tenant: string, now: Time, reply: Lookup) returns (admits: bool)
      modifies this
      ensures admits == if tenant == "" then false
                        else match Check(old(cache), tenant, now) case Some(v) => v case None => Verdict(reply)
      ensures cache == if tenant != "" && Check(old(cache), tenant, now).None?
              then Store(old(cache), tenant, now, Verdict(reply))
                       else old(cache)
    {
      if tenant == "" {
        return false;
      }
      if tenant in cache && now < cache[tenant].until {
        return cache[tenant].admits;
      }
      admits := Verdict(reply);
      cache := cache[tenant := Entry(now + (if admits then 60 else 10), admits)];
    }
  }

  // ----- all threads at once -----

  type Tid = nat

  /** A lookup that was made: when it began, by the global clock, and how it ended. */
  datatype Made = Made(tenant: string, began: Time, result: Lookup)

  /** Where a thread stands inside a call it entered with clock reading `now`. */
  datatype Phase =
    | Idle
    | Entered(tenant: string, now: Time)
    | Missed(tenant: string, now: Time)
    | Asking(tenant: string, now: Time, began: Time)
    | Answered(tenant: string, now: Time, lookup: nat)
    | Returned(tenant: string, now: Time, admits: bool, cached: bool)

  datatype State = State(clock: Time, cache: map<string, Entry>, threads: map<Tid, Phase>, made: seq<Made>)

  datatype Action =
    | Tick(to: Time)
    | Enter(tid: Tid, tenant: string)
    | Look(tid: Tid)
    | Ask(tid: Tid)
    | Reply(tid: Tid, result: Lookup)
    | Write(tid: Tid)
    | Leave(tid: Tid)

  function PhaseOf(s: State, tid: Tid): Phase {
    if tid in s.threads then s.threads[tid] else Idle
  }

  function At(s: State, tid: Tid, p: Phase): State {
    s.(threads := s.threads[tid := p])
  }

  predicate Enabled(s: State, a: Action) {
    match a
    case Tick(to) => to >= s.clock
    case Enter(tid, _) => PhaseOf(s, tid).Idle?
    case Look(tid) => PhaseOf(s, tid).Entered?
    case Ask(tid) => PhaseOf(s, tid).Missed?
    case Reply(tid, _) => PhaseOf(s, tid).Asking?
    case Write(tid) => PhaseOf(s, tid).Answered? && PhaseOf(s, tid).lookup < |s.made|
    case Leave(tid) => PhaseOf(s, tid).Returned?
  }

  /** One step of one thread, or of the clock. */
  function Next(s: State, a: Action): State
    requires Enabled(s, a)
  {
    match a
    case Tick(to) => s.(clock := to)
    case Enter(tid, tenant) =>
      At(s, tid, if tenant == "" then Returned("", s.clock, false, false) else Entered(tenant, s.clock))
    case Look(tid) =>
      var p := PhaseOf(s, tid);
      (match Check(s.cache, p.tenant, p.now)
       case Some(v) => At(s, tid, Returned(p.tenant, p.now, v, true))
       case None => At(s, tid, Missed(p.tenant, p.now)))
    case Ask(tid) =>
      var p := PhaseOf(s, tid);
      At(s, tid, Asking(p.tenant, p.now, s.clock))
    case Reply(tid, result) =>
      var p := PhaseOf(s, tid);
      At(s, tid, Answered(p.tenant, p.now, |s.made|)).(made := s.made + [Made(p.tenant, p.began, result)])
    case Write(tid) =>
      var p := PhaseOf(s, tid);
      var verdict := Verdict(s.made[p.lookup].result);
      At(s, tid, Returned(p.tenant, p.now, verdict, false)).(cache := Store(s.cache, p.tenant, p.now, verdict))
    case Leave(tid) => At(s, tid, Idle)
  }

  /** A call no other thread interleaves with does what Gate.TenantAdmits does. */
  lemma UndisturbedCall(s: State, tid: Tid, tenant: string, reply: Lookup)
    requires PhaseOf(s, tid).Idle? && tenant != ""
    ensures var looked := Next(Next(s, Enter(tid, tenant)), Look(tid));
            match Check(s.cache, tenant, s.clock)
            case Some(v) => PhaseOf(looked, tid).admits == v && looked.cache == s.cache
            case None =>
              var done := Next(Next(Next(looked, Ask(tid)), Reply(tid, reply)), Write(tid));
              && PhaseOf(done, tid).admits == Verdict(reply)
              && done.cache == Store(s.cache, tenant, s.clock, Verdict(reply))
  {
  }

  predicate Initial(s: State) {
    s.cache == map[] && s.threads == map[] && s.made == []
  }

  ghost predicate Run(ss: seq<State>, acts: seq<Action>) {
    && |ss| == |acts| + 1 && Initial(ss[0])
    && forall i :: 0 <= i < |acts| ==> Enabled(ss[i], acts[i]) && ss[i + 1] == Next(ss[i], acts[i])
  }

  /** A lookup for `tenant`, begun no earlier than `since`, that ended in this verdict. */
  ghost predicate Backed(made: seq<Made>, tenant: string, since: Time, admits: bool) {
    exists i :: && 0 <= i < |made| && made[i].tenant == tenant && made[i].began >= since
                && Verdict(made[i].result) == admits
  }

  /** Every cached verdict rests on a lookup begun no earlier than its lifetime before its end. */
  ghost predicate CacheBacked(s: State) {
    forall tenant :: tenant in s.cache ==>
      var e := s.cache[tenant];
      tenant != "" && Backed(s.made, tenant, e.until - Lifetime(e.admits), e.admits)
  }

  ghost predicate PhaseBacked(s: State, p: Phase) {
    match p
    case Idle => true
    case Entered(tenant, now) => tenant != "" && now <= s.clock
    case Missed(tenant, now) => tenant != "" && now <= s.clock
    case Asking(tenant, now, began) => tenant != "" && now <= began <= s.clock
    case Answered(tenant, now, i) =>
      tenant != "" && i < |s.made| && s.made[i].tenant == tenant && now <= s.made[i].began
    case Returned(tenant, now, admits, cached) =>
      if cached then tenant != "" && Backed(s.made, tenant, now - Lifetime(admits) + 1, admits)
      else (tenant == "" && !admits) || (tenant != "" && Backed(s.made, tenant, now, admits))
  }

  ghost predicate Inv(s: State) {
    && CacheBacked(s)
    && forall tid :: tid in s.threads ==> PhaseBacked(s, s.threads[tid])
  }

  lemma MoreLookups(made: seq<Made>, more: seq<Made>, tenant: string, since: Time, admits: bool)
    requires Backed(made, tenant, since, admits)
    ensures Backed(made + more, tenant, since, admits)
  {
    var i :| 0 <= i < |made| && made[i].tenant == tenant && made[i].began >= since && Verdict(made[i].result) == admits;
    assert (made + more)[i] == made[i];
  }

  lemma StillBacked(s: State, s': State, p: Phase)
    requires PhaseBacked(s, p) && s.clock <= s'.clock && s.made <= s'.made
    ensures PhaseBacked(s', p)
  {
    if p.Returned? && p.tenant != "" {
      var since := if p.cached then p.now - Lifetime(p.admits) + 1 else p.now;
      MoreLookups(s.made, s'.made[|s.made|..], p.tenant, since, p.admits);
      assert s.made + s'.made[|s.made|..] == s'.made;
    }
  }

  lemma WeakerBound(made: seq<Made>, tenant: string, since: Time, since': Time, admits: bool)
    requires Backed(made, tenant, since, admits) && since' <= since
    ensures Backed(made, tenant, since', admits)
  {
    var i :| 0 <= i < |made| && made[i].tenant == tenant && made[i].began >= since && Verdict(made[i].result) == admits;
    assert made[i].began >= since';
  }

  lemma StepKeepsCache(s: State, a: Action)
    requires Inv(s) && Enabled(s, a)
    ensures CacheBacked(Next(s, a))
  {
    var s' := Next(s, a);
    forall tenant | tenant in s'.cache
      ensures var e := s'.cache[tenant];
              tenant != "" && Backed(s'.made, tenant, e.until - Lifetime(e.admits), e.admits)
    {
      if a.Write? && tenant == PhaseOf(s, a.tid).tenant {
        var p := PhaseOf(s, a.tid);
        assert Backed(s.made, p.tenant, p.now, Verdict(s.made[p.lookup].result));
      } else {
        var e := s.cache[tenant];
        MoreLookups(s.made, s'.made[|s.made|..], tenant, e.until - Lifetime(e.admits), e.admits);
        assert s.made + s'.made[|s.made|..] == s'.made;
      }
    }
  }

  lemma StepKeepsInv(s: State, a: Action)
    requires Inv(s) && Enabled(s, a)
    ensures Inv(Next(s, a))
  {
    var s' := Next(s, a);
    StepKeepsCache(s, a);
    forall tid | tid in s'.threads
      ensures PhaseBacked(s', s'.threads[tid])
    {
      if tid in s.threads && s'.threads[tid] == s.threads[tid] {
        StillBacked(s, s', s.threads[tid]);
      } else if a.Write? {
        var p := PhaseOf(s, tid);
        assert Backed(s.made, p.tenant, p.now, Verdict(s.made[p.lookup].result));
      } else if a.Look? && s'.threads[tid].Returned? {
        var p := PhaseOf(s, tid);
        var e := s.cache[p.tenant];
        WeakerBound(s.made, p.tenant, e.until - Lifetime(e.admits), p.now - Lifetime(e.admits) + 1, e.admits);
      }
    }
  }

  lemma {:induction false} RunKeepsInv(ss: seq<State>, acts: seq<Action>, n: nat)
    requires Run(ss, acts) && n < |ss|
    ensures Inv(ss[n])
  {
    if n > 0 {
      RunKeepsInv(ss, acts, n - 1);
      StepKeepsInv(ss[n - 1], acts[n - 1]);
    }
  }

  /** For every interleaving: an admission rests on a successful "live" lookup of that tenant
      begun during the call itself or less than 60 seconds before it was entered. */
  lemma AdmissionIsRecentlyLive(ss: seq<State>, acts: seq<Action>, n: nat, tid: Tid)
    requires Run(ss, acts) && n < |ss| && PhaseOf(ss[n], tid).Returned? && PhaseOf(ss[n], tid).admits
    ensures var p := PhaseOf(ss[n], tid);
            p.tenant != "" &&
            exists i :: && 0 <= i < |ss[n].made| && ss[n].made[i].tenant == p.tenant
                        && ss[n].made[i].result == Found("live")
                        && (if p.cached then ss[n].made[i].began > p.now - 60 else ss[n].made[i].began >= p.now)
  {
    RunKeepsInv(ss, acts, n);
    var s, p := ss[n], PhaseOf(ss[n], tid);
    assert PhaseBacked(s, p);
    var since := if p.cached then p.now - 59 else p.now;
    var i :| 0 <= i < |s.made| && s.made[i].tenant == p.tenant && s.made[i].began >= since && Verdict(s.made[i].result);
    OnlyLiveAdmits(s.made[i].result);
  }

  /** A refusal from the cache rests on a refusing lookup begun less than 10 seconds before. */
  lemma CachedRefusalIsRecent(ss: seq<State>, acts: seq<Action>, n: nat, tid: Tid)
    requires Run(ss, acts) && n < |ss| && PhaseOf(ss[n], tid).Returned?
    requires !PhaseOf(ss[n], tid).admits && PhaseOf(ss[n], tid).cached
    ensures var p := PhaseOf(ss[n], tid);
            exists i :: && 0 <= i < |ss[n].made| && ss[n].made[i].tenant == p.tenant
                        && ss[n].made[i].result != Found("live")
                        && ss[n].made[i].began > p.now - 10
  {
    RunKeepsInv(ss, acts, n);
    var s, p := ss[n], PhaseOf(ss[n], tid);
    assert PhaseBacked(s, p);
    var i :| && 0 <= i < |s.made| && s.made[i].tenant == p.tenant && s.made[i].began >= p.now - 9
             && !Verdict(s.made[i].result);
    OnlyLiveAdmits(s.made[i].result);
  }

  // ----- a fresh verdict is used -----

  /** The step at which a verdict on `tenant` was last written before step `n`. */
  ghost function LastWrite(ss: seq<State>, acts: seq<Action>, n: nat, tenant: string): Option<nat>
    requires n <= |acts| < |ss|
  {
    if n == 0 then None
    else
      var a := acts[n - 1];
      if a.Write? && PhaseOf(ss[n - 1], a.tid).Answered? && PhaseOf(ss[n - 1], a.tid).tenant == tenant then Some(n - 1)
      else LastWrite(ss, acts, n - 1, tenant)
  }

  /** Thread `tid` is about to write the verdict of its lookup, for a call that read the clock at
      `began`. */
  ghost predicate AboutToWrite(s: State, a: Action, tenant: string, began: Time, verdict: bool) {
    && a.Write? && PhaseOf(s, a.tid).Answered? && PhaseOf(s, a.tid).lookup < |s.made|
    && PhaseOf(s, a.tid).tenant == tenant && PhaseOf(s, a.tid).now == began
    && (verdict <==> s.made[PhaseOf(s, a.tid).lookup].result == Found("live"))
  }

  lemma {:induction false} CacheHoldsLastWrite(ss: seq<State>, acts: seq<Action>, n: nat, tenant: string)
    requires Run(ss, acts) && n < |ss|
    ensures match LastWrite(ss, acts, n, tenant)
            case None => tenant !in ss[n].cache
            case Some(k) =>
              && k < n && tenant in ss[n].cache
              && var e := ss[n].cache[tenant];
                 AboutToWrite(ss[k], acts[k], tenant, e.until - (if e.admits then 60 else 10), e.admits)
  {
    if n > 0 {
      var s, a := ss[n - 1], acts[n - 1];
      CacheHoldsLastWrite(ss, acts, n - 1, tenant);
      assert Enabled(s, a) && ss[n] == Next(s, a);
      if a.Write? {
        OnlyLiveAdmits(s.made[PhaseOf(s, a.tid).lookup].result);
      }
    }
  }

  /** In every interleaving, a call that reads the clock less than 60 seconds after the call that
      last wrote an admission did, or less than 10 after one that wrote a refusal, takes that
      verdict and asks nobody; any other call has to ask. */
  lemma FreshVerdictIsUsed(ss: seq<State>, acts: seq<Action>, n: nat, tid: Tid, began: Time, verdict: bool)
    requires Run(ss, acts) && n < |acts| && acts[n] == Look(tid)
    requires var tenant := PhaseOf(ss[n], tid).tenant;
             var last := LastWrite(ss, acts, n, tenant);
             last.Some? ==>
               last.value < n && AboutToWrite(ss[last.value], acts[last.value], tenant, began, verdict)
    ensures var p, p' := PhaseOf(ss[n], tid), PhaseOf(ss[n + 1], tid);
            && ss[n + 1].made == ss[n].made
            && p' == if LastWrite(ss, acts, n, p.tenant).Some? && p.now < began + (if verdict then 60 else 10)
                     then Returned(p.tenant, p.now, verdict, true)
                     else Missed(p.tenant, p.now)
  {
    assert Enabled(ss[n], acts[n]) && ss[n + 1] == Next(ss[n], acts[n]);
    CacheHoldsLastWrite(ss, acts, n, PhaseOf(ss[n], tid).tenant);
  }
}
