/** Failover between the LDAP master and its read-only replica: a breaker that keeps a failed
    master untouched for a cooldown, and what that means for whole runs of connects. */
module Failover {
  import opened Options

  /** Seconds on a steady clock. */
  type Seconds = real

  class CircuitBreaker {
    const cooldown: Seconds
    var downUntil: Seconds

    constructor (cooldown: Seconds)
      ensures this.cooldown == cooldown && downUntil == 0.0
    {
      this.cooldown := cooldown;
      downUntil := 0.0;
    }

    predicate ShouldTryPrimary(now: Seconds)
      reads this
    {
      now >= downUntil
    }

    predicate IsDegraded(now: Seconds)
      reads this
    {
      now < downUntil
    }

    method Trip(now: Seconds)
      modifies this
      ensures downUntil == now + cooldown
      ensures forall t :: t < now + cooldown <==> IsDegraded(t)
    {
      downUntil := now + cooldown;
    }

    method Reset()
      modifies this
      ensures downUntil == 0.0
      ensures forall t :: t >= 0.0 ==> ShouldTryPrimary(t)
    {
      downUntil := 0.0;
    }
  }

  datatype Endpoint = Master | Replica

  /** One connect: the clock when it is entered and when an attempt on the master has ended,
      and whether each endpoint would accept. */
  datatype Connect = Connect(start: Seconds, probed: Seconds, masterUp: bool, replicaUp: bool)

  predicate Touches(hasReplica: bool, downUntil: Seconds, c: Connect) {
    !hasReplica || c.start >= downUntil
  }

  function Connected(hasReplica: bool, downUntil: Seconds, c: Connect): Option<Endpoint> {
    if Touches(hasReplica, downUntil, c) && c.masterUp then Some(Master)
    else if hasReplica && c.replicaUp then Some(Replica)
    else None
  }

  function After(hasReplica: bool, cooldown: Seconds, downUntil: Seconds, c: Connect): Seconds {
    if !hasReplica || !Touches(hasReplica, downUntil, c) then downUntil
    else if c.masterUp then 0.0
    else c.probed + cooldown
  }

  class Authenticator {
    const hasReplica: bool
    const breaker: CircuitBreaker

    constructor (hasReplica: bool, cooldown: Seconds)
      ensures this.hasReplica == hasReplica
      ensures breaker.cooldown == cooldown && breaker.downUntil == 0.0 && fresh(breaker)
    {
      this.hasReplica := hasReplica;
      breaker := new CircuitBreaker(cooldown);
    }

    /** The endpoint connected to, if any, and whether the master was touched. */
    method ConnectToLdap(c: Connect) returns (connected: Option<Endpoint>, touched: bool)
      modifies breaker
      ensures touched == Touches(hasReplica, old(breaker.downUntil), c)
      ensures connected == Connected(hasReplica, old(breaker.downUntil), c)
      ensures breaker.downUntil == After(hasReplica, breaker.cooldown, old(breaker.downUntil), c)
      ensures connected == Some(Master) <==> touched && c.masterUp
      ensures connected == Some(Replica) <==> hasReplica && c.replicaUp && !(touched && c.masterUp)
      ensures !hasReplica ==> touched
      ensures breaker.downUntil == if !hasReplica || !touched then old(breaker.downUntil)
                                   else if c.masterUp then 0.0 else c.probed + breaker.cooldown
    {
      if !hasReplica {
        return if c.masterUp then Some(Master) else None, true;
      }
      touched := breaker.ShouldTryPrimary(c.start);
      if touched {
        if c.masterUp {
          breaker.Reset();
          return Some(Master), touched;
        }
        breaker.Trip(c.probed);
      }
      connected := if c.replicaUp then Some(Replica) else None;
    }
  }

  // ----- runs -----

  /** The breaker before connect `n` of a run, starting from a fresh one. */
  function DownUntil(cooldown: Seconds, run: seq<Connect>, n: nat): Seconds
    requires n <= |run|
  {
    if n == 0 then 0.0 else After(true, cooldown, DownUntil(cooldown, run, n - 1), run[n - 1])
  }

  /** Connects follow one another on a clock that never runs backwards. */
  ghost predicate InOrder(run: seq<Connect>) {
    && (forall i :: 0 <= i < |run| ==> 0.0 <= run[i].start <= run[i].probed)
    && (forall i, j :: 0 <= i < j < |run| ==> run[i].probed <= run[j].start)
  }

  /** Connect `i` tried the master and failed. */
  predicate FailedProbe(cooldown: Seconds, run: seq<Connect>, i: nat)
    requires i < |run|
  {
    Touches(true, DownUntil(cooldown, run, i), run[i]) && !run[i].masterUp
  }

  /** How many of the connects `lo` to `hi - 1` tried the master and failed. */
  function FailedProbes(cooldown: Seconds, run: seq<Connect>, lo: nat, hi: nat): nat
    requires lo <= hi <= |run|
    decreases hi
  {
    if lo == hi then 0
    else FailedProbes(cooldown, run, lo, hi - 1) + (if FailedProbe(cooldown, run, hi - 1) then 1 else 0)
  }

  /** After a failed probe, the breaker is either still down until that probe's expiry or has
      been touched again at or after it. */
  lemma {:induction false} QuietUntilExpiry(cooldown: Seconds, run: seq<Connect>, i: nat, n: nat)
    requires InOrder(run) && cooldown >= 0.0 && i < n <= |run| && FailedProbe(cooldown, run, i)
    ensures DownUntil(cooldown, run, n) == run[i].probed + cooldown
            || exists j :: i < j < n && run[j].start >= run[i].probed + cooldown
  {
    if i + 1 < n {
      QuietUntilExpiry(cooldown, run, i, n - 1);
      if !(exists j :: i < j < n - 1 && run[j].start >= run[i].probed + cooldown) {
        assert DownUntil(cooldown, run, n - 1) == run[i].probed + cooldown;
        if Touches(true, DownUntil(cooldown, run, n - 1), run[n - 1]) {
          assert run[n - 1].start >= run[i].probed + cooldown;
        }
      }
    }
  }

  /** No connect inside a cooldown touches the master; the first at or after expiry does. */
  lemma MasterIsLeftAlone(cooldown: Seconds, run: seq<Connect>, i: nat, n: nat)
    requires InOrder(run) && cooldown >= 0.0 && i < n < |run| && FailedProbe(cooldown, run, i)
    ensures run[n].start < run[i].probed + cooldown ==> !Touches(true, DownUntil(cooldown, run, n), run[n])
    ensures && run[n].start >= run[i].probed + cooldown
            && (forall j :: i < j < n ==> run[j].start < run[i].probed + cooldown) ==>
      Touches(true, DownUntil(cooldown, run, n), run[n])
  {
    QuietUntilExpiry(cooldown, run, i, n);
    if exists j :: i < j < n && run[j].start >= run[i].probed + cooldown {
      var j :| i < j < n && run[j].start >= run[i].probed + cooldown;
      assert run[j].start <= run[j].probed <= run[n].start;
    }
  }

  /** `k` cooldowns one after another. */
  function Times(k: nat, cooldown: Seconds): Seconds {
    if k == 0 then 0.0 else Times(k - 1, cooldown) + cooldown
  }

  lemma {:induction false} TimesIsProduct(k: nat, cooldown: Seconds)
    ensures Times(k, cooldown) == (k as real) * cooldown
  {
    if k > 0 {
      TimesIsProduct(k - 1, cooldown);
      assert (k as real) * cooldown == ((k - 1) as real + 1.0) * cooldown;
    }
  }

  /** The failed probe before `n`, with none in between. */
  lemma {:induction false} LastFailedBefore(cooldown: Seconds, run: seq<Connect>, i: nat, n: nat) returns (m: nat)
    requires i < n <= |run| && FailedProbe(cooldown, run, i)
    ensures i <= m < n && FailedProbe(cooldown, run, m)
    ensures FailedProbes(cooldown, run, i, n) == FailedProbes(cooldown, run, i, m + 1)
    decreases n
  {
    if FailedProbe(cooldown, run, n - 1) {
      m := n - 1;
    } else {
      m := LastFailedBefore(cooldown, run, i, n - 1);
    }
  }

  /** Any k failed probes of the master span at least k - 1 cooldowns, whatever succeeded in between. */
  lemma {:induction false} ProbeRateIsBounded(cooldown: Seconds, run: seq<Connect>, i: nat, n: nat)
    requires InOrder(run) && cooldown >= 0.0 && i <= n < |run|
    requires FailedProbe(cooldown, run, i) && FailedProbe(cooldown, run, n)
    ensures FailedProbes(cooldown, run, i, n + 1) >= 1
    ensures run[n].start - run[i].start >= Times(FailedProbes(cooldown, run, i, n + 1) - 1, cooldown)
    decreases n
  {
    if i == n {
      assert FailedProbes(cooldown, run, i, i) == 0;
    } else {
      var m := LastFailedBefore(cooldown, run, i, n);
      ProbeRateIsBounded(cooldown, run, i, m);
      MasterIsLeftAlone(cooldown, run, m, n);
    }
  }

  /** A connect fails exactly when every endpoint it may use refuses: the master unless it is left
      alone, and the replica if there is one. */
  lemma FailsExactly(hasReplica: bool, downUntil: Seconds, c: Connect)
    ensures Connected(hasReplica, downUntil, c).None? <==>
            (Touches(hasReplica, downUntil, c) ==> !c.masterUp) && (hasReplica ==> !c.replicaUp)
    ensures Connected(hasReplica, downUntil, c) == Some(Master) <==> Touches(hasReplica, downUntil, c) && c.masterUp
    ensures !hasReplica ==> Connected(hasReplica, downUntil, c) == if c.masterUp then Some(Master) else None
  {
  }

  /** While the replica accepts, no connect of a run fails, and inside a cooldown each one is to the
      replica. */
  lemma ReplicaCarriesTheRun(cooldown: Seconds, run: seq<Connect>, n: nat)
    requires InOrder(run) && cooldown >= 0.0 && n < |run| && run[n].replicaUp
    ensures Connected(true, DownUntil(cooldown, run, n), run[n]).Some?
    ensures forall i :: 0 <= i < n && FailedProbe(cooldown, run, i) && run[n].start < run[i].probed + cooldown ==>
              Connected(true, DownUntil(cooldown, run, n), run[n]) == Some(Replica)
  {
    forall i | 0 <= i < n && FailedProbe(cooldown, run, i) && run[n].start < run[i].probed + cooldown
      ensures Connected(true, DownUntil(cooldown, run, n), run[n]) == Some(Replica)
    {
      MasterIsLeftAlone(cooldown, run, i, n);
    }
  }
}
