/** The registration rate limit (src/bin/coordinatord.rs): one pass per address every 5 s. */
module RateLimiter {
  import opened Wrappers

  const INTERVAL := 5000

  datatype Address = Address(id: nat)

  datatype Attempt = Attempt(ip: Address, at: nat)

  /** Time of the last request of `ip` that passed. */
  function LastPass(rs: seq<Attempt>, ip: Address): Option<nat>
    decreases |rs|, 0
  {
    if rs == [] then None
    else if Last(rs).ip == ip && Passes(Init(rs), Last(rs)) then Some(Last(rs).at)
    else LastPass(Init(rs), ip)
  }

  function Init(rs: seq<Attempt>): seq<Attempt>
    requires rs != []
  {
    rs[..|rs| - 1]
  }

  function Last(rs: seq<Attempt>): Attempt
    requires rs != []
  {
    rs[|rs| - 1]
  }

  /** A request passes unless one of the same address passed less than 5 s before. */
  predicate Passes(before: seq<Attempt>, r: Attempt)
    decreases |before|, 1
  {
    match LastPass(before, r.ip)
    case Some(t) => !(r.at < t + INTERVAL)
    case None => true
  }

  class Limiter {
    var limits: map<Address, nat>
    ghost var Log: seq<Attempt>

    ghost predicate Valid()
      reads this
    {
      forall ip :: (ip in limits <==> LastPass(Log, ip).Some?)
                   && (ip in limits ==> LastPass(Log, ip) == Some(limits[ip]))
    }

    constructor ()
      ensures Valid() && Log == []
    {
      limits := map[];
      Log := [];
    }

    /** `now` never runs backwards; `elapsed` saturates at 0 all the same. */
    method Admit(ip: Address, now: nat) returns (pass: bool)
      requires Valid()
      modifies this
      ensures Valid() && Log == old(Log) + [Attempt(ip, now)]
      ensures pass <==> Passes(old(Log), Attempt(ip, now))
    {
      ghost var r := Attempt(ip, now);
      ghost var before := Log;
      Log := Log + [r];
      assert Init(Log) == before && Last(Log) == r;
      if ip in limits {
        var elapsed := if now < limits[ip] then 0 else now - limits[ip];
        if elapsed < INTERVAL {
          return false;
        }
      }
      limits := limits[ip := now];
      pass := true;
    }
  }

  // ------------------------------------------------------------ over whole runs

  ghost predicate Monotone(rs: seq<Attempt>) {
    forall i, j | 0 <= i < j < |rs| :: rs[i].at <= rs[j].at
  }

  ghost predicate PassedAt(rs: seq<Attempt>, i: nat, ip: Address)
    requires i < |rs|
  {
    rs[i].ip == ip && Passes(rs[..i], rs[i])
  }

  /** The last pass is the newest one, and passing is what put it there. */
  lemma {:induction false} LastPassIsNewest(rs: seq<Attempt>, ip: Address)
    requires Monotone(rs)
    ensures LastPass(rs, ip).Some? ==> exists i | 0 <= i < |rs| ::
                PassedAt(rs, i, ip) && rs[i].at == LastPass(rs, ip).value
    ensures forall i | 0 <= i < |rs| && PassedAt(rs, i, ip) ::
              LastPass(rs, ip).Some? && rs[i].at <= LastPass(rs, ip).value
  {
    if rs != [] {
      var init, n := Init(rs), |rs| - 1;
      LastPassIsNewest(init, ip);
      forall i | 0 <= i < n ensures PassedAt(init, i, ip) <==> PassedAt(rs, i, ip) {
        assert init[..i] == rs[..i];
      }
      assert PassedAt(rs, n, ip) <==> Last(rs).ip == ip && Passes(init, Last(rs));
      if LastPass(init, ip).Some? {
        var i :| 0 <= i < |init| && PassedAt(init, i, ip) && init[i].at == LastPass(init, ip).value;
        assert PassedAt(rs, i, ip);
      }
    }
  }

  /** Requests of one address that pass are at least 5 s apart. */
  lemma PassesAreApart(rs: seq<Attempt>, i: nat, j: nat, ip: Address)
    requires Monotone(rs) && i < j < |rs| && PassedAt(rs, i, ip) && PassedAt(rs, j, ip)
    ensures rs[i].at + 5000 <= rs[j].at
  {
    LastPassIsNewest(rs[..j], ip);
    assert rs[..j][..i] == rs[..i];
    assert PassedAt(rs[..j], i, ip);
  }

  /** A request 5 s or more after every earlier pass of its address passes: refusals cost nothing. */
  lemma WaitingIsEnough(rs: seq<Attempt>, j: nat)
    requires Monotone(rs) && j < |rs|
    requires forall i | 0 <= i < j && PassedAt(rs, i, rs[j].ip) :: rs[i].at + 5000 <= rs[j].at
    ensures PassedAt(rs, j, rs[j].ip)
  {
    LastPassIsNewest(rs[..j], rs[j].ip);
    if LastPass(rs[..j], rs[j].ip).Some? {
      var i :| 0 <= i < j && PassedAt(rs[..j], i, rs[j].ip) && rs[..j][i].at == LastPass(rs[..j], rs[j].ip).value;
      assert rs[..j][..i] == rs[..i];
      assert PassedAt(rs, i, rs[j].ip);
    }
  }

  /** Passes of `ip` among the first `n` requests that fall into the window from `start` on. */
  ghost function Count(rs: seq<Attempt>, n: nat, ip: Address, start: nat): nat
    requires n <= |rs|
  {
    if n == 0 then 0
    else Count(rs, n - 1, ip, start) + if PassedAt(rs, n - 1, ip) && rs[n - 1].at >= start then 1 else 0
  }

  /** The last counted pass lies at least 5 s times the number of earlier counted ones after `start`. */
  lemma {:induction false} CountSpreads(rs: seq<Attempt>, n: nat, ip: Address, start: nat) returns (last: nat)
    requires Monotone(rs) && n <= |rs| && Count(rs, n, ip, start) > 0
    ensures last < n && PassedAt(rs, last, ip)
    ensures start + INTERVAL * (Count(rs, n, ip, start) - 1) <= rs[last].at
    decreases n
  {
    if PassedAt(rs, n - 1, ip) && rs[n - 1].at >= start {
      last := n - 1;
      if Count(rs, n - 1, ip, start) > 0 {
        var before := CountSpreads(rs, n - 1, ip, start);
        PassesAreApart(rs, before, n - 1, ip);
      }
    } else {
      last := CountSpreads(rs, n - 1, ip, start);
    }
  }

  /** Any window of `span` milliseconds sees at most span/5000 + 1 passes of one address. */
  lemma PassRateIsBounded(rs: seq<Attempt>, n: nat, ip: Address, start: nat, span: nat)
    requires Monotone(rs) && n <= |rs|
    requires forall i | 0 <= i < n :: rs[i].at <= start + span
    ensures Count(rs, n, ip, start) <= span / 5000 + 1
  {
    if Count(rs, n, ip, start) > 0 {
      var last := CountSpreads(rs, n, ip, start);
    }
  }
}
