/**
 * The middleware around the router: the per-IP rate-limit registry and the
 * panic recovery, composed as recoverPanic(rateLimit(router)).
 *
 * Each mutex-protected section of the registry is one method; the clock is
 * the `now` parameter (nanoseconds), the token bucket's Allow() answer is the
 * `allow` parameter and net.SplitHostPort's result is the `host` parameter.
 */
module Middleware {

  import opened Wrappers
  import opened Http

  const Minute := 60 * 1_000_000_000
  /** Entries idle for longer than this are swept. */
  const StaleAfter := 3 * Minute
  /** Every new client's limiter: 2 tokens per second, bursts of 5. */
  const LimiterRate := 2
  const LimiterBurst := 5

  /** A token bucket of the rate package. Only its identity and settings are modelled. */
  class Limiter {
    const rate: int
    const burst: int

    constructor (rate: int, burst: int)
      ensures this.rate == rate && this.burst == burst
    {
      this.rate := rate;
      this.burst := burst;
    }
  }

  /** One entry of the clients map. */
  datatype Client = Client(limiter: Limiter, lastSeen: int)

  /** What the rate limiter does with a request. */
  datatype Admission =
    | Admitted        // passed on to the next handler
    | RateLimited     // 429: the limiter refused
    | AddressError    // 500: RemoteAddr has no host part

  /** Idle for more than three minutes. */
  predicate Stale(c: Client, now: int)
    ensures Stale(c, now) <==> c.lastSeen + 3 * Minute < now
  {
    now - c.lastSeen > StaleAfter
  }

  /** Once an entry is stale it stays stale: idleness only grows while the entry is not seen. */
  lemma StaleStaysStale(c: Client, now: int, later: int)
    requires Stale(c, now) && now <= later
    ensures Stale(c, later)
  {
  }

  /** The clients map after a sweep at `now`. */
  function Swept(clients: map<string, Client>, now: int): (m: map<string, Client>)
    ensures m.Keys <= clients.Keys
    ensures forall ip :: ip in clients && !Stale(clients[ip], now) ==> ip in m && m[ip] == clients[ip]
    ensures forall ip :: ip in clients && Stale(clients[ip], now) ==> ip !in m
  {
    map ip | ip in clients && !Stale(clients[ip], now) :: clients[ip]
  }

  /** A second sweep at the same time removes nothing more. */
  lemma SweepIdempotent(clients: map<string, Client>, now: int)
    ensures Swept(Swept(clients, now), now) == Swept(clients, now)
  {
  }

  /** Staleness only grows with time: a later sweep subsumes an earlier one. */
  lemma LaterSweepSubsumes(clients: map<string, Client>, t1: int, t2: int)
    requires t1 <= t2
    ensures Swept(Swept(clients, t1), t2) == Swept(clients, t2)
  {
    var a := Swept(Swept(clients, t1), t2);
    var b := Swept(clients, t2);
    forall ip | ip in clients
      ensures ip in a <==> ip in b
    {
      if Stale(clients[ip], t1) {
        assert Stale(clients[ip], t2);
      }
    }
    assert a.Keys == b.Keys;
  }

  /** The boundary: idle for exactly three minutes survives, one nanosecond more does not. */
  lemma SweepBoundary(clients: map<string, Client>, ip: string, now: int)
    requires ip in clients
    ensures now - clients[ip].lastSeen == StaleAfter ==> ip in Swept(clients, now)
    ensures now - clients[ip].lastSeen == StaleAfter + 1 ==> ip !in Swept(clients, now)
  {
  }

  /** The registry shared by every request: the clients map, keyed by IP. */
  class ClientRegistry {
    var clients: map<string, Client>

    constructor ()
      ensures clients == map[]
    {
      clients := map[];
    }

    /**
     * One request through rateLimit. When enabled, the requesting IP gets an
     * entry (a fresh limiter if it had none), its lastSeen becomes `now`
     * whatever the limiter decides, and no other entry changes.
     */
    method Admit(enabled: bool, host: Option<string>, now: int, allow: bool) returns (a: Admission)
      modifies this
      ensures !enabled ==> a == Admitted && clients == old(clients)
      ensures enabled && host.None? ==> a == AddressError && clients == old(clients)
      ensures enabled && host.Some? ==>
        var ip := host.value;
        && ip in clients
        && clients == old(clients)[ip := clients[ip]]
        && clients[ip].lastSeen == now
        && (ip in old(clients) ==> clients[ip].limiter == old(clients)[ip].limiter)
        && (ip !in old(clients) ==>
              fresh(clients[ip].limiter)
              && clients[ip].limiter.rate == LimiterRate && clients[ip].limiter.burst == LimiterBurst)
        && a == if allow then Admitted else RateLimited
    {
      if !enabled {
        return Admitted;
      }
      if host.None? {
        return AddressError;
      }
      var ip := host.value;
      if ip !in clients {
        var limiter := new Limiter(LimiterRate, LimiterBurst);
        clients := clients[ip := Client(limiter, 0)];
      }
      clients := clients[ip := clients[ip].(lastSeen := now)];
      if !allow {
        return RateLimited;
      }
      return Admitted;
    }

    /** The cleanup pass: deletes every entry idle for more than three minutes. */
    method Sweep(now: int)
      modifies this
      ensures clients == Swept(old(clients), now)
      ensures forall ip :: ip in clients <==> ip in old(clients) && now - old(clients)[ip].lastSeen <= StaleAfter
      ensures forall ip :: ip in clients ==> clients[ip] == old(clients)[ip]
    {
      var pending := clients.Keys;
      while pending != {}
        invariant pending <= old(clients).Keys
        invariant forall ip :: ip in clients <==> ip in old(clients) && (ip in pending || !Stale(old(clients)[ip], now))
        invariant forall ip :: ip in clients ==> clients[ip] == old(clients)[ip]
        decreases pending
      {
        var ip :| ip in pending;
        if Stale(clients[ip], now) {
          clients := clients - {ip};
        }
        pending := pending - {ip};
      }
      assert clients.Keys == Swept(old(clients), now).Keys;
    }
  }

  /** A request that was just admitted survives any sweep within three minutes. */
  lemma AdmittedSurvivesSweep(clients: map<string, Client>, ip: string, seen: int, now: int)
    requires ip in clients && clients[ip].lastSeen == seen
    requires now <= seen + StaleAfter
    ensures ip in Swept(clients, now) && Swept(clients, now)[ip] == clients[ip]
  {
  }

  /** What the wrapped handler did: returned a response or panicked. */
  datatype Outcome<T> = Returned(response: Response<T>) | Panicked(message: string)

  /** The status line and the Connection: close header of what the client receives. */
  datatype Reply = Reply(status: int, closeConnection: bool)

  const TooManyRequests := 429

  /** recoverPanic: a panic becomes a 500 that closes the connection. */
  function RecoverPanic<T>(o: Outcome<T>): (r: Reply)
    ensures r.closeConnection <==> o.Panicked?
    ensures o.Panicked? ==> r.status == StatusCode<T>(ServerError)
    ensures o.Returned? ==> r.status == StatusCode(o.response)
  {
    match o
    case Returned(resp) => Reply(StatusCode(resp), false)
    case Panicked(_) => Reply(StatusCode<T>(ServerError), true)
  }

  /**
   * recoverPanic(rateLimit(router)): `handled` is what the routed handler
   * does if the request reaches it.
   */
  method Serve<T>(registry: ClientRegistry, enabled: bool, host: Option<string>, now: int, allow: bool, handled: Outcome<T>)
    returns (r: Reply)
    modifies registry
    ensures !enabled ==> r == RecoverPanic(handled) && registry.clients == old(registry.clients)
    ensures enabled && host.None? ==> r == Reply(500, false) && registry.clients == old(registry.clients)
    ensures enabled && host.Some? ==>
      && host.value in registry.clients
      && registry.clients == old(registry.clients)[host.value := registry.clients[host.value]]
      && registry.clients[host.value].lastSeen == now
      && r == if allow then RecoverPanic(handled) else Reply(TooManyRequests, false)
  {
    var a := registry.Admit(enabled, host, now, allow);
    match a
    case Admitted => r := RecoverPanic(handled);
    case RateLimited => r := Reply(TooManyRequests, false);
    case AddressError => r := Reply(StatusCode<T>(ServerError), false);
  }
}
