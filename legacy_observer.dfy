/** The older Observer of CubeClock.Ntp/Observer.cs: a time-to-live in
    milliseconds, a single Receive call per refresh (its exception
    propagates), no failure counter, and a Reset that switches servers only
    while the worker is busy and rolls the client and the cache back when
    anything in it throws.

    As in NtpObserver, the worker is its busy flag, the time is a
    parameter and the Receive outcome is the oracle `reply`. */
module LegacyObserver {
  import opened Ntp
  import NtpObserver

  /** The initial `_ttl`, 30 minutes in milliseconds. */
  const DefaultTimeToLive: int := 30 * 60 * 1000

  /** The server the parameterless constructor targets. */
  const DefaultHost: string := "time.windows.com"

  /** The default port of the host constructor. */
  const DefaultPort: int := 123

  /** The refresh test of LocalClockOffset: nothing cached, or the cached
      packet is strictly older than the time-to-live. */
  predicate NeedsRefresh(latest: Option<Packet>, ttl: int, now: int)
  {
    latest.None? || now - latest.value.creationTime > ttl
  }

  /** For a cache that holds only valid packets, as Refresh guarantees,
      the legacy refresh test is exactly the negation of the newer
      Observer's IsValid: both keep a packet until its expiry instant. */
  lemma NeedsRefreshIsStaleness(latest: Option<Packet>, ttl: int, now: int)
    requires latest.Some? ==> latest.value.isValid
    ensures NeedsRefresh(latest, ttl, now) <==> !NtpObserver.Fresh(latest, ttl, now)
    ensures NeedsRefresh(latest, ttl, now) <==> latest.None? || now > Expiry(latest.value, ttl)
  {
  }

  class Observer {
    var client: Option<Client>
    var latest: Option<Packet>
    var ttl: int
    var workerBusy: bool

    /** Observer(host_or_ipaddr, port = 123): a client for that server
        (`defaultTimeout` is the receive timeout a new Ntp.Client starts
        with), nothing cached, a 30-minute time-to-live; the worker is
        created but not started. */
    constructor (host: string, port: int, defaultTimeout: int)
      ensures client == Some(Client(host, port, defaultTimeout)) && latest == None
      ensures ttl == DefaultTimeToLive && !workerBusy
    {
      client := Some(Client(host, port, defaultTimeout));
      latest := None;
      ttl := DefaultTimeToLive;
      workerBusy := false;
    }

    /** Observer(): the host constructor with "time.windows.com" on port 123. */
    constructor Default(defaultTimeout: int)
      ensures client == Some(Client(DefaultHost, DefaultPort, defaultTimeout)) && latest == None
      ensures ttl == DefaultTimeToLive && !workerBusy
    {
      client := Some(Client(DefaultHost, DefaultPort, defaultTimeout));
      latest := None;
      ttl := DefaultTimeToLive;
      workerBusy := false;
    }

    /** The TimeToLive setter. */
    method SetTimeToLive(ttl: int)
      modifies this`ttl
      ensures this.ttl == ttl
    {
      this.ttl := ttl;
    }

    /** The LocalClockOffset getter at time `now`: the cached offset, or
        zero; the worker is started when a refresh is needed and it is
        idle. The cache is left alone. */
    method LocalClockOffset(now: int) returns (offset: int)
      modifies this`workerBusy
      ensures offset == OffsetOf(latest)
      ensures workerBusy == (old(workerBusy) || NeedsRefresh(latest, ttl, now))
    {
      var refresh := NeedsRefresh(latest, ttl, now);
      if refresh && !workerBusy {
        workerBusy := true;
      }
      offset := OffsetOf(latest);
    }

    /** Refresh(): nothing without a client; otherwise one Receive call,
        whose exception propagates (`threw`) and leaves the cache as it
        was, and whose valid packet replaces the cache. */
    method Refresh(reply: Reply) returns (threw: bool)
      modifies this`latest
      ensures threw <==> client.Some? && reply == Threw
      ensures latest == if client.Some? && !threw then Accept(old(latest), reply) else old(latest)
    {
      if client.None? {
        return false;
      }
      if reply == Threw {
        return true;
      }
      latest := Accept(latest, reply);
      threw := false;
    }

    /** Reset(host_or_ipaddr, port = 123). With an idle worker it does
        nothing. With a busy worker it asks the worker to cancel and waits;
        the job never looks at the request, so the wait ends only once the
        job's own Refresh on the old client, whose Receive outcome is
        `jobReply`, has run (its exception stays inside the worker). Then it
        installs a client for the new server carrying the old client's
        receive timeout and refreshes once more, with outcome `reply`. If
        anything throws -- there is no old client to take the timeout from,
        or the second Receive throws -- the client and the cache are put
        back as they were on entry, which also undoes the job's packet; the
        worker stays idle. */
    method Reset(host: string, port: int, jobReply: Reply, reply: Reply)
      modifies this`client, this`latest, this`workerBusy
      ensures !old(workerBusy) ==> client == old(client) && latest == old(latest) && !workerBusy
      ensures old(workerBusy) && (old(client).None? || reply == Threw) ==>
                client == old(client) && latest == old(latest) && !workerBusy
      ensures old(workerBusy) && old(client).Some? && reply != Threw ==>
                client == Some(Client(host, port, old(client).value.receiveTimeout))
                && latest == Accept(Accept(old(latest), jobReply), reply) && !workerBusy
    {
      var preserve := client;
      var saved := latest;
      var threw := false;
      if workerBusy {
        OnDoWork(jobReply);
        if preserve.None? {
          threw := true;
        } else {
          client := Some(Client(host, port, preserve.value.receiveTimeout));
          threw := Refresh(reply);
        }
      }
      if threw {
        client := preserve;
        latest := saved;
      }
    }

    /** OnDoWork, run by the worker: one Refresh, after which the worker is
        idle; an exception from Receive ends the job and is not rethrown. */
    method OnDoWork(reply: Reply)
      modifies this`latest, this`workerBusy
      ensures latest == if client.Some? then Accept(old(latest), reply) else old(latest)
      ensures !workerBusy
    {
      var _ := Refresh(reply);
      workerBusy := false;
    }
  }
}
