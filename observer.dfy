/** The Observer of CubeClock/Ntp/Observer.cs: it caches the latest valid
    packet from one NTP server, counts failed exchanges, refreshes with a
    bounded number of retries and can be pointed at another server.

    The BackgroundWorker is reduced to its busy flag: starting it
    (RunWorkerAsync) sets the flag, and the job it runs is the method
    OnDoWork, which the environment calls when the worker gets to run.
    The lock, the sleeps between retries and the clock are left to the
    caller: the current time is a parameter, and the successive outcomes of
    the current client's Receive() are the oracle `replies`. */
module NtpObserver {
  import opened Ntp

  /** The initial `_ttl`, TimeSpan.FromHours(1), in milliseconds. */
  const DefaultTimeToLive: int := 60 * 60 * 1000

  /** The retry bound OnDoWork and Synchronize pass to Refresh. */
  const BackgroundRetries: int := 3

  /** IsValid: a packet is cached, it is valid, and it is no older than the
      time-to-live at `now`. */
  predicate Fresh(last: Option<Packet>, ttl: int, now: int)
  {
    last.Some? && last.value.isValid && now - last.value.creationTime <= ttl
  }

  /** The most Receive calls `Refresh(maxRetry, _)` makes: one, plus one
      per retry when the bound is positive. */
  function Attempts(maxRetry: int): (n: nat)
    ensures n >= 1 && n > maxRetry
  {
    if maxRetry > 0 then maxRetry + 1 else 1
  }

  /** The state a Refresh leaves behind and the number of Receive calls
      it made. */
  datatype RefreshOutcome = RefreshOutcome(last: Option<Packet>, failed: int, calls: nat)

  /** Refresh(max_retry, interval) on a client whose Receive calls number
      k, k + 1, ... give replies(k), replies(k + 1), ...: an exception is
      counted and, while retries remain, the call is repeated with one
      retry fewer; a reply that is not an exception ends the refresh
      without being counted, and replaces the cache only if it is a valid
      packet. */
  function RefreshFrom(last: Option<Packet>, failed: int, maxRetry: int, replies: nat -> Reply, k: nat): (r: RefreshOutcome)
    ensures k < r.calls <= k + Attempts(maxRetry)
    ensures forall j :: k <= j < r.calls - 1 ==> replies(j) == Threw
    ensures replies(r.calls - 1) == Threw ==>
              r.calls == k + Attempts(maxRetry) && r.failed == failed + Attempts(maxRetry) && r.last == last
    ensures replies(r.calls - 1) != Threw ==>
              r.failed == failed + (r.calls - 1 - k) && r.last == Accept(last, replies(r.calls - 1))
    decreases Attempts(maxRetry)
  {
    if replies(k) == Threw then
      if maxRetry > 0 then RefreshFrom(last, failed + 1, maxRetry - 1, replies, k + 1)
      else RefreshOutcome(last, failed + 1, k + 1)
    else
      RefreshOutcome(Accept(last, replies(k)), failed, k + 1)
  }

  /** Refresh as a whole: with no client it returns at once. */
  function RefreshEffect(client: Option<Client>, last: Option<Packet>, failed: int, maxRetry: int, replies: nat -> Reply): (r: RefreshOutcome)
    ensures client.None? ==> r == RefreshOutcome(last, failed, 0)
    ensures client.Some? ==> 1 <= r.calls <= Attempts(maxRetry)
  {
    if client.None? then RefreshOutcome(last, failed, 0) else RefreshFrom(last, failed, maxRetry, replies, 0)
  }

  /** Against a client whose Receive always throws, Refresh calls it
      max(max_retry, 0) + 1 times, counts every call as a failure and
      keeps the cached packet. */
  lemma AlwaysThrowing(client: Client, last: Option<Packet>, failed: int, maxRetry: int, replies: nat -> Reply)
    requires forall j :: replies(j) == Threw
    ensures var r := RefreshEffect(Some(client), last, failed, maxRetry, replies);
            r.calls == (if maxRetry > 0 then maxRetry else 0) + 1
            && r.failed == failed + r.calls && r.last == last
  {
    var r := RefreshFrom(last, failed, maxRetry, replies, 0);
    assert replies(r.calls - 1) == Threw;
  }

  /** A first reply that is not an exception settles the refresh after one
      call: no failure is counted, no retry is made, and the cache changes
      only to a valid packet. */
  lemma AnsweredAtOnce(client: Client, last: Option<Packet>, failed: int, maxRetry: int, replies: nat -> Reply)
    requires replies(0) != Threw
    ensures var r := RefreshEffect(Some(client), last, failed, maxRetry, replies);
            r.calls == 1 && r.failed == failed && r.last == Accept(last, replies(0))
  {
  }

  /** Refresh keeps a valid packet in the cache, if one was there: it only
      ever stores valid packets. */
  lemma RefreshKeepsCacheValid(client: Option<Client>, last: Option<Packet>, failed: int, maxRetry: int, replies: nat -> Reply)
    requires last.Some? ==> last.value.isValid
    ensures var r := RefreshEffect(client, last, failed, maxRetry, replies);
            (r.last.Some? ==> r.last.value.isValid) && r.failed >= failed
  {
  }

  /** What a Refresh does to IsValid. When its last Receive call returned a
      valid packet p, the cache holds p and is valid exactly up to and
      including p's creation time plus the time-to-live, so LocalClockOffset
      reads in that window start no worker. Any other ending (retries used
      up, null, an invalid packet, no client) leaves IsValid as it was, at
      every time. */
  lemma RefreshValidity(client: Option<Client>, last: Option<Packet>, failed: int, maxRetry: int,
                        replies: nat -> Reply, ttl: int, now: int)
    ensures var r := RefreshEffect(client, last, failed, maxRetry, replies);
            var final := if r.calls == 0 then Threw else replies(r.calls - 1);
            if final.Returned? && final.packet.isValid then
              r.last == Some(final.packet)
              && (Fresh(r.last, ttl, now) <==> now <= Expiry(final.packet, ttl))
            else
              r.last == last && (Fresh(r.last, ttl, now) <==> Fresh(last, ttl, now))
  {
  }

  class Observer {
    var client: Option<Client>
    var last: Option<Packet>
    var ttl: int
    var failed: int
    var workerBusy: bool

    /** Observer(Ntp.Client): nothing cached, no failures, a one-hour
        time-to-live, and the background worker started. */
    constructor (client: Option<Client>)
      ensures this.client == client && last == None && failed == 0
      ensures ttl == DefaultTimeToLive && workerBusy
    {
      this.client := client;
      last := None;
      ttl := DefaultTimeToLive;
      failed := 0;
      workerBusy := true;
    }

    /** Observer(host_or_ipaddr, port = 123), through Observer(new
        Ntp.Client(host, port)); `defaultTimeout` is the receive timeout a
        new Ntp.Client starts with, which Ntp.Client decides. */
    constructor FromHost(host: string, port: int, defaultTimeout: int)
      ensures client == Some(Client(host, port, defaultTimeout)) && last == None && failed == 0
      ensures ttl == DefaultTimeToLive && workerBusy
    {
      client := Some(Client(host, port, defaultTimeout));
      last := None;
      ttl := DefaultTimeToLive;
      failed := 0;
      workerBusy := true;
    }

    /** The IsValid property at time `now`: a valid packet is cached and
        `now` is not past its expiry instant. */
    predicate IsValid(now: int)
      reads this
      ensures IsValid(now) <==> last.Some? && last.value.isValid && now <= Expiry(last.value, ttl)
    {
      Fresh(last, ttl, now)
    }

    /** The TimeToLive setter. */
    method SetTimeToLive(ttl: int)
      modifies this`ttl
      ensures this.ttl == ttl
    {
      this.ttl := ttl;
    }

    /** The LocalClockOffset getter at time `now`: the cached offset, or
        zero; when the cache is not valid and the worker is idle, the
        worker is started. The cache itself is left alone. */
    method LocalClockOffset(now: int) returns (offset: int)
      modifies this`workerBusy
      ensures offset == OffsetOf(last)
      ensures workerBusy == (old(workerBusy) || !IsValid(now))
    {
      if !IsValid(now) && !workerBusy {
        workerBusy := true;
      }
      offset := OffsetOf(last);
    }

    /** Refresh(max_retry, interval): at most max(max_retry, 0) + 1 calls
        of Receive; an exception from Receive never leaves the method. The
        sleep of `interval` between attempts is not modelled (nor the
        exception Thread.Sleep throws for a negative interval). The cache
        and the failure count are carried in locals and stored when the
        refresh ends; with no other thread modelled, no one can observe the
        difference from storing them at each step. */
    method Refresh(maxRetry: int, replies: nat -> Reply) returns (calls: nat)
      modifies this`last, this`failed
      ensures RefreshOutcome(last, failed, calls) == RefreshEffect(client, old(last), old(failed), maxRetry, replies)
    {
      calls := 0;
      if client.None? {
        return;
      }
      var cached, count, retry := last, failed, maxRetry;
      ghost var goal := RefreshFrom(cached, count, retry, replies, 0);
      var done := false;
      while !done
        invariant !done ==> RefreshFrom(cached, count, retry, replies, calls) == goal
        invariant done ==> RefreshOutcome(cached, count, calls) == goal
        decreases !done, Attempts(retry)
      {
        var reply := replies(calls);
        calls := calls + 1;
        if reply == Threw {
          count := count + 1;
          if retry <= 0 {
            done := true;
          } else {
            retry := retry - 1;
          }
        } else {
          cached := Accept(cached, reply);
          done := true;
        }
      }
      last, failed := cached, count;
    }

    /** Refresh(): one attempt, no retry. */
    method RefreshOnce(replies: nat -> Reply) returns (calls: nat)
      modifies this`last, this`failed
      ensures calls <= 1
      ensures RefreshOutcome(last, failed, calls) == RefreshEffect(client, old(last), old(failed), 0, replies)
    {
      calls := Refresh(0, replies);
    }

    /** Reset(): stops the worker and drops the cached packet and the
        failure count; the client and the time-to-live stay. */
    method Reset()
      modifies this`last, this`failed, this`workerBusy
      ensures last == None && failed == 0 && !workerBusy
      ensures forall now :: !IsValid(now)
    {
      workerBusy := false;
      last := None;
      failed := 0;
    }

    /** Reset(Ntp.Client): installs the given client, then Reset(). */
    method ResetClient(client: Option<Client>)
      modifies this`client, this`last, this`failed, this`workerBusy
      ensures this.client == client && last == None && failed == 0 && !workerBusy
    {
      this.client := client;
      Reset();
    }

    /** Reset(host_or_ipaddr, port = 123): a client for the new server that
        keeps the current client's receive timeout, installed by
        Reset(Ntp.Client). With no current client, reading its timeout
        throws and nothing changes. */
    method ResetHost(host: string, port: int) returns (threw: bool)
      modifies this`client, this`last, this`failed, this`workerBusy
      ensures threw <==> old(client).None?
      ensures threw ==> client == old(client) && last == old(last) && failed == old(failed) && workerBusy == old(workerBusy)
      ensures !threw ==> client == Some(Client(host, port, old(client).value.receiveTimeout))
      ensures !threw ==> last == None && failed == 0 && !workerBusy
    {
      if client.None? {
        return true;
      }
      var replacement := Client(host, port, client.value.receiveTimeout);
      ResetClient(Some(replacement));
      threw := false;
    }

    /** Synchronize at time `now`: unless the cache is valid, Refresh with
        three retries; then hand the LocalClockOffset reading to
        SystemClock.Adjust (returned here as `adjustment`), which may start
        the worker; and drop the cached packet in every case. */
    method Synchronize(now: int, replies: nat -> Reply) returns (adjustment: int, calls: nat)
      modifies this`last, this`failed, this`workerBusy
      ensures var before := RefreshOutcome(old(last), old(failed), 0);
              var r := if old(IsValid(now)) then before else RefreshEffect(client, old(last), old(failed), BackgroundRetries, replies);
              calls == r.calls && failed == r.failed && adjustment == OffsetOf(r.last)
              && workerBusy == (old(workerBusy) || !Fresh(r.last, ttl, now))
      ensures last == None
    {
      calls := 0;
      if !IsValid(now) {
        calls := Refresh(BackgroundRetries, replies);
      }
      adjustment := LocalClockOffset(now);
      last := None;
    }

    /** OnDoWork, run by the worker: Refresh with three retries, after
        which the worker is idle again. */
    method OnDoWork(replies: nat -> Reply) returns (calls: nat)
      modifies this`last, this`failed, this`workerBusy
      ensures RefreshOutcome(last, failed, calls) == RefreshEffect(client, old(last), old(failed), BackgroundRetries, replies)
      ensures !workerBusy
    {
      calls := Refresh(BackgroundRetries, replies);
      workerBusy := false;
    }
  }
}
