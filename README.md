# CubeClock NTP client core, in Dafny

A model of the NTP part of CubeClock, a desktop clock that keeps the local
clock's offset from an NTP server:

- `timestamp.dfy` (module `Timestamp`): the 64-bit NTP timestamp of
  section 3 of RFC 2030 (32 bits of seconds, 32 bits of binary fraction) and
  its conversion to and from an instant (`Timestamp.ToDateTime`,
  `Timestamp.ToTimestamp`), with the era rule of section 3 of RFC 4330: a
  seconds field whose top bit is 0 counts from 2036-02-07T06:28:16Z, one whose
  top bit is 1 from 1900-01-01T00:00:00Z. Instants are whole milliseconds since
  1900-01-01T00:00:00Z, so the C# `double` arithmetic becomes exact integer
  arithmetic with `/`, `%` and 2^32 written out.
- `ntp.dfy` (module `Ntp`): what the Observers see of the client layer. A
  packet is its validity, creation time and offset. A client is its host, port
  and receive timeout. One call of `Client.Receive()` is one `Reply`: a packet,
  null, or an exception.
- `observer.dfy` (module `NtpObserver`): the Observer of
  `CubeClock/Ntp/Observer.cs`, a class with the fields `client`, `last`, `ttl`,
  `failed` and `workerBusy`. It caches the latest valid packet under a
  time-to-live, counts failed exchanges, and retries a bounded number of times.
  Its Refresh, which retries by recursion in C#, is a loop proved against the
  recursive function `RefreshFrom`.
- `legacy_observer.dfy` (module `LegacyObserver`): the older Observer of
  `CubeClock.Ntp/Observer.cs`. It has a TTL in milliseconds, one Receive per
  refresh, no failure counter, and a Reset that acts only while the worker is
  busy and rolls back on an exception.

The background worker is its busy flag. Starting it (`RunWorkerAsync`) sets
the flag. The job it runs is the method `OnDoWork`, which the environment calls
when the worker gets to run; when the job ends, the flag is cleared. A cancel
request never stops a job, because the job does not look at it; the wait after
the request ends only when the job has run. In the newer Observer, Reset clears
the cache and the failure count after that wait, so the job's effect is
overwritten, and the model only clears. The legacy Reset runs the job's Refresh
on the old client (with outcome `jobReply`) before it installs the new client.
The current time
is a parameter (`now`). The outcomes of successive Receive calls are an oracle:
`replies: nat -> Reply` for the newer Observer (call number k gets `replies(k)`),
one `reply` for the legacy Observer. Durations and offsets are whole
milliseconds.

Where the model makes a choice the text of the source leaves open:

- ToDateTime's millisecond count goes through `TimeSpan.FromMilliseconds`,
  which on the .NET Framework rounds to the nearest whole millisecond, halves
  up. The model rounds the same way (`FractionToMilliseconds`). That rounding
  is what makes the round trip exact: truncating there would turn 999 ms into
  998 ms.
- ToTimestamp's `(UInt32)` casts truncate toward zero. For the instants
  modelled the operand is never negative, so the model uses `/` and `%`.
- `DoWorkEventArgs.Cancel` is false when a job starts, so `OnDoWork`'s early
  return never fires; both `OnDoWork` methods always refresh.

## Model

| member | source | states |
|---|---|---|
| Timestamp.EraOrigins | CubeClock/Ntp/Timestamp.cs:101-102 | the base origin is 1900-01-01T00:00:00Z and the reverse origin 2036-02-07T06:28:16Z, 2^32 seconds later |
| Timestamp.SplitHalves | CubeClock/Ntp/Timestamp.cs:69-70 | whatever the sign of the Int64, the seconds field (arithmetic shift, then UInt32 cast) is the high half and the fraction field the low half of its unsigned 64 bits |
| Timestamp.Pack | CubeClock/Ntp/Timestamp.cs:95 | packing seconds and a fraction below 2^32 into an Int64 makes fields that read back unchanged: the fraction never overlaps the seconds bits |
| Timestamp.Origin | CubeClock/Ntp/Timestamp.cs:73 | the origin is 2036-02-07T06:28:16Z exactly when the top bit of the seconds is 0, and 1900-01-01T00:00:00Z otherwise |
| Timestamp.FractionToMilliseconds | CubeClock/Ntp/Timestamp.cs:72-75 | the fraction in milliseconds is `fraction * 1000 / 2^32` rounded to the nearest whole millisecond, at most 1000 |
| Timestamp.Decode | CubeClock/Ntp/Timestamp.cs:67-76 | the decoded instant lies in the era window its top bit selects (2036 to 2104, or 1968 to 2036), and it is origin + seconds + fraction / 2^32 to the nearest millisecond |
| Timestamp.MillisecondsToFraction | CubeClock/Ntp/Timestamp.cs:93 | the millisecond within the second becomes `ms * 2^32 / 1000` truncated, always below 2^32 |
| Timestamp.Encode | CubeClock/Ntp/Timestamp.cs:87-96 | instants from 2036-02-07T06:28:16Z on are counted from that origin, earlier ones from 1900; the seconds field is the whole seconds since the origin, truncated; the fraction field is the truncated binary fraction of the millisecond within the second |
| Timestamp.FractionRoundTrip | CubeClock/Ntp/Timestamp.cs:72-93 | rounding the truncated fraction of a millisecond count back gives the count |
| Timestamp.RoundTrip | CubeClock/Ntp/Timestamp.cs:67-96 | ToDateTime(ToTimestamp(t)) is t exactly when t is from 1968-01-20T03:14:08Z up to 2104-02-26T09:42:24Z, i.e. when the encoded seconds' top bit agrees with the era chosen; otherwise it is one era (2^32 s) off, late before that window and early after it |
| Timestamp.DecodeTestVectors | CubeClockTest/Ntp/TimestampTester.cs:55-75 | -0x100000000 has seconds 0xFFFFFFFF and decodes to 2036-02-07T06:28:15Z; 0 decodes to 2036-02-07T06:28:16Z |
| Timestamp.EncodeTestVectors | CubeClockTest/Ntp/TimestampTester.cs:87-97 | 2036-02-07T06:28:15Z encodes to -0x100000000 and 06:28:16Z to 0 |
| Timestamp.TestedRoundTrips | CubeClockTest/Ntp/TimestampTester.cs:133-151 | the tested instants in 1970, 1999, 2000, 2036 on both sides of the boundary and 2104 round-trip to the millisecond |
| Ntp.Accept | CubeClock/Ntp/Observer.cs:240-241 | the cache changes only to a non-null packet whose IsValid holds, and always to such a packet |
| NtpObserver.Observer.IsValid | CubeClock/Ntp/Observer.cs:164-171 | IsValid holds exactly when a packet is cached, it is valid, and now is at most its creation time plus the TTL |
| NtpObserver.RefreshValidity | CubeClock/Ntp/Observer.cs:238-242 | after a Refresh whose last Receive returned a valid packet p, the cache is p and IsValid holds exactly up to p's creation time plus the TTL, so LocalClockOffset starts no worker in that window; any other ending leaves IsValid as it was at every time |
| NtpObserver.RefreshFrom | CubeClock/Ntp/Observer.cs:233-254 | Refresh makes between 1 and max(max_retry, 0) + 1 Receive calls; every call but the last threw; if the last threw, all retries were used, each call was counted as a failure and the cache is unchanged; otherwise the failures counted are the calls before it and the cache is updated by that reply |
| NtpObserver.RefreshEffect | CubeClock/Ntp/Observer.cs:233-235 | with a null client Refresh changes nothing and calls nothing; otherwise it calls Receive between 1 and max(max_retry, 0) + 1 times |
| NtpObserver.AlwaysThrowing | CubeClock/Ntp/Observer.cs:244-253 | against a Receive that always throws, Refresh calls it max(max_retry, 0) + 1 times, FailedCount rises by as much, and LastResult is unchanged |
| NtpObserver.AnsweredAtOnce | CubeClock/Ntp/Observer.cs:238-242 | a first reply that does not throw (null, invalid or valid) ends Refresh after one call, with no failure counted and the cache changed only to a valid packet |
| NtpObserver.RefreshKeepsCacheValid | CubeClock/Ntp/Observer.cs:240-247 | Refresh never puts an invalid packet in the cache and never lowers FailedCount |
| NtpObserver.Observer.constructor | CubeClock/Ntp/Observer.cs:58-65 | a new Observer has the given client, no LastResult, FailedCount 0, a one-hour TTL, and its worker started |
| NtpObserver.Observer.FromHost | CubeClock/Ntp/Observer.cs:77-78 | the host constructor makes the Observer of a new client for that host and port |
| NtpObserver.Observer.SetTimeToLive | CubeClock/Ntp/Observer.cs:120-124 | the TimeToLive setter replaces the TTL and nothing else |
| NtpObserver.Observer.LocalClockOffset | CubeClock/Ntp/Observer.cs:203-211 | returns the cached packet's offset, or zero with nothing cached; starts the worker exactly when IsValid is false and it was idle; never changes LastResult |
| NtpObserver.Observer.Refresh | CubeClock/Ntp/Observer.cs:233-254 | the loop leaves the cache, the failure count and the number of Receive calls that RefreshEffect gives; no exception from Receive escapes |
| NtpObserver.Observer.RefreshOnce | CubeClock/Ntp/Observer.cs:266 | Refresh() is Refresh with no retry: at most one Receive call |
| NtpObserver.Observer.Reset | CubeClock/Ntp/Observer.cs:308-316 | stops the worker, clears LastResult and FailedCount, so IsValid is false at every time; client and TTL unchanged |
| NtpObserver.Observer.ResetClient | CubeClock/Ntp/Observer.cs:293-297 | installs the given client, then clears as Reset() does |
| NtpObserver.Observer.ResetHost | CubeClock/Ntp/Observer.cs:277-282 | installs a client for the new host and port that inherits the old client's receive timeout, then clears; with no old client it throws and changes nothing |
| NtpObserver.Observer.Synchronize | CubeClock/Ntp/Observer.cs:327-335 | refreshes with 3 retries only when IsValid is false, hands the resulting offset to SystemClock.Adjust, may start the worker, and always ends with LastResult null |
| NtpObserver.Observer.OnDoWork | CubeClock/Ntp/Observer.cs:350-354 | the background job is Refresh with 3 retries, after which the worker is idle |
| LegacyObserver.NeedsRefreshIsStaleness | CubeClock.Ntp/Observer.cs:135 | a refresh is needed exactly when nothing is cached or the packet's age in ms is strictly greater than the TTL; for a cache of valid packets that is the negation of the newer Observer's IsValid |
| LegacyObserver.Observer.constructor | CubeClock.Ntp/Observer.cs:58-64 | a new legacy Observer has a client for the host and port, nothing cached, a TTL of 30 * 60 * 1000 ms, and its worker not started |
| LegacyObserver.Observer.Default | CubeClock.Ntp/Observer.cs:75 | the parameterless constructor targets "time.windows.com" on port 123 |
| LegacyObserver.Observer.SetTimeToLive | CubeClock.Ntp/Observer.cs:107-111 | the TimeToLive setter replaces the TTL and nothing else |
| LegacyObserver.Observer.LocalClockOffset | CubeClock.Ntp/Observer.cs:129-140 | returns the cached offset, or zero; starts the worker exactly when a refresh is needed and it was idle; never changes the cache |
| LegacyObserver.Observer.Refresh | CubeClock.Ntp/Observer.cs:161-169 | a no-op with a null client; otherwise one Receive call, whose exception propagates with the cache unchanged, and whose non-null valid packet alone replaces the cache |
| LegacyObserver.Observer.Reset | CubeClock.Ntp/Observer.cs:180-201 | with an idle worker changes nothing; with a busy one waits for the pending job's Refresh on the old client, then installs a client for the new server with the old receive timeout and refreshes, so the cache is the job's reply then the new reply applied in turn; if anything throws, client and cache are restored to their values on entry, dropping the job's packet too |
| LegacyObserver.Observer.OnDoWork | CubeClock.Ntp/Observer.cs:216-220 | the legacy background job is one Refresh whose exception is not rethrown, after which the worker is idle |

## Left out

- Threads and locks: `BackgroundWorker`, `RunWorkerAsync`, `lock(_lock)`, and the interleavings they allow are not modelled. Every operation runs to completion on its own, so the window in which a reader sees stale data while the worker runs is not modelled either.
- Cancelling the worker: the 20 ms polling wait of `CancelBackgroundWorker` and of the legacy Reset is modelled as ending once the pending job has run. The model does not include a wait that never ends because the job's completion cannot be delivered to the waiting thread.
- NtpObserver.Observer.Reset: the pending job's Refresh(3), which the source lets finish before the wait ends, is not modelled. Its calls to Receive are not counted anywhere; its effect on the cache and the failure count is overwritten by the clear.
- LegacyObserver.Observer.Reset: the pending job is taken to run its Refresh after Reset has saved the client and the cache. If the job had already stored a packet before Reset began, the source's saved cache includes it; the model then describes a Reset that starts after the job.
- Sleeps: the `Thread.Sleep(interval)` between retries is dropped, so Refresh's `interval` parameter does not appear. The source sleeps inside the catch block, after counting the failure. So with a negative interval other than -1 ms, Sleep's `ArgumentOutOfRangeException` would leave Refresh after one failure, and -1 ms would block forever. The model does not capture either. The source's own callers pass 0 or 5 seconds.
- The clock: `DateTime.Now` is the parameter `now`, and it does not advance during a call. Synchronize reads the clock twice in the source, once for IsValid and once inside LocalClockOffset; the model uses one `now` for both.
- `SystemClock.Adjust`: not part of this model. Synchronize returns the offset it would be given, and the model does not include Adjust failing.
- `Ntp.Client` and `Ntp.Packet`: not part of this model. The model omits the UDP exchange, the wire layout, the validity rule, the offset formula and the default receive timeout; the host constructors take that default as a parameter. The parameterless newer constructor, `Observer() : this(new Ntp.Client())`, is the client constructor applied to that unmodelled default client.
- The `Timeout` properties of both Observers, which forward to the client's `ReceiveTimeout`, are not modelled. The `Client`, `LastResult` and `FailedCount` getters are the fields `client`, `last` and `failed`.
- `Trace.WriteLine` logging.
- Timestamp.Encode: instants before 1900-01-01T00:00:00Z, and from 2172-03-15T12:56:32Z (2^33 seconds) on, are excluded by its precondition. There the C# conversion of a negative or too large `double` to `UInt32` gives an unspecified result.
- Timestamp.Decode: the rounding of `double` arithmetic is not modelled; the model computes the exact value and rounds it once to the nearest millisecond. Sub-millisecond ticks of `DateTime` and `TimeSpan` are not modelled, because instants are whole milliseconds.
- DateTime kinds: `ToTimestamp` subtracts a UTC origin from whatever `DateTime` it is given; the model takes instants to be UTC.
- Integer widths of the Observers: `FailedCount` is an `int` in C# and TTLs and offsets are `TimeSpan` or `int`; the model uses unbounded integers and does not model wrap-around of the failure counter.
