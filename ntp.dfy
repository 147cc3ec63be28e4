/** What both Observer classes see of the NTP client layer. The Packet and
    Client classes themselves (the wire format, the validity rule, the
    offset formula, the UDP exchange) are not part of this model: a packet
    is reduced to the three things an Observer reads from it, a client to
    its configuration, and each call of `Client.Receive()` to one of its
    three possible outcomes. Times and durations are whole milliseconds. */
module Ntp {

  datatype Option<+T> = None | Some(value: T)

  /** An `Ntp.Packet` as the Observers use it: whether it passed the
      packet's own validity check, the local time it was created (when the
      reply arrived) and the local clock offset it yields. */
  datatype Packet = Packet(isValid: bool, creationTime: int, offset: int)

  /** An `Ntp.Client`: the server it talks to and its receive timeout. */
  datatype Client = Client(host: string, port: int, receiveTimeout: int)

  /** The outcome of one call of `Client.Receive()`: a packet, null, or an
      exception. */
  datatype Reply = Returned(packet: Packet) | ReturnedNull | Threw

  /** The cache after a reply that did not throw: only a non-null packet
      whose IsValid holds replaces the cached one. */
  function Accept(cached: Option<Packet>, reply: Reply): (r: Option<Packet>)
    ensures r != cached ==> reply.Returned? && reply.packet.isValid && r == Some(reply.packet)
    ensures reply.Returned? && reply.packet.isValid ==> r == Some(reply.packet)
  {
    if reply.Returned? && reply.packet.isValid then Some(reply.packet) else cached
  }

  /** The offset a LocalClockOffset read reports: the cached packet's, or
      zero (`new TimeSpan(0)`) when nothing is cached. */
  function OffsetOf(cached: Option<Packet>): int
  {
    if cached.Some? then cached.value.offset else 0
  }

  /** The instant after which a packet is too old under a time-to-live. */
  function Expiry(p: Packet, ttl: int): int
  {
    p.creationTime + ttl
  }
}
