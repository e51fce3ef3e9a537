/**
 * IP addresses parsed from text. The parse itself is the C library's
 * `inet_pton`, which this model takes as a parameter: a pair of functions from
 * text to address bytes, one per address family.
 */
module InternetAddresses {
  import opened Base

  /** `in_addr`: four bytes in network order. */
  type IPv4Bytes = s: seq<byte> | |s| == 4 witness [0, 0, 0, 0]

  /** `in6_addr`: sixteen bytes in network order. */
  type IPv6Bytes = s: seq<byte> | |s| == 16 witness [0, 0, 0, 0, 0, 0, 0, 0, 0, 0, 0, 0, 0, 0, 0, 0]

  /**
   * `inet_pton` for `AF_INET` and `AF_INET6`: `Some(bytes)` where the call
   * returns 1 and fills the address, `None` where it rejects the text.
   */
  datatype Pton = Pton(v4: string -> Option<IPv4Bytes>, v6: string -> Option<IPv6Bytes>)

  datatype IP = V4(v4: IPv4Bytes) | V6(v6: IPv6Bytes)

  /** `InternetAddress`: the parsed address and the text it was parsed from. */
  datatype InternetAddress = InternetAddress(ip: IP, value: string)

  datatype AddressError = InvalidAddress

  /**
   * `init(_:)`: text with a `.` is an IPv4 address or nothing, even when it also
   * holds a `:`; text with a `:` and no `.` is an IPv6 address or nothing; any
   * other text is rejected.
   */
  function Init(pton: Pton, value: string): (r: Result<InternetAddress, AddressError>)
    ensures r.Ok? ==> r.value.value == value
    ensures r.Err? ==> r.error == InvalidAddress
    ensures '.' in value ==>
      (r.Ok? <==> pton.v4(value).Some?) && (r.Ok? ==> r.value.ip == V4(pton.v4(value).value))
    ensures '.' !in value && ':' in value ==>
      (r.Ok? <==> pton.v6(value).Some?) && (r.Ok? ==> r.value.ip == V6(pton.v6(value).value))
    ensures '.' !in value && ':' !in value ==> r.Err?
  {
    if '.' in value then
      match pton.v4(value)
      case Some(address) => Ok(InternetAddress(V4(address), value))
      case None => Err(InvalidAddress)
    else if ':' in value then
      match pton.v6(value)
      case Some(address) => Ok(InternetAddress(V6(address), value))
      case None => Err(InvalidAddress)
    else
      Err(InvalidAddress)
  }

  /** The family is decided by the text alone: a `.` always means IPv4. */
  lemma FamilyFollowsText(pton: Pton, value: string)
    requires Init(pton, value).Ok?
    ensures Init(pton, value).value.ip.V4? <==> '.' in value
    ensures Init(pton, value).value.ip.V6? <==> '.' !in value && ':' in value
  {
  }

  /** Parsing an accepted address's own text gives the same address back. */
  lemma ReparseIdentity(pton: Pton, value: string)
    requires Init(pton, value).Ok?
    ensures Init(pton, Init(pton, value).value.value) == Init(pton, value)
  {
  }

  const LoopbackText := "127.0.0.1"

  /** The loopback address, as a platform whose `inet_pton` reads `127.0.0.1` as those four bytes gives it. */
  const LoopbackAddress := InternetAddress(V4([127, 0, 0, 1]), LoopbackText)

  /**
   * A platform on which `.loopback` exists at all: its initialiser parses
   * `"127.0.0.1"` through the string-literal path, so a platform whose
   * `inet_pton` rejected that text would never finish building it.
   */
  predicate ParsesLoopback(pton: Pton) {
    pton.v4(LoopbackText).Some?
  }

  /** The address `"127.0.0.1"` parses to on such a platform. */
  function LoopbackOf(pton: Pton): (a: InternetAddress)
    requires ParsesLoopback(pton)
    ensures Init(pton, LoopbackText) == Ok(a)
  {
    assert '.' in LoopbackText by { assert LoopbackText[3] == '.'; }
    Init(pton, LoopbackText).value
  }

  /**
   * `init(stringLiteral:)`: a rejected literal stops a debug build with an
   * assertion failure; a release build, modelled here, falls back to `.loopback`.
   */
  function FromStringLiteral(pton: Pton, value: string): (a: InternetAddress)
    requires ParsesLoopback(pton)
    ensures Init(pton, value).Ok? ==> a == Init(pton, value).value
    ensures Init(pton, value).Err? ==> a == LoopbackOf(pton)
  {
    match Init(pton, value)
    case Ok(address) => address
    case Err(_) => LoopbackOf(pton)
  }

  /** `.loopback`: the IPv4 address parsed from `"127.0.0.1"`, kept with that text. */
  function Loopback(pton: Pton): (a: InternetAddress)
    requires ParsesLoopback(pton)
    ensures a.ip.V4? && a.ip.v4 == pton.v4(LoopbackText).value && a.value == LoopbackText
  {
    assert '.' in LoopbackText by { assert LoopbackText[3] == '.'; }
    FromStringLiteral(pton, LoopbackText)
  }

  /**
   * `.loopback` parses back to itself, it is also the fallback of a rejected
   * literal, and where `inet_pton` gives the usual bytes it is 127.0.0.1.
   */
  lemma LoopbackIsFixedPoint(pton: Pton, value: string)
    requires ParsesLoopback(pton)
    ensures Init(pton, LoopbackText) == Ok(Loopback(pton))
    ensures Init(pton, value).Err? ==> FromStringLiteral(pton, value) == Loopback(pton)
    ensures pton.v4(LoopbackText) == Some([127, 0, 0, 1]) ==> Loopback(pton) == LoopbackAddress
  {
  }

  /** Text without a `.` or a `:` never reaches `inet_pton` and always falls back. */
  lemma PlainTextFallsBack(pton: Pton, value: string)
    requires ParsesLoopback(pton)
    requires '.' !in value && ':' !in value
    ensures FromStringLiteral(pton, value) == Loopback(pton)
  {
  }
}
