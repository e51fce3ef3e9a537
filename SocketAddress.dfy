/**
 * Socket addresses: an internet address and a port, together with the bytes of
 * the `sockaddr_in` or `sockaddr_in6` record handed to `bind`, laid out as on
 * Darwin (the only platform whose records carry the `sin_len` field the
 * initialiser sets).
 */
module SocketAddresses {
  import opened Base
  import opened InternetAddresses

  /** `AF_INET` and `AF_INET6` on Darwin. */
  const AF_INET: byte := 2
  const AF_INET6: byte := 30

  /** `MemoryLayout<sockaddr_in>.stride` and `MemoryLayout<sockaddr_in6>.stride`. */
  const SockaddrInSize: nat := 16
  const SockaddrIn6Size: nat := 28

  /** `port.bigEndian` as it lies in memory: the high byte first. */
  function PortBytes(port: uint16): (b: seq<byte>)
    ensures |b| == 2
  {
    [port / 0x100, port % 0x100]
  }

  function PortOfBytes(hi: byte, lo: byte): (port: uint16) {
    hi * 0x100 + lo
  }

  /**
   * Reading the two port bytes back gives the port, whatever the host's byte
   * order, and every pair of bytes is the layout of exactly one port.
   */
  lemma PortRoundTrip(port: uint16, hi: byte, lo: byte)
    ensures PortOfBytes(PortBytes(port)[0], PortBytes(port)[1]) == port
    ensures PortBytes(PortOfBytes(hi, lo)) == [hi, lo]
  {
  }

  /**
   * The record bytes. `sockaddr_in`: `sin_len`, `sin_family`, `sin_port`, `sin_addr`
   * and eight zero bytes of `sin_zero`. `sockaddr_in6`: `sin6_len`, `sin6_family`,
   * `sin6_port`, four zero bytes of `sin6_flowinfo`, `sin6_addr` and four zero bytes
   * of `sin6_scope_id`. The records start zeroed, so every field not set is zero.
   */
  function RecordBytes(ip: IP, port: uint16): (data: seq<byte>)
  {
    match ip
    case V4(address) =>
      [SockaddrInSize as byte, AF_INET] + PortBytes(port) + address + Zeros(8)
    case V6(address) =>
      [SockaddrIn6Size as byte, AF_INET6] + PortBytes(port) + Zeros(4) + address + Zeros(4)
  }

  /** `SocketAddress`. */
  datatype SocketAddress = SocketAddress(address: InternetAddress, port: uint16, data: seq<byte>)

  /** `init(address:port:)`: total; it keeps the address and port and builds the record. */
  function Init(address: InternetAddress, port: uint16): (s: SocketAddress)
    ensures s.address == address && s.port == port
    ensures address.ip.V4? ==> |s.data| == SockaddrInSize && s.data[1] == AF_INET
    ensures address.ip.V6? ==> |s.data| == SockaddrIn6Size && s.data[1] == AF_INET6
    ensures |s.data| >= 2 && s.data[0] as nat == |s.data|
  {
    SocketAddress(address, port, RecordBytes(address.ip, port))
  }

  /** Reads the family, port and address back out of a record's bytes. */
  function DecodeRecord(data: seq<byte>): (r: Option<(IP, uint16)>)
  {
    if |data| == SockaddrInSize && data[0] == SockaddrInSize as byte && data[1] == AF_INET then
      Some((V4(data[4..8]), PortOfBytes(data[2], data[3])))
    else if |data| == SockaddrIn6Size && data[0] == SockaddrIn6Size as byte && data[1] == AF_INET6 then
      Some((V6(data[8..24]), PortOfBytes(data[2], data[3])))
    else
      None
  }

  /** The record holds exactly the address and the port it was built from. */
  lemma RecordRoundTrip(address: InternetAddress, port: uint16)
    ensures DecodeRecord(Init(address, port).data) == Some((address.ip, port))
  {
    var data := Init(address, port).data;
    match address.ip
    case V4(a) =>
      assert data[4..8] == a;
    case V6(a) =>
      assert data[8..24] == a;
  }

  /** The bytes of a record that no field fills are zero. */
  lemma RecordPadding(address: InternetAddress, port: uint16)
    ensures var data := Init(address, port).data;
      (address.ip.V4? ==> forall i :: 8 <= i < 16 ==> data[i] == 0)
      && (address.ip.V6? ==> (forall i :: 4 <= i < 8 ==> data[i] == 0) && (forall i :: 24 <= i < 28 ==> data[i] == 0))
  {
  }

  /** The port is stored in network order: the high byte at offset 2. */
  lemma PortInNetworkOrder(address: InternetAddress, port: uint16)
    ensures Init(address, port).data[2] == port / 0x100
    ensures Init(address, port).data[3] == port % 0x100
  {
  }
}
