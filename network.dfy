/** The network values the UDP proxy filter consumes: addresses, the
    (local, peer) pair that identifies a flow, and received datagrams. */
module Network {

  /** One octet of a datagram payload. */
  newtype byte = x: int | 0 <= x < 256

  /** The contents of a Buffer::Instance; the proxy copies it without looking inside. */
  type Buffer = seq<byte>

  /** An internet address and port, as parsed from text such as "10.0.0.1:1000". */
  datatype Address = InternetAddress(ip: string, port: nat)

  /** UdpRecvData::LocalPeerAddresses: the address the datagram arrived on and the
      address it came from. This pair is the key of the session table. */
  datatype LocalPeerAddresses = LocalPeerAddresses(local: Address, peer: Address)

  /** One received datagram: its addresses and its payload. */
  datatype UdpRecvData = UdpRecvData(addresses: LocalPeerAddresses, buffer: Buffer)

  /** Network::MAX_UDP_PACKET_SIZE, the largest datagram a packet processor reads. */
  const MaxUdpPacketSize: nat := 1500
}
