/** Addresses and destinations shared by the wire formats. */
module Net {
  import opened Bytes

  /** A domain is its bytes; octet counts are fixed by `Valid`. */
  datatype Address = Ipv4(octets: seq<byte>) | Ipv6(octets: seq<byte>) | Domain(name: seq<byte>) {
    predicate Valid()
    {
      (Ipv4? ==> |octets| == 4) && (Ipv6? ==> |octets| == 16)
    }
  }

  datatype Network = Tcp | Udp | Unix | Unknown

  datatype Destination = Destination(address: Address, port: u16, network: Network)
}
