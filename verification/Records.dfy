/** Resource records as values (lib/mdnspp/include/mdnspp/records.h) and the
    service description a responder announces. */
module Records {
  import opened Bytes
  import opened Names

  datatype Txt = Txt(key: seq<byte>, value: Option<seq<byte>>)

  datatype Header = Header(name: Name, ttl: u32, rclass: u16, flush: bool)

  datatype Record =
    | Ptr(hdr: Header, target: Name)
    | Srv(hdr: Header, priority: u16, weight: u16, port: u16, target: Name)
    | A(hdr: Header, addr: seq<byte>)
    | Aaaa(hdr: Header, addr: seq<byte>)
    | Txts(hdr: Header, entries: seq<Txt>)

  const TYPE_A: u16 := 1
  const TYPE_PTR: u16 := 12
  const TYPE_TXT: u16 := 16
  const TYPE_AAAA: u16 := 28
  const TYPE_SRV: u16 := 33
  const TYPE_NSEC: u16 := 47
  const TYPE_ANY: u16 := 255
  const CLASS_IN: u16 := 1

  function TypeOf(r: Record): u16 {
    match r
    case Ptr(_, _) => TYPE_PTR
    case Srv(_, _, _, _, _) => TYPE_SRV
    case A(_, _) => TYPE_A
    case Aaaa(_, _) => TYPE_AAAA
    case Txts(_, _) => TYPE_TXT
  }

  /** An address whose text does not parse is kept as octets of another length. */
  datatype ServiceInfo = ServiceInfo(
    serviceName: Name, serviceType: Name, hostname: Name,
    port: u16, priority: u16, weight: u16,
    ipv4: Option<seq<byte>>, ipv6: Option<seq<byte>>,
    txt: seq<Txt>, subtypes: seq<Name>)
}
