/** include/lx/domain: sockets, ports and the processes that own them. */
module Sockets {
  import opened Common

  datatype Protocol = Tcp | Udp

  datatype Family = IPv4 | IPv6

  datatype Endpoint = Endpoint(address: string, port: nat)

  datatype SocketInfo = SocketInfo(protocol: Protocol, family: Family, local: Endpoint, remote: Option<Endpoint>,
                                   state: string, uid: nat, inode: nat, ownerPids: seq<int>)

  /** A socket as the provider reports it: its owners have not been looked up yet. */
  type FreshSocket = s: SocketInfo | s.ownerPids == []
    witness SocketInfo(Tcp, IPv4, Endpoint("", 0), None, "", 0, 0, [])

  datatype ProcessInfo = ProcessInfo(pid: int, name: string, systemdUnit: Option<string>)

  datatype Service = Service(unitName: string, activeState: string)

  datatype PortInfo = PortInfo(socket: SocketInfo, owners: seq<ProcessInfo>)
}
