/** The functions that open and close the sockets to the supernode, on the fields of the edge they
    update.  They return early at the first socket that cannot be opened. */
module SupernodeSockets {
  import opened Transport

  class Sockets {
    const forced: bool
    var fallback: bool
    var active: Proto
    var sock: Fd
    var udpSock: Fd
    var tcpSock: Fd
    var tcpSnSock: nat        // meaningless unless tcpSnSockValid
    var tcpSnSockValid: bool

    ghost predicate Valid()
      reads this
    {
      tcpSnSockValid <==> tcpSock >= 0
    }

    function UseTcp(): bool
      reads this
    {
      forced || fallback
    }

    ghost function View(): Socks
      reads this
    {
      Socks(sock, udpSock, tcpSock, if tcpSnSockValid then tcpSnSock else -1)
    }

    constructor (forced_: bool)
      ensures Valid() && forced == forced_ && !fallback && View() == Socks(-1, -1, -1, -1)
      ensures sock == if active == Tcp then tcpSock else udpSock
    {
      forced, fallback, active := forced_, false, if forced_ then Tcp else Udp;
      sock, udpSock, tcpSock, tcpSnSock, tcpSnSockValid := -1, -1, -1, 0, false;
    }

    /** edge_sync_active_socket. */
    method Sync()
      modifies this`sock
      ensures View() == old(View()).Sync(active)
    {
      if active == Tcp { sock := tcpSock; } else { sock := udpSock; }
    }

    /** supernode_disconnect_tcp; `sock` may still be the descriptor that is closed. */
    method DisconnectTcp()
      modifies this`tcpSock, this`tcpSnSock, this`tcpSnSockValid
      ensures Valid() && View() == old(View()).DisconnectTcp()
    {
      if tcpSock >= 0 { tcpSock := -1; }
      tcpSnSock, tcpSnSockValid := 0, false;
    }

    /** supernode_connect_udp_socket: an open socket is kept. */
    method ConnectUdp(fd: Fd) returns (rc: int)
      modifies this`udpSock
      ensures rc == (if udpSock >= 0 then 0 else -1) && View() == old(View()).ConnectUdp(fd)
    {
      if udpSock >= 0 { return 0; }
      udpSock := fd;
      if udpSock < 0 { return -1; }
      return 0;
    }

    /** supernode_connect_tcp_socket: an open socket to `curr` is kept, any other closed; success
        means a socket to `curr`. */
    method ConnectTcp(curr: nat, fd: Fd) returns (rc: int)
      requires Valid()
      modifies this`tcpSock, this`tcpSnSock, this`tcpSnSockValid
      ensures Valid() && rc == (if tcpSock >= 0 then 0 else -1)
      ensures rc == 0 ==> tcpSnSock == curr
      ensures View() == old(View()).ConnectTcp(fd, curr)
    {
      if tcpSock >= 0 && tcpSnSockValid && tcpSnSock == curr { return 0; }
      DisconnectTcp();
      tcpSock := fd;
      if tcpSock < 0 { return -1; }
      tcpSnSock, tcpSnSockValid := curr, true;
      return 0;
    }

    /** The first half of supernode_connect. */
    method Prepare(curr: nat, udpFd: Fd) returns (rc: int)
      requires Valid()
      modifies this`udpSock, this`tcpSock, this`tcpSnSock, this`tcpSnSockValid
      ensures Valid() && rc == (if forced || udpSock >= 0 then 0 else -1)
      ensures View() == old(View()).Prepare(forced, curr, udpFd)
    {
      if tcpSnSockValid && tcpSnSock != curr { DisconnectTcp(); }
      if forced { return 0; }
      rc := ConnectUdp(udpFd);
    }

    /** supernode_connect.  Success means that the transport to use is active and `sock` is its
        open socket, to `curr` if it is TCP; a failure leaves `sock` as it was, although the TCP
        socket it stood for may be closed. */
    method Connect(curr: nat, udpFd: Fd, tcpFd: Fd) returns (rc: int)
      requires Valid()
      modifies this`active, this`sock, this`udpSock, this`tcpSock, this`tcpSnSock, this`tcpSnSockValid
      ensures Valid() && (rc == 0 || rc == -1)
      ensures rc == 0 <==> (forced || old(udpSock) >= 0 || udpFd >= 0)
                           && (UseTcp() ==> tcpFd >= 0 || (old(tcpSock) >= 0 && old(tcpSnSock) == curr))
      ensures rc == 0 ==> active == (if UseTcp() then Tcp else Udp)
                          && sock == (if UseTcp() then tcpSock else udpSock) >= 0
                          && (UseTcp() ==> tcpSnSockValid && tcpSnSock == curr)
      ensures rc == -1 ==> active == old(active) && sock == old(sock)
      ensures rc == -1 && UseTcp() && old(tcpSock) >= 0 && old(tcpSnSock) != curr ==> tcpSock == -1
      ensures var k := old(View()).Connect(forced, UseTcp(), curr, udpFd, tcpFd);
              View() == if rc == 0 then k.Sync(active) else k
    {
      rc := Prepare(curr, udpFd);
      if rc < 0 { return; }
      if forced || fallback {
        rc := ConnectTcp(curr, tcpFd);
        if rc < 0 { return; }
        active := Tcp;
      } else {
        active := Udp;
      }
      Sync();
    }

    /** supernode_disconnect. */
    method Disconnect()
      modifies this`sock, this`udpSock, this`tcpSock, this`tcpSnSock, this`tcpSnSockValid
      ensures Valid() && View() == Socks(-1, -1, -1, -1)
    {
      DisconnectTcp();
      if udpSock >= 0 { udpSock := -1; }
      sock := -1;
    }

    /** edge_recycle_udp_supernode_socket: nothing when TCP is forced; else the UDP socket is a new
        one or none, and `sock` follows the active transport only if it could be opened. */
    method RecycleUdp(fd: Fd)
      modifies this`active, this`sock, this`udpSock
      ensures forced ==> View() == old(View()) && active == old(active)
      ensures !forced ==> udpSock == fd && active == old(active)
      ensures !forced ==> sock == if fd < 0 then old(sock) else if active == Tcp then tcpSock else fd
    {
      if forced { return; }
      if udpSock >= 0 { udpSock := -1; }
      var rc := ConnectUdp(fd);
      if rc < 0 { return; }
      if active != Tcp {
        active := Udp;
        Sync();
      }
      Sync();
    }
  }
}
