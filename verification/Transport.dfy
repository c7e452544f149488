/** The edge's supernode transport: UDP (with KCP on top), forced TCP, and the fallback from
    UDP to TCP that lasts until the TCP connection breaks.  Results of socket opens and sends
    are inputs of the operations. */
module Transport {

  datatype Proto = Udp | Tcp

  const SOFT_RETRIES: nat := 2
  const SUP_ATTEMPTS: nat := 3
  const CLOSE_SOCKET_COUNTER_MAX: nat := 15

  /** A socket descriptor; -1 if there is none. */
  type Fd = x: int | -1 <= x

  /** What a send meets: do the sends of the length prefix and of the payload succeed if they are
      attempted, and which descriptor does a reconnect after a failure give. */
  datatype Sending = Sending(prefixSent: bool, payloadSent: bool, retryFd: Fd) {
    /** It fails if it is attempted. */
    predicate Fails() { !(prefixSent && payloadSent) }
  }

  /** A packet that is not a REGISTER_SUPER; `control` if it goes to the supernode as control. */
  datatype Other = Other(control: bool, sending: Sending)

  /** The inputs of update_supernode_reg: which deadlines have passed, what was heard of the
      supernode lately, which descriptors the socket operations give, the next supernode, and how
      the sends of the probe, of the REGISTER_SUPER and of the peers' registrations end. */
  datatype Update = Update(retryDue: bool, intervalOver: bool, probeDue: bool, recentUdp: bool, recentKcp: bool,
                           tcpFd: Fd, udpFd: Fd, againFd: Fd, mayClose: bool, next: nat,
                           probe: Sending, register: Sending, others: seq<Other>) {
    /** The time for a registration has come. */
    predicate Due(snWait: nat) { snWait == 2 || (snWait != 0 && retryDue) || intervalOver }

    ghost predicate Breaks() { register.Fails() || AnyFails(others) }
  }

  ghost predicate AnyFails(sends: seq<Other>) { exists i :: 0 <= i < |sends| && sends[i].sending.Fails() }

  /** eee->sock, udp_sock and tcp_sock; `tcpPeer` is the supernode tcp_sn_sock names, -1 if it is
      not valid.  A socket that is opened may get the number of one that was closed. */
  datatype Socks = Socks(sock: Fd, udp: Fd, tcp: Fd, tcpPeer: int) {
    function DisconnectTcp(): Socks { this.(tcp := -1, tcpPeer := -1) }

    function Disconnect(): Socks { Socks(-1, -1, -1, -1) }

    /** supernode_connect_udp_socket. */
    function ConnectUdp(fd: Fd): Socks { if udp >= 0 then this else this.(udp := fd) }

    /** supernode_connect_tcp_socket: it succeeded if there is a TCP socket afterwards. */
    function ConnectTcp(fd: Fd, curr: nat): Socks {
      if tcp >= 0 && tcpPeer == curr then this else if fd >= 0 then this.(tcp := fd, tcpPeer := curr) else DisconnectTcp()
    }

    /** The first half of supernode_connect: a TCP socket to another supernode is closed, and
        UDP is opened unless TCP is forced. */
    function Prepare(forced: bool, curr: nat, udpFd: Fd): Socks {
      var a := if tcpPeer != -1 && tcpPeer != curr then DisconnectTcp() else this;
      if forced then a else a.ConnectUdp(udpFd)
    }

    /** Then TCP, if it is to be used. */
    function Connect(forced: bool, useTcp: bool, curr: nat, udpFd: Fd, tcpFd: Fd): Socks {
      var b := Prepare(forced, curr, udpFd);
      if (forced || b.udp >= 0) && useTcp then b.ConnectTcp(tcpFd, curr) else b
    }

    /** The sockets that are needed are there. */
    predicate Connected(forced: bool, useTcp: bool) { (forced || udp >= 0) && (useTcp ==> tcp >= 0) }

    /** The descriptor of a transport. */
    function Of(p: Proto): Fd { if p == Tcp then tcp else udp }

    /** edge_sync_active_socket. */
    function Sync(p: Proto): Socks { this.(sock := Of(p)) }
  }

  /** conf.connect_tcp, conf.allow_tcp_fallback and N2N_HAVE_TCP. */
  datatype Conf = Conf(forced: bool, allowed: bool, haveTcp: bool)

  /** The configuration and those fields of the edge that decide its transport; `episode` counts
      the fallbacks begun. */
  datatype State = State(conf: Conf, active: Proto, fallback: bool, sticky: bool, budget: nat, armed: bool,
                         sendingRegister: bool, sendingControl: bool, request: bool,
                         socks: Socks, curr: nat,
                         snWait: nat, attempts: nat, fastRetry: nat, closeCounter: nat, episode: nat) {

    // ---- sockets ----

    /** reset_sup_attempts. */
    function ResetAttempts(): State { this.(attempts := if active == Tcp then 1 else SUP_ATTEMPTS) }

    function DisconnectTcp(): State { this.(socks := socks.DisconnectTcp()) }

    function Disconnect(): State { this.(socks := socks.Disconnect()) }

    function ConnectTcp(fd: Fd): State { this.(socks := socks.ConnectTcp(fd, curr)) }

    /** edge_sync_active_socket. */
    function Sync(): State { this.(socks := socks.Sync(active)) }

    /** edge_set_active_transport. */
    function SetActive(p: Proto): State { this.(active := p, socks := socks.Sync(p)) }

    predicate UseTcp() { conf.forced || fallback }

    /** supernode_connect; if a socket cannot be opened it returns early. */
    function Connect(udpFd: Fd, tcpFd: Fd): State {
      var k := socks.Connect(conf.forced, UseTcp(), curr, udpFd, tcpFd);
      if k.Connected(conf.forced, UseTcp()) then this.(socks := k).SetActive(if UseTcp() then Tcp else Udp)
      else this.(socks := k)
    }

    // ---- beginning and end of a fallback ----

    /** edge_switch_to_tcp_supernode starts a fallback. */
    predicate Switches(fd: Fd) {
      conf.haveTcp && !conf.forced && active == Udp && conf.allowed && (fd >= 0 || (socks.tcp >= 0 && socks.tcpPeer == curr))
    }

    /** edge_switch_to_tcp_supernode. */
    function SwitchToTcp(fd: Fd): State {
      if !conf.haveTcp || conf.forced || active == Tcp || !conf.allowed then this
      else
        var a := this.(fallback := true, sticky := true, fastRetry := 0, budget := SOFT_RETRIES, armed := false).ConnectTcp(fd);
        if a.socks.tcp < 0 then a.(fallback := false, sticky := false, budget := 0, armed := false)
        else a.SetActive(Tcp).(snWait := 0, episode := episode + 1).ResetAttempts()
    }

    /** What ends a fallback. */
    function BackToUdp(): State {
      this.(sticky := false, fallback := false, fastRetry := 0, budget := 0, armed := false, request := false)
          .SetActive(Udp).ResetAttempts()
    }

    /** edge_release_tcp_sticky_after_disconnect. */
    function Release(): State { if conf.forced || !sticky then this else BackToUdp() }

    /** edge_mark_udp_recovered. */
    function MarkUdpRecovered(): State { if conf.forced || !fallback || sticky then this else BackToUdp() }

    // ---- sending ----

    /** The failed send is a REGISTER_SUPER of a fallback that may be tried again. */
    predicate MayRetry() { sendingRegister && fallback && !armed && budget > 0 }

    /** The failure path of sendto_fd. */
    function SendFailed(retryFd: Fd): State {
      if active != Tcp then this
      else if MayRetry() then
        var a := this.(armed := true, budget := budget - 1).DisconnectTcp().ConnectTcp(retryFd);
        a.Sync().(snWait := 2)
      else DisconnectTcp().Release().Sync().(snWait := 1)
    }

    /** sendto_fd. */
    function SendFd(success: bool, retryFd: Fd): State { if success then this else SendFailed(retryFd) }

    /** sendto_sock gives up without a descriptor, and drops data while the fallback connection is
        being established. */
    predicate Attempts() { socks.sock >= 0 && !(fallback && active == Tcp && snWait != 0 && !sendingControl) }

    /** sendto_sock: over TCP a length prefix goes first. */
    function SendSock(o: Sending): State {
      if !Attempts() then this
      else if active == Tcp && o.prefixSent then SendFd(o.payloadSent, o.retryFd)
      else SendFd(o.prefixSent && o.payloadSent, o.retryFd)
    }

    /** send_register_super. */
    function SendRegisterSuper(o: Sending): State {
      this.(request := true, sendingRegister := true, sendingControl := true, armed := false).SendSock(o)
          .(sendingRegister := false, sendingControl := false, armed := false)
    }

    /** Any other packet, to the supernode or to a peer. */
    function SendOther(control: bool, o: Sending): State {
      this.(sendingControl := control).SendSock(o).(sendingControl := false)
    }

    function SendAll(sends: seq<Other>): State
      decreases |sends|
    {
      if sends == [] then this else SendOther(sends[0].control, sends[0].sending).SendAll(sends[1..])
    }

    // ---- receiving ----

    /** A UDP datagram or KCP packet from the supernode. */
    function UdpArrived(kcpControl: bool): State { if kcpControl && fallback then MarkUdpRecovered() else this }

    /** REGISTER_SUPER_ACK, over either transport. */
    function AckArrived(overUdp: bool): State {
      var a := this.(closeCounter := 0);
      var b := if fallback && socks.udp >= 0 && overUdp then a.MarkUdpRecovered() else a;
      b.(snWait := 0, fastRetry := 0, budget := 0, armed := false, request := false).ResetAttempts()
    }

    /** The TCP branch of fetch_and_eventually_process_data on a closed connection, or on a frame
        that exceeds the buffer. */
    function TcpClosed(framing: bool): State {
      (if framing then Disconnect().Release() else DisconnectTcp().Release().Sync()).(snWait := 1)
    }

    // ---- the main loop's periodic work ----

    /** edge_handle_dead_kcp_session, when the control session has died. */
    function DeadKcp(tcpFd: Fd, udpFd: Fd): State {
      if conf.forced || active == Tcp then this
      else if Switches(tcpFd) then SwitchToTcp(tcpFd).(snWait := 2)
      else
        var a := SwitchToTcp(tcpFd);
        a.RecycleUdp(udpFd).ResetAttempts().(snWait := 2)
    }

    /** edge_recycle_udp_supernode_socket. */
    function RecycleUdp(fd: Fd): State {
      if conf.forced then this
      else
        var b := this.(socks := socks.(udp := fd));
        if fd < 0 then b else b.Sync()
    }

    /** The state in which sort_supernodes registers with a better supernode. */
    function Moved(next: nat, udpFd: Fd, tcpFd: Fd, unregister: Sending): State {
      SendOther(true, unregister).(curr := next).ResetAttempts().Connect(udpFd, tcpFd)
    }

    /** sort_supernodes, when the current supernode is not the best. */
    function ChangeSupernode(next: nat, udpFd: Fd, tcpFd: Fd, unregister: Sending, register: Sending): State {
      Moved(next, udpFd, tcpFd, unregister).SendRegisterSuper(register).(snWait := 1)
    }

    /** The last lines of the bootstrap. */
    function EndBootstrap(): State {
      this.(snWait := 1, fastRetry := 0, budget := 0, armed := false, request := false, sendingControl := false)
    }

    /** Retries after which the sockets are closed. */
    function CloseLimit(): nat { if conf.allowed then CLOSE_SOCKET_COUNTER_MAX else 3 }

    /** Give up on this supernode and perhaps close the sockets. */
    function Leave(u: Update): State {
      var a := this.(curr := u.next).ResetAttempts();
      if !u.mayClose then a
      else if closeCounter + 1 >= CloseLimit() then a.(closeCounter := 0).Disconnect()
      else a.(closeCounter := closeCounter + 1)
    }

    /** Then connect to the next one. */
    function TryNext(u: Update): State { Leave(u).Connect(u.udpFd, u.tcpFd) }

    /** UDP or confirmed KCP traffic of the last seconds puts a fallback off. */
    predicate Deferred(u: Update) { !conf.forced && active == Udp && (u.recentUdp || u.recentKcp) }

    function Defer(): State { this.(snWait := 0, fastRetry := 0, budget := 0, armed := false).ResetAttempts() }

    /** update_supernode_reg with no attempts left. */
    function NoAttemptsLeft(u: Update): State {
      if Deferred(u) then Defer()
      else if Switches(u.tcpFd) then SwitchToTcp(u.tcpFd)
      else SwitchToTcp(u.tcpFd).TryNext(u)
    }

    /** The probe of a fallback that is not sticky, sent over UDP. */
    function Probed(u: Update): State {
      if !(fallback && active == Tcp) then this
      else if !sticky && u.probeDue then SetActive(Udp).SendRegisterSuper(u.probe).SetActive(Tcp).(attempts := 1)
      else this.(attempts := 1)
    }

    /** The part of update_supernode_reg that counts attempts. */
    function Attempt(u: Update): State {
      var a := Probed(u);
      if a.attempts == 0 then a.NoAttemptsLeft(u) else a.(attempts := a.attempts - 1)
    }

    /** It ends there. */
    predicate Stops(u: Update) { Probed(u).attempts == 0 && Probed(u).Deferred(u) }

    /** A TCP transport without a socket is reconnected first. */
    function TcpReady(u: Update): State {
      if active == Tcp && socks.tcp < 0 then
        var a := ConnectTcp(u.againFd);
        if a.socks.tcp >= 0 then a.SetActive(Tcp) else a
      else this
    }

    predicate Ready() { active == Udp || socks.tcp >= 0 }

    /** register_fast_retry_count after a registration. */
    function NextRetry(wasWaiting: bool): nat {
      if !wasWaiting then 0 else if fastRetry < 3 then fastRetry + 1 else fastRetry
    }

    /** update_supernode_reg. */
    function UpdateReg(u: Update): State {
      if !u.Due(snWait) then this
      else if Stops(u) then Attempt(u)
      else Attempt(u).Register(u, snWait != 0)
    }

    /** Its last part: the REGISTER_SUPER and what goes to the peers, if there is a socket. */
    function Register(u: Update, wasWaiting: bool): State {
      var a := TcpReady(u);
      if !a.Ready() then a.(snWait := 1, fastRetry := if wasWaiting && a.fastRetry < 3 then a.fastRetry + 1 else a.fastRetry)
      else
        var b := a.SendRegisterSuper(u.register).SendAll(u.others);
        b.(snWait := 1, fastRetry := b.NextRetry(wasWaiting))
    }

    /** Forced TCP whose reassembly has run out of its buffer (main loop). */
    function Overrun(): State { if conf.forced then Disconnect().(snWait := 1) else this }

    // ---- events ----

    function BootstrapTimeout(tcpFd: Fd, nextSn: nat, udpFd: Fd): State {
      if Switches(tcpFd) then SwitchToTcp(tcpFd)
      else SwitchToTcp(tcpFd).(curr := nextSn).Connect(udpFd, tcpFd)
    }

    function Next(e: Event): State {
      match e
      case UdpPacket(k) => UdpArrived(k)
      case Ack(u) => AckArrived(u)
      case Nak => this.(request := false)
      case ReRegister => this.(snWait := 2)
      case TcpBroken(f) => TcpClosed(f)
      case Packet(c, o) => SendOther(c, o)
      case Timer(u) => UpdateReg(u)
      case KcpDied(t, u) => DeadKcp(t, u)
      case BootstrapTimeout(t, n, u) => BootstrapTimeout(t, n, u)
      case BootstrapRegister(o) => this.(snWait := 1).SendRegisterSuper(o)
      case BootstrapDone => EndBootstrap()
      case Reconnect(n, u, t) => this.(curr := n).Connect(u, t)
      case BufferOverrun => Overrun()
      case Resorted(n, u, t, a, b) => ChangeSupernode(n, u, t, a, b)
    }

    // ---- the invariant ----

    /** TCP is active exactly when it is forced or a fallback is on; the fallback and the sticky
        flag are equal; no fallback when forced or disallowed; the soft-retry budget exists only
        in a fallback and never exceeds two. */
    ghost predicate Inv() {
      && (active == Tcp <==> conf.forced || fallback)
      && fallback == sticky
      && (fallback ==> !conf.forced && conf.allowed && conf.haveTcp)
      && (budget > 0 ==> fallback)
      && budget <= SOFT_RETRIES
    }

    /** Between operations no send is under way. */
    ghost predicate Idle() { Inv() && !armed && !sendingRegister && !sendingControl }

    /** The state in which the event sends a REGISTER_SUPER, and how that ends. */
    function Registration(e: Event): Registering {
      match e
      case Timer(u) =>
        var a := Attempt(u).TcpReady(u);
        if u.Due(snWait) && !Stops(u) && a.Ready() then Registers(a, u.register) else NoRegistration
      case BootstrapRegister(o) => Registers(this.(snWait := 1), o)
      case Resorted(n, u, t, a, b) => Registers(Moved(n, u, t, a), b)
      case _ => NoRegistration
    }

    /** The event sends a REGISTER_SUPER in a fallback, and the send fails. */
    predicate FailedRegistration(e: Event) {
      var r := Registration(e);
      r.Registers? && r.at.fallback && r.at.socks.sock >= 0 && r.sending.Fails()
    }
  }

  datatype Registering = NoRegistration | Registers(at: State, sending: Sending)

  datatype Event =
    | UdpPacket(kcpControl: bool)
    | Ack(overUdp: bool)
    | Nak
    | ReRegister
    | TcpBroken(framing: bool)
    | Packet(control: bool, sending: Sending)
    | Timer(update: Update)
    | KcpDied(tcpFd: Fd, udpFd: Fd)
    | BootstrapTimeout(tcpFd: Fd, nextSn: nat, udpFd: Fd)
    | BootstrapRegister(sending: Sending)
    | BootstrapDone
    | Reconnect(nextSn: nat, udpFd: Fd, tcpFd: Fd)
    | BufferOverrun
    | Resorted(best: nat, udpFd: Fd, tcpFd: Fd, unregister: Sending, register: Sending)
  {
    /** The TCP connection fails or is closed in the course of the event. */
    ghost predicate BreaksTcp() {
      match this
      case TcpBroken(_) => true
      case Packet(_, o) => o.Fails()
      case Timer(u) => u.Breaks()
      case BootstrapRegister(o) => o.Fails()
      case Resorted(_, _, _, a, b) => a.Fails() || b.Fails()
      case _ => false
    }
  }

  // ---- what one step may do ----

  /** What may change between two moments of a run.  Within one fallback episode the budget is
      never refilled; an episode ends only if `broke`. */
  ghost predicate Evolves(a: State, b: State, broke: bool) {
    && a.conf == b.conf && a.episode <= b.episode
    && (a.fallback && b.episode == a.episode && b.fallback ==> b.budget <= a.budget)
    && (a.fallback && !(b.fallback && b.episode == a.episode) ==> broke)
    && (b.episode == a.episode && b.fallback ==> a.fallback)
  }

  /** Transport, fallback, budget, request and episode are the same. */
  ghost predicate SameCore(a: State, b: State) {
    && a.conf == b.conf
    && a.active == b.active && a.fallback == b.fallback && a.sticky == b.sticky
    && a.budget == b.budget && a.request == b.request && a.episode == b.episode
  }

  /** And so are the marks of a send under way. */
  ghost predicate SameMarks(a: State, b: State) {
    a.armed == b.armed && a.sendingRegister == b.sendingRegister && a.sendingControl == b.sendingControl
  }

  lemma EvolvesJoins(a: State, b: State, c: State, p: bool, q: bool)
    requires Evolves(a, b, p) && Evolves(b, c, q)
    ensures Evolves(a, c, p || q)
  {
  }

  /** edge_mark_udp_recovered changes nothing: a fallback is always sticky, so what follows its
      test is never reached. */
  lemma RecoveryIsDead(s: State)
    requires s.Inv()
    ensures s.MarkUdpRecovered() == s
  {
  }

  /** The probe over UDP is never sent, for the same reason. */
  lemma ProbeIsDead(s: State, u: Update)
    requires s.Inv()
    ensures s.Probed(u) == if s.fallback then s.(attempts := 1) else s
  {
  }

  lemma ConnectKeeps(s: State, u: Fd, t: Fd)
    requires s.Inv()
    ensures var b := s.Connect(u, t);
            b == s.(socks := b.socks)
  {
  }

  /** A fallback starts exactly under these conditions, with a full budget; a failed attempt
      changes nothing but sockets and the retry stage. */
  lemma SwitchStarts(s: State, fd: Fd)
    requires s.Inv()
    ensures var b := s.SwitchToTcp(fd);
            if s.Switches(fd) then
              !s.fallback && b.fallback && b.active == Tcp && b.socks.tcp >= 0 && b.socks.sock == b.socks.tcp && b.socks.tcpPeer == s.curr
              && b.budget == 2 && b.episode == s.episode + 1
            else SameCore(s, b) && b.curr == s.curr && b.snWait == s.snWait && b.attempts == s.attempts
    ensures s.SwitchToTcp(fd).Inv() && (s.Idle() ==> s.SwitchToTcp(fd).Idle())
    ensures Evolves(s, s.SwitchToTcp(fd), false)
  {
  }

  /** A failed TCP send in a fallback: a REGISTER_SUPER that may be retried stays and pays, every
      other packet ends the fallback with the pending request cleared. */
  lemma FailureOutcome(s: State, retryFd: Fd)
    requires s.Inv()
    ensures var b := s.SendFailed(retryFd);
            if !s.fallback then SameCore(s, b) && b.armed == s.armed
            else if s.MayRetry() then
              b.fallback && b.active == Tcp && b.episode == s.episode && b.armed && b.budget == s.budget - 1
              && b.request == s.request && b.snWait == 2
            else !b.fallback && b.active == Udp && !b.request && b.budget == 0 && !b.armed && b.socks.tcp == -1 && b.snWait == 1
    ensures var b := s.SendFailed(retryFd);
            b.Inv() && Evolves(s, b, true) && b.sendingRegister == s.sendingRegister && b.sendingControl == s.sendingControl
            && b.curr == s.curr && b.episode == s.episode && b.conf == s.conf
  {
  }

  lemma SockKeeps(s: State, o: Sending)
    requires s.Inv()
    ensures var b := s.SendSock(o);
            b.Inv() && Evolves(s, b, o.Fails()) && b.sendingRegister == s.sendingRegister
            && b.curr == s.curr && b.episode == s.episode && b.conf == s.conf && (b.armed ==> s.armed || s.sendingRegister)
    ensures !s.Attempts() || !o.Fails() ==> s.SendSock(o) == s
  {
    FailureOutcome(s, o.retryFd);
  }

  /** REGISTER_SUPER: if its send is attempted and fails in a fallback, the edge stays exactly when there is budget
      left and pays one; otherwise it returns to UDP and the request is cleared. */
  lemma RegisterOutcome(s: State, o: Sending)
    requires s.Idle()
    ensures var b := s.SendRegisterSuper(o);
            if s.fallback && s.socks.sock >= 0 && o.Fails() then
              if s.budget > 0 then b.fallback && b.active == Tcp && b.budget == s.budget - 1 && b.request
              else !b.fallback && b.active == Udp && !b.request && b.budget == 0
            else SameCore(s.(request := true), b)
    ensures var b := s.SendRegisterSuper(o);
            b.Idle() && Evolves(s, b, o.Fails()) && b.episode == s.episode && b.curr == s.curr && b.conf == s.conf
  {
    var a := s.(request := true, sendingRegister := true, sendingControl := true, armed := false);
    SockKeeps(a, o);
    FailureOutcome(a, o.retryFd);
  }

  /** Any other packet: a failed send ends a fallback, unless it was not attempted, for want of a
      descriptor or because it is data and the fallback is still being established. */
  lemma OtherOutcome(s: State, control: bool, o: Sending)
    requires s.Idle()
    ensures var b := s.SendOther(control, o);
            if s.fallback && s.socks.sock >= 0 && o.Fails() && (control || s.snWait == 0) then !b.fallback && b.active == Udp && !b.request && b.budget == 0
            else if s.fallback then b == s
            else SameCore(s, b)
    ensures var b := s.SendOther(control, o);
            b.Idle() && Evolves(s, b, o.Fails()) && b.episode == s.episode && b.curr == s.curr && b.conf == s.conf
  {
    var a := s.(sendingControl := control);
    SockKeeps(a, o);
    FailureOutcome(a, o.retryFd);
  }

  lemma {:induction false} AllKeep(s: State, sends: seq<Other>)
    requires s.Idle()
    ensures var b := s.SendAll(sends);
            b.Idle() && Evolves(s, b, AnyFails(sends)) && b.episode == s.episode && b.curr == s.curr && b.conf == s.conf
            && (s.fallback && !b.fallback ==> b.active == Udp && !b.request && b.budget == 0)
            && (!s.fallback ==> !b.fallback && b.request == s.request)
    decreases |sends|
  {
    if sends != [] {
      var a := s.SendOther(sends[0].control, sends[0].sending);
      OtherOutcome(s, sends[0].control, sends[0].sending);
      AllKeep(a, sends[1..]);
      assert AnyFails(sends[1..]) ==> AnyFails(sends) by {
        if AnyFails(sends[1..]) {
          var i :| 0 <= i < |sends[1..]| && sends[1..][i].sending.Fails();
          assert sends[i + 1].sending.Fails();
        }
      }
      assert sends[0].sending.Fails() ==> AnyFails(sends);
      EvolvesJoins(s, a, a.SendAll(sends[1..]), sends[0].sending.Fails(), AnyFails(sends[1..]));
    }
  }

  // ---- the periodic registration ----

  /** Attempts: deferred exactly on recent traffic; a fallback starts only when they are used up
      and nothing was heard lately; otherwise the next supernode is tried. */
  lemma AttemptOutcome(s: State, u: Update)
    requires s.Idle()
    ensures var b := s.Attempt(u);
            b.Idle() && Evolves(s, b, false) && b.conf == s.conf && b.snWait == (if s.Stops(u) then 0 else b.snWait)
    ensures s.Stops(u) <==> s.attempts == 0 && s.Deferred(u)
    ensures var b := s.Attempt(u);
            if s.fallback then b == s.(attempts := 0)
            else if s.attempts > 0 then b == s.(attempts := s.attempts - 1)
            else if s.Deferred(u) then SameCore(s, b) && b.attempts == SUP_ATTEMPTS && b.curr == s.curr
            else if s.Switches(u.tcpFd) then b.fallback && b.episode == s.episode + 1 && b.curr == s.curr
            else SameCore(s, b) && b.curr == u.next
  {
    ProbeIsDead(s, u);
    if !s.fallback && s.attempts == 0 {
      SwitchStarts(s, u.tcpFd);
      if !s.Deferred(u) && !s.Switches(u.tcpFd) { NextTried(s.SwitchToTcp(u.tcpFd), u); }
    }
  }

  /** The next supernode becomes current without a change of transport, and every fifteenth (or
      third) time the sockets are closed first. */
  lemma NextTried(s: State, u: Update)
    requires s.Inv()
    ensures var b := s.TryNext(u);
            SameCore(s, b) && SameMarks(s, b) && b.curr == u.next && b.snWait == s.snWait
            && b.closeCounter == if !u.mayClose then s.closeCounter
                                 else if s.closeCounter + 1 >= (if s.conf.allowed then 15 else 3) then 0 else s.closeCounter + 1
  {
    LeaveKeeps(s, u);
    ConnectKeeps(s.Leave(u), u.udpFd, u.tcpFd);
  }

  lemma LeaveKeeps(s: State, u: Update)
    ensures var b := s.Leave(u);
            SameCore(s, b) && SameMarks(s, b) && b.curr == u.next && b.snWait == s.snWait
            && b.closeCounter == if !u.mayClose then s.closeCounter
                                 else if s.closeCounter + 1 >= s.CloseLimit() then 0 else s.closeCounter + 1
  {
  }

  lemma ReadyKeeps(s: State, u: Update)
    ensures var b := s.TcpReady(u); b == s.(socks := b.socks)
    ensures s.Idle() ==> s.TcpReady(u).Idle()
  {
    var a := s.ConnectTcp(u.againFd);
    assert s.active == Tcp ==> a.SetActive(Tcp) == s.(socks := a.socks.Sync(Tcp));
  }

  /** From the REGISTER_SUPER of a registration to its end. */
  lemma AnnounceOutcome(a: State, u: Update)
    requires a.Idle()
    ensures var r := a.SendRegisterSuper(u.register); var b := r.SendAll(u.others);
            r.Idle() && b.Idle() && Evolves(a, b, u.Breaks()) && Evolves(r, b, AnyFails(u.others))
            && r.episode == a.episode && b.episode == a.episode && b.curr == a.curr
            && (a.fallback && !b.fallback ==> b.active == Udp && !b.request && b.budget == 0)
  {
    var r := a.SendRegisterSuper(u.register);
    RegisterOutcome(a, u.register);
    AllKeep(r, u.others);
    EvolvesJoins(a, r, r.SendAll(u.others), u.register.Fails(), AnyFails(u.others));
  }

  /** The state in which update_supernode_reg registers. */
  lemma RegistersFrom(s: State, u: Update)
    requires s.Idle()
    ensures var a := s.Attempt(u).TcpReady(u);
            a.Idle() && Evolves(s, a, false) && a.snWait == s.Attempt(u).snWait && a.curr == s.Attempt(u).curr
            && a.episode == s.Attempt(u).episode && (s.fallback ==> a.fallback)
  {
    AttemptOutcome(s, u);
    ReadyKeeps(s.Attempt(u), u);
  }

  lemma RegisterPart(a: State, u: Update, wasWaiting: bool)
    requires a.Idle()
    ensures var b := a.Register(u, wasWaiting);
            b.Idle() && Evolves(a, b, u.Breaks()) && b.snWait == 1 && b.episode == a.episode && b.curr == a.curr
            && (a.fallback && !b.fallback ==> b.active == Udp && !b.request && b.budget == 0)
  {
    ReadyKeeps(a, u);
    AnnounceOutcome(a.TcpReady(u), u);
  }

  /** update_supernode_reg keeps the invariant and ends a fallback only through a failed send, with
      UDP active and the request cleared. */
  lemma UpdateOutcome(s: State, u: Update)
    requires s.Idle()
    ensures var b := s.UpdateReg(u);
            b.Idle() && Evolves(s, b, u.Breaks())
            && (s.fallback && !b.fallback ==> b.active == Udp && !b.request && b.budget == 0)
  {
    if u.Due(s.snWait) {
      var a := s.Attempt(u);
      AttemptOutcome(s, u);
      RegisterPart(a, u, s.snWait != 0);
      EvolvesJoins(s, a, a.Register(u, s.snWait != 0), false, u.Breaks());
    }
  }

  /** When it acts: nothing happens before its time; a fallback starts, or the next supernode is
      tried, only when the attempts are used up and nothing was heard lately. */
  lemma UpdateTiming(s: State, u: Update)
    requires s.Idle()
    ensures var b := s.UpdateReg(u);
            && (!u.Due(s.snWait) ==> b == s)
            && (u.Due(s.snWait) ==> b.snWait == if s.attempts == 0 && s.Deferred(u) then 0 else 1)
            && (b.episode > s.episode ==> s.attempts == 0 && !s.Deferred(u))
            && (b.curr != s.curr ==> s.attempts == 0 && !s.Deferred(u) && b.curr == u.next)
  {
    if u.Due(s.snWait) {
      AttemptOutcome(s, u);
      RegisterPart(s.Attempt(u), u, s.snWait != 0);
    }
  }

  /** A dead control session starts a fallback exactly when one may start; otherwise the UDP
      socket is recycled.  It never ends one. */
  lemma DeadKcpOutcome(s: State, t: Fd, u: Fd)
    requires s.Idle()
    ensures var b := s.DeadKcp(t, u);
            b.Idle() && Evolves(s, b, false)
            && (s.active == Tcp ==> b == s)
            && (s.active == Udp ==> b.snWait == 2 && (b.fallback <==> s.Switches(t)))
            && (s.active == Udp && !b.fallback ==> b.socks.udp == u && b.attempts == SUP_ATTEMPTS)
  {
    SwitchStarts(s, t);
  }

  lemma MovedOutcome(s: State, n: nat, u: Fd, t: Fd, a: Sending)
    requires s.Idle()
    ensures var m := s.Moved(n, u, t, a); m.Idle() && Evolves(s, m, a.Fails()) && m.curr == n && m.episode == s.episode
  {
    OtherOutcome(s, true, a);
    ConnectKeeps(s.SendOther(true, a).(curr := n).ResetAttempts(), u, t);
  }

  lemma ChangeOutcome(s: State, n: nat, u: Fd, t: Fd, a: Sending, b: Sending)
    requires s.Idle()
    ensures var c := s.ChangeSupernode(n, u, t, a, b);
            c.Idle() && Evolves(s, c, a.Fails() || b.Fails()) && c.curr == n && c.snWait == 1
  {
    var m := s.Moved(n, u, t, a);
    MovedOutcome(s, n, u, t, a);
    RegisterOutcome(m, b);
    EvolvesJoins(s, m, m.SendRegisterSuper(b), a.Fails(), b.Fails());
  }

  lemma BootstrapOutcome(s: State, t: Fd, n: nat, u: Fd)
    requires s.Idle()
    ensures var b := s.BootstrapTimeout(t, n, u);
            b.Idle() && Evolves(s, b, false) && (b.fallback <==> s.fallback || s.Switches(t))
            && b.curr == (if s.Switches(t) then s.curr else n) && b.request == s.request
  {
    SwitchStarts(s, t);
    if !s.Switches(t) { ConnectKeeps(s.SwitchToTcp(t).(curr := n), u, t); }
  }

  /** Acknowledgements keep transport and fallback and clear budget and request. */
  lemma AckOutcome(s: State, overUdp: bool)
    requires s.Idle()
    ensures var b := s.AckArrived(overUdp);
            b.Idle() && Evolves(s, b, false) && b.fallback == s.fallback && b.active == s.active
            && !b.request && b.budget == 0 && b.snWait == 0 && b.closeCounter == 0
            && b.attempts == (if s.active == Tcp then 1 else 3)
  {
    RecoveryIsDead(s.(closeCounter := 0));
  }

  /** REGISTER_SUPER_NAK ends the request; RE_REGISTER_SUPER makes the next timer event register
      whatever its deadlines. */
  lemma MessageOutcome(s: State, u: Update)
    ensures s.Next(Nak) == s.(request := false)
    ensures SameCore(s, s.Next(ReRegister)) && u.Due(s.Next(ReRegister).snWait)
  {
  }

  /** The end of the bootstrap keeps transport and fallback; the next registration is due when its
      interval is over or a retry is. */
  lemma BootstrapEnds(s: State, u: Update)
    requires s.Idle()
    ensures var b := s.Next(BootstrapDone);
            b.Idle() && b.fallback == s.fallback && b.active == s.active && !b.request && b.budget == 0
            && (u.Due(b.snWait) <==> u.retryDue || u.intervalOver)
  {
  }

  lemma ClosedOutcome(s: State, framing: bool)
    requires s.Idle()
    ensures var b := s.TcpClosed(framing);
            b.Idle() && Evolves(s, b, true) && !b.fallback && b.socks.tcp == -1 && b.snWait == 1
            && (s.fallback ==> b.active == Udp && !b.request && b.budget == 0)
  {
  }

  ghost predicate Kept(s: State, e: Event) { s.Next(e).Idle() && Evolves(s, s.Next(e), e.BreaksTcp()) }

  lemma MessagesKeep(s: State, e: Event)
    requires s.Idle() && (e.UdpPacket? || e.Ack? || e.Nak? || e.ReRegister? || e.TcpBroken? || e.BootstrapDone? || e.BufferOverrun?)
    ensures Kept(s, e)
  {
    match e
    case UdpPacket(k) => RecoveryIsDead(s);
    case Ack(u) => AckOutcome(s, u);
    case TcpBroken(f) => ClosedOutcome(s, f);
    case _ =>
  }

  lemma ConnectionsKeep(s: State, e: Event)
    requires s.Idle() && (e.KcpDied? || e.BootstrapTimeout? || e.Reconnect?)
    ensures Kept(s, e)
  {
    match e
    case KcpDied(t, u) => DeadKcpOutcome(s, t, u);
    case BootstrapTimeout(t, n, u) => BootstrapOutcome(s, t, n, u);
    case Reconnect(n, u, t) => ConnectKeeps(s.(curr := n), u, t);
  }

  lemma PacketsKeep(s: State, e: Event)
    requires s.Idle() && (e.Packet? || e.BootstrapRegister?)
    ensures Kept(s, e)
  {
    match e
    case Packet(c, o) => OtherOutcome(s, c, o);
    case BootstrapRegister(o) => RegisterOutcome(s.(snWait := 1), o);
  }

  lemma TimerKeeps(s: State, u: Update)
    requires s.Idle()
    ensures Kept(s, Timer(u))
  {
    UpdateOutcome(s, u);
  }

  lemma ResortedKeeps(s: State, n: nat, u: Fd, t: Fd, a: Sending, b: Sending)
    requires s.Idle()
    ensures Kept(s, Resorted(n, u, t, a, b))
  {
    var m := s.Moved(n, u, t, a);
    MovedOutcome(s, n, u, t, a);
    RegisterOutcome(m, b);
    EvolvesJoins(s, m, m.SendRegisterSuper(b), a.Fails(), b.Fails());
  }

  /** Every event keeps the invariant, and it ends a fallback only if the TCP connection breaks in
      its course. */
  lemma NextKeeps(s: State, e: Event)
    requires s.Idle()
    ensures s.Next(e).Idle() && Evolves(s, s.Next(e), e.BreaksTcp())
  {
    if e.Timer? { TimerKeeps(s, e.update); }
    else if e.Resorted? { ResortedKeeps(s, e.best, e.udpFd, e.tcpFd, e.unregister, e.register); }
    else if e.Packet? || e.BootstrapRegister? { PacketsKeep(s, e); }
    else if e.KcpDied? || e.BootstrapTimeout? || e.Reconnect? { ConnectionsKeep(s, e); }
    else { MessagesKeep(s, e); }
  }

  // ---- failed registrations ----

  /** A fallback that ends leaves UDP active and no budget, and no request pending unless one was
      sent afterwards, over UDP, to a better supernode. */
  lemma EndOutcome(s: State, e: Event)
    requires s.Idle() && s.fallback && !s.Next(e).fallback
    ensures s.Next(e).active == Udp && s.Next(e).budget == 0 && (!e.Resorted? ==> !s.Next(e).request)
  {
    NextKeeps(s, e);
    match e
    case TcpBroken(f) => ClosedOutcome(s, f);
    case Packet(c, o) => OtherOutcome(s, c, o);
    case Timer(u) => UpdateOutcome(s, u);
    case BootstrapRegister(o) => RegisterOutcome(s.(snWait := 1), o);
    case _ =>
  }

  /** Another send that follows the registration in the same event fails. */
  ghost predicate LaterFailure(e: Event) { e.Timer? && AnyFails(e.update.others) }

  /** Where a registration is sent, and what happens after it. */
  lemma RegistrationFits(s: State, e: Event)
    requires s.Idle() && s.Registration(e).Registers?
    ensures var m, o := s.Registration(e).at, s.Registration(e).sending; var r := m.SendRegisterSuper(o);
            m.Idle() && Evolves(s, m, true) && r.episode == m.episode && Evolves(r, s.Next(e), LaterFailure(e))
  {
    var m, o := s.Registration(e).at, s.Registration(e).sending;
    match e
    case Timer(u) =>
      RegistersFrom(s, u);
      AnnounceOutcome(m, u);
    case BootstrapRegister(_) => RegisterOutcome(m, o);
    case Resorted(n, u, t, a, b) =>
      MovedOutcome(s, n, u, t, a);
      RegisterOutcome(m, b);
  }

  /** A failed registration after which the episode goes on costs one of the budget; the episode
      goes on exactly if there is budget left, unless another send fails in the same event. */
  lemma FailedRegistrationPays(s: State, e: Event)
    requires s.Idle() && s.FailedRegistration(e)
    ensures var m, b := s.Registration(e).at, s.Next(e);
            b.fallback && b.episode == m.episode ==>
              m.budget > 0 && b.budget < m.budget
              && m.budget <= (if s.fallback && s.episode == b.episode then s.budget else SOFT_RETRIES)
    ensures !LaterFailure(e) ==> (s.Next(e).fallback <==> s.Registration(e).at.budget > 0)
    ensures s.Next(e).episode == s.Registration(e).at.episode
  {
    RegistrationFits(s, e);
    RegisterOutcome(s.Registration(e).at, s.Registration(e).sending);
    EpisodeOfRegistration(s, e);
  }

  lemma EpisodeOfRegistration(s: State, e: Event)
    requires s.Idle() && s.Registration(e).Registers?
    ensures s.Next(e).episode == s.Registration(e).at.episode
  {
    var m, o := s.Registration(e).at, s.Registration(e).sending;
    match e
    case Timer(u) =>
      RegistersFrom(s, u);
      AnnounceOutcome(m, u);
    case BootstrapRegister(_) => RegisterOutcome(m, o);
    case Resorted(n, u, t, a, b) =>
      MovedOutcome(s, n, u, t, a);
      RegisterOutcome(m, b);
  }

  // ---- runs ----

  /** edge_init. */
  function Initial(conf: Conf, curr: nat): State {
    State(conf, if conf.forced then Tcp else Udp, false, false, 0, false, false, false, false,
          Socks(-1, -1, -1, -1), curr, 0, 0, 0, 0, 0)
  }

  /** The state after the first `n` events of a run that starts in `s`. */
  function After(s: State, events: seq<Event>, n: nat): State
    requires n <= |events|
    decreases n, s, events
  {
    if n == 0 then s else After(s, events, n - 1).Next(events[n - 1])
  }

  /** The invariant holds in every state of every run. */
  lemma {:induction false} RunKeeps(s: State, events: seq<Event>, n: nat)
    requires s.Idle() && n <= |events|
    ensures After(s, events, n).Idle() && After(s, events, n).conf == s.conf
    decreases n
  {
    if n > 0 {
      RunKeeps(s, events, n - 1);
      NextKeeps(After(s, events, n - 1), events[n - 1]);
    }
  }

  // ---- sequences of states that evolve ----

  ghost predicate Evolving(t: seq<State>, broke: seq<bool>) {
    |t| == |broke| + 1 && forall k {:trigger broke[k]} :: 0 <= k < |broke| ==> Evolves(t[k], t[k + 1], broke[k])
  }

  lemma {:induction false} Lasts(t: seq<State>, broke: seq<bool>, i: nat, j: nat)
    requires Evolving(t, broke) && i <= j < |t| && t[i].fallback
    requires forall k {:trigger broke[k]} :: i <= k < j ==> !broke[k]
    ensures t[j].fallback && t[j].episode == t[i].episode
    decreases j
  {
    if i < j {
      Lasts(t, broke, i, j - 1);
      assert !broke[j - 1];
    }
  }

  lemma {:induction false} Ascends(t: seq<State>, broke: seq<bool>, i: nat, j: nat)
    requires Evolving(t, broke) && i <= j < |t|
    ensures t[i].episode <= t[j].episode
    decreases j
  {
    if i < j {
      Ascends(t, broke, i, j - 1);
      assert Evolves(t[j - 1], t[j], broke[j - 1]);
    }
  }

  lemma {:induction false} Unbroken(t: seq<State>, broke: seq<bool>, i: nat, k: nat, j: nat)
    requires Evolving(t, broke) && i <= k <= j < |t| && t[j].fallback && t[i].episode == t[j].episode
    ensures t[k].fallback && t[k].episode == t[i].episode && t[j].budget <= t[k].budget
    decreases j
  {
    if k < j {
      Ascends(t, broke, i, j - 1);
      assert Evolves(t[j - 1], t[j], broke[j - 1]);
      Unbroken(t, broke, i, k, j - 1);
    }
  }

  /** The states of a run evolve. */
  lemma Trace(s: State, events: seq<Event>) returns (t: seq<State>, broke: seq<bool>)
    requires s.Idle()
    ensures |t| == |events| + 1 && forall k {:trigger t[k]} :: 0 <= k < |t| ==> t[k] == After(s, events, k)
    ensures |broke| == |events| && forall k {:trigger broke[k]} :: 0 <= k < |events| ==> broke[k] == events[k].BreaksTcp()
    ensures Evolving(t, broke)
  {
    t := seq(|events| + 1, k requires 0 <= k <= |events| => After(s, events, k));
    broke := seq(|events|, k requires 0 <= k < |events| => events[k].BreaksTcp());
    forall k {:trigger broke[k]} | 0 <= k < |events| ensures Evolves(t[k], t[k + 1], broke[k]) {
      RunEvolves(s, events, k);
    }
  }

  lemma RunEvolves(s: State, events: seq<Event>, k: nat)
    requires s.Idle() && k < |events|
    ensures Evolves(After(s, events, k), After(s, events, k + 1), events[k].BreaksTcp())
  {
    RunKeeps(s, events, k);
    NextKeeps(After(s, events, k), events[k]);
  }

  /** A fallback outlives everything but a break of the TCP connection: not UDP or KCP packets,
      not acknowledgements, not timers, not a new supernode. */
  lemma FallbackLasts(s: State, events: seq<Event>, i: nat, j: nat)
    requires s.Idle() && i <= j <= |events| && After(s, events, i).fallback
    requires forall k {:trigger events[k]} :: i <= k < j ==> !events[k].BreaksTcp()
    ensures After(s, events, j).fallback && After(s, events, j).episode == After(s, events, i).episode
  {
    var t, broke := Trace(s, events);
    Lasts(t, broke, i, j);
    assert t[j] == After(s, events, j);
  }

  /** Between two moments of the same episode the edge was in it all along, and its budget only
      fell. */
  lemma EpisodeUnbroken(s: State, events: seq<Event>, i: nat, k: nat, j: nat)
    requires s.Idle() && i <= k <= j <= |events| && After(s, events, j).fallback
    requires After(s, events, i).episode == After(s, events, j).episode
    ensures After(s, events, k).fallback && After(s, events, k).episode == After(s, events, i).episode
    ensures After(s, events, j).budget <= After(s, events, k).budget
  {
    var t, broke := Trace(s, events);
    Unbroken(t, broke, i, k, j);
    assert t[k] == After(s, events, k) && t[j] == After(s, events, j);
  }

  // ---- failures survived ----

  /** In event `k` a REGISTER_SUPER failed, and afterwards the edge is in fallback episode `ep`. */
  ghost predicate Survives(s: State, events: seq<Event>, k: nat, ep: nat)
    requires k < |events|
  {
    var b := After(s, events, k + 1);
    After(s, events, k).FailedRegistration(events[k]) && b.fallback && b.episode == ep
  }

  /** The number of such events among the first `n`. */
  ghost function Survived(s: State, events: seq<Event>, n: nat, ep: nat): nat
    requires n <= |events|
    decreases n
  {
    if n == 0 then 0 else Survived(s, events, n - 1, ep) + if Survives(s, events, n - 1, ep) then 1 else 0
  }

  /** The failures survived in episode `ep` and the budget left in it never exceed two. */
  ghost predicate PaidFor(t: State, survived: nat, ep: nat) {
    && survived <= SOFT_RETRIES
    && (t.fallback && t.episode == ep ==> survived + t.budget <= SOFT_RETRIES)
    && (t.episode < ep ==> survived == 0)
  }

  lemma PaidForNext(a: State, e: Event, survived: nat, ep: nat)
    requires a.Idle() && PaidFor(a, survived, ep)
    ensures var b := a.Next(e);
            PaidFor(b, survived + (if a.FailedRegistration(e) && b.fallback && b.episode == ep then 1 else 0), ep)
  {
    NextKeeps(a, e);
    if a.FailedRegistration(e) { FailedRegistrationPays(a, e); }
  }

  lemma PaidForStep(s: State, events: seq<Event>, k: nat, ep: nat)
    requires s.Idle() && k < |events| && PaidFor(After(s, events, k), Survived(s, events, k, ep), ep)
    ensures PaidFor(After(s, events, k + 1), Survived(s, events, k + 1, ep), ep)
  {
    RunKeeps(s, events, k);
    PaidForNext(After(s, events, k), events[k], Survived(s, events, k, ep), ep);
    assert After(s, events, k + 1) == After(s, events, k).Next(events[k]);
  }

  lemma {:induction false} AllPaidFor(s: State, events: seq<Event>, n: nat, ep: nat)
    requires s.Idle() && !s.fallback && n <= |events|
    ensures PaidFor(After(s, events, n), Survived(s, events, n, ep), ep)
    decreases n
  {
    if n > 0 {
      AllPaidFor(s, events, n - 1, ep);
      PaidForStep(s, events, n - 1, ep);
    }
  }

  /** In every run and every fallback episode at most two failed REGISTER_SUPER sends leave the
      edge on TCP. */
  lemma AtMostTwoSurvived(s: State, events: seq<Event>, n: nat, ep: nat)
    requires s.Idle() && !s.fallback && n <= |events|
    ensures Survived(s, events, n, ep) <= 2
  {
    AllPaidFor(s, events, n, ep);
  }
}
