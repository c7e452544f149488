/** eee->sock against the sockets it stands for: edge_sync_active_socket sets it, but not every
    path that closes a socket gets there.  When `sock` is the descriptor of the active transport,
    exactly which events leave it behind, and how the edge recovers. */
module ActiveSocket {
  import opened Transport

  /** `sock` is the descriptor of the active transport. */
  predicate Synced(s: State) { s.socks.sock == s.socks.Of(s.active) }

  /** If the active transport has a socket, `sock` is that socket; and a TCP socket has a peer. */
  predicate SockInv(s: State) {
    && (s.socks.Of(s.active) >= 0 ==> Synced(s))
    && (s.socks.tcp >= 0 <==> s.socks.tcpPeer >= 0) && s.socks.tcpPeer >= -1
  }

  /** supernode_connect to `n` closes the TCP socket in use and then cannot open what it needs. */
  predicate ConnectStale(s: State, n: nat, udpFd: Fd, tcpFd: Fd) {
    && s.active == Tcp && s.socks.tcp >= 0 && s.socks.tcpPeer != n
    && (tcpFd < 0 || (!s.conf.forced && s.socks.udp < 0 && udpFd < 0))
  }

  /** The event leaves `sock` behind, with the number of a socket that was closed. */
  predicate Desyncs(s: State, e: Event) {
    match e
    case KcpDied(t, u) => s.active == Udp && !s.Switches(t) && s.socks.udp >= 0 && u < 0
    case BootstrapTimeout(t, n, u) => ConnectStale(s, n, u, t)
    case Reconnect(n, u, t) => ConnectStale(s, n, u, t)
    case Timer(u) =>
      && s.conf.forced && u.Due(s.snWait) && s.attempts == 0
      && !(u.mayClose && s.closeCounter + 1 >= s.CloseLimit())
      && ConnectStale(s, u.next, u.udpFd, u.tcpFd) && u.againFd < 0
    case Resorted(n, u, t, a, b) => ConnectStale(s.SendOther(true, a), n, u, t) && !b.Fails()
    case _ => false
  }

  // ---- operations ----

  /** What supernode_connect opens and closes; `sock` is not touched yet. */
  lemma ConnectOpens(k: Socks, forced: bool, useTcp: bool, n: nat, u: Fd, t: Fd)
    requires (k.tcp >= 0 <==> k.tcpPeer >= 0) && k.tcpPeer >= -1
    ensures var b := k.Connect(forced, useTcp, n, u, t);
            (b.tcp >= 0 <==> b.tcpPeer >= 0) && b.tcpPeer >= -1 && b.sock == k.sock
            && (b.Connected(forced, useTcp) <==>
                  (forced || k.udp >= 0 || u >= 0) && (useTcp ==> t >= 0 || (k.tcp >= 0 && k.tcpPeer == n)))
            && (!b.Connected(forced, useTcp) && useTcp ==> b.tcp == if k.tcpPeer == n then k.tcp else -1)
            && (!b.Connected(forced, useTcp) && !useTcp ==> b.udp == k.udp == -1)
  {
  }

  lemma ConnectSock(s: State, u: Fd, t: Fd)
    requires s.Inv() && SockInv(s)
    ensures SockInv(s.Connect(u, t))
    ensures Synced(s) ==> (Synced(s.Connect(u, t)) <==> !ConnectStale(s, s.curr, u, t))
    ensures u >= 0 && t >= 0 ==> Synced(s.Connect(u, t))
  {
    ConnectOpens(s.socks, s.conf.forced, s.UseTcp(), s.curr, u, t);
  }

  /** A failed TCP send ends with the descriptors in step, whatever they were. */
  lemma FailedSock(s: State, fd: Fd)
    requires s.Inv() && SockInv(s)
    ensures SockInv(s.SendFailed(fd))
    ensures if s.active == Tcp then Synced(s.SendFailed(fd)) else s.SendFailed(fd) == s
  {
  }

  lemma SendSockSock(s: State, o: Sending)
    requires s.Inv() && SockInv(s)
    ensures var b := s.SendSock(o);
            SockInv(b) && (Synced(b) <==> Synced(s) || (s.active == Tcp && s.Attempts() && o.Fails()))
  {
    FailedSock(s, o.retryFd);
  }

  lemma RegisterSock(s: State, o: Sending)
    requires s.Idle() && SockInv(s)
    ensures var b := s.SendRegisterSuper(o);
            SockInv(b) && (Synced(b) <==> Synced(s) || (s.active == Tcp && s.socks.sock >= 0 && o.Fails()))
  {
    SendSockSock(s.(request := true, sendingRegister := true, sendingControl := true, armed := false), o);
  }

  lemma OtherSock(s: State, control: bool, o: Sending)
    requires s.Idle() && SockInv(s)
    ensures var b := s.SendOther(control, o); SockInv(b) && (Synced(s) ==> Synced(b))
  {
    SendSockSock(s.(sendingControl := control), o);
  }

  lemma {:induction false} AllSock(s: State, sends: seq<Other>)
    requires s.Idle() && SockInv(s)
    ensures var b := s.SendAll(sends); SockInv(b) && (Synced(s) ==> Synced(b))
    decreases |sends|
  {
    if sends != [] {
      OtherSock(s, sends[0].control, sends[0].sending);
      OtherOutcome(s, sends[0].control, sends[0].sending);
      AllSock(s.SendOther(sends[0].control, sends[0].sending), sends[1..]);
    }
  }

  lemma SwitchSock(s: State, fd: Fd)
    requires s.Inv() && SockInv(s)
    ensures var b := s.SwitchToTcp(fd);
            SockInv(b) && (Synced(b) <==> Synced(s) || s.Switches(fd)) && (!s.Switches(fd) ==> b.socks.udp == s.socks.udp)
  {
  }

  lemma LeaveSock(s: State, u: Update)
    requires SockInv(s)
    ensures var b := s.Leave(u);
            SockInv(b) && b.socks == if u.mayClose && s.closeCounter + 1 >= s.CloseLimit() then Socks(-1, -1, -1, -1) else s.socks
  {
    assert s.Leave(u).active == s.active;
  }

  /** Counting attempts: only forced TCP can be left behind. */
  lemma AttemptSock(s: State, u: Update)
    requires s.Idle() && SockInv(s)
    ensures SockInv(s.Attempt(u))
    ensures Synced(s) ==>
              (Synced(s.Attempt(u)) <==>
                 !(s.conf.forced && s.attempts == 0 && !(u.mayClose && s.closeCounter + 1 >= s.CloseLimit())
                   && ConnectStale(s, u.next, u.udpFd, u.tcpFd)))
  {
    ProbeIsDead(s, u);
    if !s.fallback && s.attempts == 0 && !s.Deferred(u) {
      SwitchStarts(s, u.tcpFd);
      SwitchSock(s, u.tcpFd);
      var a := s.SwitchToTcp(u.tcpFd);
      if !s.Switches(u.tcpFd) {
        LeaveSock(a, u);
        LeaveKeeps(a, u);
        ConnectSock(a.Leave(u), u.udpFd, u.tcpFd);
      }
    }
  }

  /** With TCP active, what is sent after this goes through the TCP socket. */
  lemma ReadySock(s: State, u: Update)
    requires s.Idle() && SockInv(s)
    ensures var b := s.TcpReady(u);
            SockInv(b) && (Synced(b) <==> Synced(s) || (s.active == Tcp && u.againFd >= 0))
            && (b.active == Tcp && b.Ready() ==> b.socks.sock == b.socks.tcp >= 0)
  {
  }

  lemma RegisterPartSock(s: State, u: Update, wasWaiting: bool)
    requires s.Idle() && SockInv(s)
    ensures var b := s.Register(u, wasWaiting);
            SockInv(b) && (Synced(s.TcpReady(u)) ==> Synced(b)) && (!s.TcpReady(u).Ready() ==> Synced(b) == Synced(s.TcpReady(u)))
  {
    var a := s.TcpReady(u);
    ReadyKeeps(s, u);
    ReadySock(s, u);
    RegisterOutcome(a, u.register);
    RegisterSock(a, u.register);
    AllSock(a.SendRegisterSuper(u.register), u.others);
  }

  // ---- events ----

  lemma TimerSock(s: State, u: Update)
    requires s.Idle() && SockInv(s)
    ensures SockInv(s.UpdateReg(u))
    ensures Synced(s) ==> (Synced(s.UpdateReg(u)) <==> !Desyncs(s, Timer(u)))
  {
    if u.Due(s.snWait) {
      AttemptOutcome(s, u);
      AttemptSock(s, u);
      ReadySock(s.Attempt(u), u);
      RegisterPartSock(s.Attempt(u), u, s.snWait != 0);
    }
  }

  lemma KcpDiedSock(s: State, t: Fd, u: Fd)
    requires s.Idle() && SockInv(s)
    ensures SockInv(s.DeadKcp(t, u))
    ensures Synced(s) ==> (Synced(s.DeadKcp(t, u)) <==> !Desyncs(s, KcpDied(t, u)))
  {
    SwitchSock(s, t);
    SwitchStarts(s, t);
  }

  lemma BootstrapSock(s: State, t: Fd, n: nat, u: Fd)
    requires s.Idle() && SockInv(s)
    ensures SockInv(s.BootstrapTimeout(t, n, u))
    ensures Synced(s) ==> (Synced(s.BootstrapTimeout(t, n, u)) <==> !ConnectStale(s, n, u, t))
  {
    SwitchSock(s, t);
    SwitchStarts(s, t);
    if !s.Switches(t) { ConnectSock(s.SwitchToTcp(t).(curr := n), u, t); }
  }

  lemma ResortedSock(s: State, n: nat, u: Fd, t: Fd, a: Sending, b: Sending)
    requires s.Idle() && SockInv(s)
    ensures SockInv(s.ChangeSupernode(n, u, t, a, b))
    ensures Synced(s) ==> (Synced(s.ChangeSupernode(n, u, t, a, b)) <==> !Desyncs(s, Resorted(n, u, t, a, b)))
  {
    var c := s.SendOther(true, a);
    OtherOutcome(s, true, a);
    OtherSock(s, true, a);
    ConnectSock(c.(curr := n).ResetAttempts(), u, t);
    MovedOutcome(s, n, u, t, a);
    RegisterSock(s.Moved(n, u, t, a), b);
  }

  /** Every event keeps the invariant: an open socket of the active transport is the one in use. */
  lemma NextSock(s: State, e: Event)
    requires s.Idle() && SockInv(s)
    ensures SockInv(s.Next(e))
    ensures Synced(s) ==> (Synced(s.Next(e)) <==> !Desyncs(s, e))
  {
    match e
    case UdpPacket(k) => RecoveryIsDead(s);
    case Ack(o) => RecoveryIsDead(s.(closeCounter := 0));
    case Packet(c, o) => OtherSock(s, c, o);
    case Timer(u) => TimerSock(s, u);
    case KcpDied(t, u) => KcpDiedSock(s, t, u);
    case BootstrapTimeout(t, n, u) => BootstrapSock(s, t, n, u);
    case BootstrapRegister(o) => RegisterSock(s.(snWait := 1), o);
    case Reconnect(n, u, t) => ConnectSock(s.(curr := n), u, t);
    case Resorted(n, u, t, a, b) => ResortedSock(s, n, u, t, a, b);
    case _ =>
  }

  // ---- runs ----

  /** In every state of every run: if the active transport has a socket, `sock` is that socket. */
  lemma {:induction false} RunSock(conf: Conf, curr: nat, events: seq<Event>, n: nat)
    requires n <= |events|
    ensures SockInv(After(Initial(conf, curr), events, n))
    decreases n
  {
    if n > 0 {
      RunSock(conf, curr, events, n - 1);
      RunKeeps(Initial(conf, curr), events, n - 1);
      NextSock(After(Initial(conf, curr), events, n - 1), events[n - 1]);
    }
  }

  ghost predicate BadSteps(good: seq<bool>, bad: seq<bool>) {
    |good| == |bad| + 1 && forall k {:trigger bad[k]} :: 0 <= k < |bad| ==> good[k] ==> (good[k + 1] <==> !bad[k])
  }

  lemma {:induction false} GoodAt(good: seq<bool>, bad: seq<bool>, n: nat)
    requires BadSteps(good, bad) && good[0] && n < |good|
    requires forall k :: 0 <= k < n ==> !bad[k]
    ensures good[n]
  {
    if n > 0 {
      GoodAt(good, bad, n - 1);
      assert !bad[n - 1];
    }
  }

  /** If a step from a good state leads to a good state exactly when it is no bad step, all states
      are good exactly when no step is bad. */
  lemma AllIffNone(good: seq<bool>, bad: seq<bool>)
    requires BadSteps(good, bad) && good[0]
    ensures (forall k :: 0 <= k < |good| ==> good[k]) <==> (forall k :: 0 <= k < |bad| ==> !bad[k])
  {
    if forall k :: 0 <= k < |bad| ==> !bad[k] {
      forall k | 0 <= k < |good| ensures good[k] { GoodAt(good, bad, k); }
    }
  }

  ghost predicate SyncedAt(s: State, events: seq<Event>, k: nat)
    requires k <= |events|
  {
    Synced(After(s, events, k))
  }

  ghost predicate DesyncsAt(s: State, events: seq<Event>, k: nat)
    requires k < |events|
  {
    Desyncs(After(s, events, k), events[k])
  }

  ghost predicate AlwaysSynced(s: State, events: seq<Event>) {
    forall k :: 0 <= k <= |events| ==> SyncedAt(s, events, k)
  }

  ghost predicate NeverDesyncs(s: State, events: seq<Event>) {
    forall k :: 0 <= k < |events| ==> !DesyncsAt(s, events, k)
  }

  lemma StepSynced(conf: Conf, curr: nat, events: seq<Event>, k: nat)
    requires k < |events| && SyncedAt(Initial(conf, curr), events, k)
    ensures SyncedAt(Initial(conf, curr), events, k + 1) <==> !DesyncsAt(Initial(conf, curr), events, k)
  {
    RunSock(conf, curr, events, k);
    RunKeeps(Initial(conf, curr), events, k);
    NextSock(After(Initial(conf, curr), events, k), events[k]);
  }

  /** Over a whole run `sock` is the descriptor of the active transport in every state if and only
      if no event leaves it behind. */
  lemma AlwaysSyncedExactly(conf: Conf, curr: nat, events: seq<Event>)
    ensures AlwaysSynced(Initial(conf, curr), events) <==> NeverDesyncs(Initial(conf, curr), events)
  {
    var s := Initial(conf, curr);
    var good := seq(|events| + 1, k requires 0 <= k <= |events| => SyncedAt(s, events, k));
    var bad := seq(|events|, k requires 0 <= k < |events| => DesyncsAt(s, events, k));
    forall k {:trigger bad[k]} | 0 <= k < |bad| ensures good[k] ==> (good[k + 1] <==> !bad[k]) {
      if good[k] { StepSynced(conf, curr, events, k); }
    }
    assert SyncedAt(s, events, 0) && good[0];
    AllIffNone(good, bad);
    assert forall k {:trigger SyncedAt(s, events, k)} :: 0 <= k <= |events| ==> good[k] == SyncedAt(s, events, k);
    assert forall k {:trigger DesyncsAt(s, events, k)} :: 0 <= k < |events| ==> bad[k] == DesyncsAt(s, events, k);
  }

  // ---- the runs that show it ----

  const Plain := Conf(false, true, true)

  /** In a fallback over descriptor 4, a supernode that cannot be reached leaves `sock` at the
      closed descriptor. */
  lemma ClosedTcpInUse()
    ensures After(Initial(Plain, 0), [Reconnect(0, 3, -1), KcpDied(4, -1), Reconnect(1, -1, -1)], 3).socks == Socks(4, 3, -1, -1)
    ensures After(Initial(Plain, 0), [Reconnect(0, 3, -1), KcpDied(4, -1), Reconnect(1, -1, -1)], 3).active == Tcp
  {
    var s := Initial(Plain, 0);
    var events := [Reconnect(0, 3, -1), KcpDied(4, -1), Reconnect(1, -1, -1)];
    assert After(s, events, 1).socks == Socks(3, 3, -1, -1);
    assert After(s, events, 2).socks == Socks(4, 3, 4, 0);
  }

  /** If the UDP socket, which could not be reopened after a KCP session died, is opened again with
      the number of the closed TCP socket, TCP frames go out through the UDP socket. */
  lemma UdpInUseForTcp()
    ensures var events := [Reconnect(0, 3, -1), KcpDied(-1, -1), BootstrapTimeout(4, 0, -1), Reconnect(1, 4, -1)];
            var s := After(Initial(Plain, 0), events, 4);
            s.socks == Socks(4, 4, -1, -1) && s.active == Tcp && s.fallback
  {
    var s := Initial(Plain, 0);
    var events := [Reconnect(0, 3, -1), KcpDied(-1, -1), BootstrapTimeout(4, 0, -1), Reconnect(1, 4, -1)];
    assert After(s, events, 1).socks == Socks(3, 3, -1, -1);
    assert After(s, events, 2).socks == Socks(3, -1, -1, -1);
    assert After(s, events, 3).socks == Socks(4, -1, 4, 0);
  }

  // ---- recovery ----

  /** A registration that is due, with nothing heard lately, for which every socket opens. */
  predicate Helps(u: Update) {
    u.intervalOver && !u.recentUdp && !u.recentKcp && u.tcpFd >= 0 && u.udpFd >= 0 && u.againFd >= 0
  }

  /** Without attempts left over UDP, the fallback or the next supernode gets a socket. */
  lemma LastAttemptHelps(s: State, u: Update)
    requires s.Idle() && SockInv(s) && Helps(u) && s.active == Udp && s.attempts == 0
    ensures Synced(s.Attempt(u))
  {
    ProbeIsDead(s, u);
    SwitchStarts(s, u.tcpFd);
    SwitchSock(s, u.tcpFd);
    var a := s.SwitchToTcp(u.tcpFd);
    if !s.Switches(u.tcpFd) {
      LeaveSock(a, u);
      LeaveKeeps(a, u);
      ConnectSock(a.Leave(u), u.udpFd, u.tcpFd);
    }
  }

  /** Over UDP a failed send changes nothing. */
  lemma {:induction false} UdpSends(s: State, sends: seq<Other>)
    requires s.Idle() && s.active == Udp
    ensures s.SendAll(sends) == s
    decreases |sends|
  {
    if sends != [] {
      assert s.SendOther(sends[0].control, sends[0].sending) == s;
      UdpSends(s, sends[1..]);
    }
  }

  lemma UdpRegisterKeeps(s: State, u: Update, wasWaiting: bool)
    requires s.Idle() && s.active == Udp
    ensures s.Register(u, wasWaiting).attempts == s.attempts
  {
    assert s.SendRegisterSuper(u.register) == s.(request := true);
    UdpSends(s.(request := true), u.others);
  }

  /** It brings `sock` back in step, or uses up one of the attempts over UDP. */
  lemma HelpedStep(s: State, u: Update)
    requires s.Idle() && SockInv(s) && Helps(u)
    ensures var b := s.UpdateReg(u);
            b.Idle() && SockInv(b) && (Synced(b) || (!Synced(s) && s.attempts > 0 && b.attempts == s.attempts - 1))
  {
    UpdateOutcome(s, u);
    TimerSock(s, u);
    if !Synced(s) {
      var a := s.Attempt(u);
      AttemptOutcome(s, u);
      AttemptSock(s, u);
      ReadySock(a, u);
      RegisterPartSock(a, u, s.snWait != 0);
      if s.active == Udp {
        if s.attempts == 0 { LastAttemptHelps(s, u); } else { UdpRegisterKeeps(a, u, s.snWait != 0); }
      }
    }
  }

  function Timers(us: seq<Update>): (events: seq<Event>)
    ensures |events| == |us|
  {
    seq(|us|, k requires 0 <= k < |us| => Timer(us[k]))
  }

  /** After `n` of them: in step, or `n` attempts fewer. */
  ghost predicate Regains(s: State, b: State, n: nat) {
    b.Idle() && SockInv(b) && (Synced(b) || (n <= s.attempts && b.attempts == s.attempts - n))
  }

  lemma RegainsStep(s: State, a: State, u: Update, n: nat)
    requires Regains(s, a, n) && Helps(u)
    ensures Regains(s, a.Next(Timer(u)), n + 1)
  {
    HelpedStep(a, u);
  }

  ghost predicate RegainsAt(s: State, us: seq<Update>, k: nat)
    requires k <= |us|
  {
    Regains(s, After(s, Timers(us), k), k)
  }

  lemma RegainsNext(s: State, us: seq<Update>, k: nat)
    requires k < |us| && Helps(us[k]) && RegainsAt(s, us, k)
    ensures RegainsAt(s, us, k + 1)
  {
    RegainsStep(s, After(s, Timers(us), k), us[k], k);
  }

  /** Whatever happened before, one such registration more than there are attempts left brings
      `sock` back to the active transport. */
  lemma Recovers(s: State, us: seq<Update>)
    requires s.Idle() && SockInv(s) && |us| > s.attempts && forall k {:trigger us[k]} :: 0 <= k < |us| ==> Helps(us[k])
    ensures Synced(After(s, Timers(us), |us|))
  {
    var good := seq(|us| + 1, k requires 0 <= k <= |us| => RegainsAt(s, us, k));
    var bad := seq(|us|, _ => false);
    forall k {:trigger bad[k]} | 0 <= k < |us| ensures good[k] ==> good[k + 1] {
      assert Helps(us[k]);
      if good[k] { RegainsNext(s, us, k); }
    }
    assert RegainsAt(s, us, 0) && good[0];
    GoodAt(good, bad, |us|);
    assert RegainsAt(s, us, |us|);
  }
}
