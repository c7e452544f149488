/** Exactly when a fallback goes on: for the events in which several packets are sent, the condition
    on their sends, said without the operations that send them. */
module FallbackExact {
  import opened Transport
  import opened ActiveSocket

  /** The conditions in terms of the fields and inputs: when a timer event is due, when recent traffic
      puts a fallback off, and when a fallback may start. */
  lemma Conditions(s: State, u: Update, fd: Fd)
    requires s.Inv() && s.active == Udp
    ensures u.Due(s.snWait) <==> u.intervalOver || s.snWait == 2 || (s.snWait != 0 && u.retryDue)
    ensures s.Deferred(u) <==> u.recentUdp || u.recentKcp
    ensures s.Switches(fd) <==> s.conf.haveTcp && s.conf.allowed && (fd >= 0 || (s.socks.tcp >= 0 && s.socks.tcpPeer == s.curr))
  {
  }

  /** One of the packets is attempted and fails: it is control, or the fallback is established. */
  ghost predicate OneFails(sends: seq<Other>, established: bool) {
    exists i :: 0 <= i < |sends| && sends[i].sending.Fails() && (sends[i].control || established)
  }

  lemma OneFailsSplits(sends: seq<Other>, established: bool)
    requires sends != []
    ensures OneFails(sends, established) <==>
              (sends[0].sending.Fails() && (sends[0].control || established)) || OneFails(sends[1..], established)
  {
    if OneFails(sends[1..], established) {
      var i :| 0 <= i < |sends[1..]| && sends[1..][i].sending.Fails() && (sends[1..][i].control || established);
      assert sends[i + 1] == sends[1..][i];
    }
    if OneFails(sends, established) {
      var i :| 0 <= i < |sends| && sends[i].sending.Fails() && (sends[i].control || established);
      if i > 0 { assert sends[1..][i - 1] == sends[i]; }
    }
  }

  /** Packets sent one after the other in a fallback. */
  lemma {:induction false} AllExactly(s: State, sends: seq<Other>)
    requires s.Idle() && s.fallback
    ensures var b := s.SendAll(sends);
            if s.socks.sock >= 0 && OneFails(sends, s.snWait == 0) then
              !b.fallback && b.active == Udp && !b.request && b.budget == 0
            else b == s
    decreases |sends|
  {
    if sends != [] {
      OneFailsSplits(sends, s.snWait == 0);
      OtherOutcome(s, sends[0].control, sends[0].sending);
      var a := s.SendOther(sends[0].control, sends[0].sending);
      if a.fallback {
        AllExactly(a, sends[1..]);
      } else {
        AllKeep(a, sends[1..]);
        OverUdp(a, sends[1..]);
      }
    }
  }

  lemma OverUdp(s: State, sends: seq<Other>)
    requires s.Idle() && s.active == Udp
    ensures s.SendAll(sends) == s
  {
    UdpSends(s, sends);
  }

  /** After the REGISTER_SUPER: the descriptor in use and whether the fallback is established. */
  lemma RegisterLeaves(m: State, o: Sending)
    requires m.Idle() && m.fallback && m.socks.sock >= 0 && (o.Fails() ==> m.budget > 0)
    ensures var r := m.SendRegisterSuper(o);
            && r.Idle() && r.fallback && r.request && r.budget == m.budget - (if o.Fails() then 1 else 0)
            && (r.socks.sock >= 0 <==> !o.Fails() || o.retryFd >= 0)
            && (r.snWait == 0 <==> !o.Fails() && m.snWait == 0)
  {
    RegisterOutcome(m, o);
  }

  /** The REGISTER_SUPER and the packets after it leave the edge in its fallback. */
  ghost predicate GoesOn(register: Sending, others: seq<Other>, budget: nat, established: bool) {
    && (register.Fails() ==> budget > 0)
    && ((register.Fails() ==> register.retryFd >= 0) ==> !OneFails(others, established && !register.Fails()))
  }

  lemma AnnounceExactly(m: State, u: Update)
    requires m.Idle() && m.fallback && m.socks.sock >= 0
    ensures var b := m.SendRegisterSuper(u.register).SendAll(u.others);
            if GoesOn(u.register, u.others, m.budget, m.snWait == 0) then
              b.fallback && b.active == Tcp && b.request && b.budget == m.budget - (if u.register.Fails() then 1 else 0)
            else !b.fallback && b.active == Udp && !b.request && b.budget == 0
  {
    var r := m.SendRegisterSuper(u.register);
    RegisterOutcome(m, u.register);
    if u.register.Fails() && m.budget == 0 {
      OverUdp(r, u.others);
    } else {
      RegisterLeaves(m, u.register);
      AllExactly(r, u.others);
    }
  }

  /** The part of update_supernode_reg that sends, for a fallback with or without a socket. */
  lemma RegisterExactly(a: State, u: Update, wasWaiting: bool)
    requires a.Idle() && SockInv(a) && a.fallback
    ensures var b := a.Register(u, wasWaiting);
            if a.socks.tcp < 0 && u.againFd < 0 then b.fallback && b.budget == a.budget && b.request == a.request
            else if GoesOn(u.register, u.others, a.budget, a.snWait == 0) then
              b.fallback && b.active == Tcp && b.request && b.budget == a.budget - (if u.register.Fails() then 1 else 0)
            else !b.fallback && b.active == Udp && !b.request && b.budget == 0
  {
    ReadyKeeps(a, u);
    ReadySock(a, u);
    if !(a.socks.tcp < 0 && u.againFd < 0) { AnnounceExactly(a.TcpReady(u), u); }
  }

  /** A due timer event in a fallback: without a socket nothing is sent and it goes on; else it goes
      on exactly if the REGISTER_SUPER did not fail or had budget, and no other packet that was
      attempted failed; otherwise the edge is back on UDP with the request cleared. */
  lemma TimerExactly(s: State, u: Update)
    requires s.Idle() && SockInv(s) && s.fallback && u.Due(s.snWait)
    ensures var b := s.Next(Timer(u));
            if s.socks.tcp < 0 && u.againFd < 0 then b.fallback && b.budget == s.budget && b.request == s.request
            else if GoesOn(u.register, u.others, s.budget, s.snWait == 0) then
              b.fallback && b.active == Tcp && b.request && b.budget == s.budget - (if u.register.Fails() then 1 else 0)
            else !b.fallback && b.active == Udp && !b.request && b.budget == 0
  {
    AttemptOutcome(s, u);
    AttemptSock(s, u);
    RegisterExactly(s.Attempt(u), u, s.snWait != 0);
  }

  /** The timer event that starts a fallback, with two soft retries and already established. */
  lemma StartExactly(s: State, u: Update)
    requires s.Idle() && SockInv(s) && u.Due(s.snWait) && s.attempts == 0 && !s.Deferred(u) && s.Switches(u.tcpFd)
    ensures var b := s.Next(Timer(u));
            if GoesOn(u.register, u.others, 2, true) then
              b.fallback && b.active == Tcp && b.request && b.budget == 2 - (if u.register.Fails() then 1 else 0)
            else !b.fallback && b.active == Udp && !b.request && b.budget == 0
  {
    SwitchStarts(s, u.tcpFd);
    AttemptOutcome(s, u);
    AttemptSock(s, u);
    ProbeIsDead(s, u);
    assert s.Attempt(u) == s.SwitchToTcp(u.tcpFd);
    RegisterExactly(s.Attempt(u), u, s.snWait != 0);
  }

  /** Moving to a better supernode in a fallback: it goes on exactly if the unregister was not
      attempted or succeeded, and the REGISTER_SUPER was not attempted, succeeded or had budget. */
  lemma ResortedExactly(s: State, n: nat, u: Fd, t: Fd, a: Sending, b: Sending)
    requires s.Idle() && SockInv(s) && s.fallback
    ensures var c := s.Next(Resorted(n, u, t, a, b));
            var connected := (s.socks.udp >= 0 || u >= 0) && (t >= 0 || (s.socks.tcp >= 0 && s.socks.tcpPeer == n));
            c.fallback <==> !(s.socks.sock >= 0 && a.Fails())
                            && !((s.socks.sock >= 0 || connected) && b.Fails() && s.budget == 0)
    ensures var c := s.Next(Resorted(n, u, t, a, b)); c.curr == n && (!c.fallback ==> c.active == Udp && c.budget == 0)
  {
    ChangeOutcome(s, n, u, t, a, b);
    OtherOutcome(s, true, a);
    MovedOutcome(s, n, u, t, a);
    var m := s.Moved(n, u, t, a);
    RegisterOutcome(m, b);
    if !(s.socks.sock >= 0 && a.Fails()) {
      var d := s.(curr := n).ResetAttempts();
      assert m == d.Connect(u, t);
      ConnectKeeps(d, u, t);
      ConnectOpens(d.socks, s.conf.forced, d.UseTcp(), n, u, t);
    }
  }

  /** A due timer event over UDP that starts no fallback: a REGISTER_SUPER is pending afterwards
      unless it was put off, and the attempts are counted down from three. */
  lemma UdpTimerExactly(s: State, u: Update)
    requires s.Idle() && s.active == Udp && u.Due(s.snWait)
    requires s.attempts > 0 || s.Deferred(u) || !s.Switches(u.tcpFd)
    ensures var b := s.Next(Timer(u));
            && b.active == Udp && !b.fallback
            && (if s.attempts == 0 && s.Deferred(u) then b.request == s.request && b.snWait == 0 else b.request && b.snWait == 1)
            && b.attempts == (if s.attempts > 0 then s.attempts - 1 else 3)
            && b.curr == (if s.attempts > 0 || s.Deferred(u) then s.curr else u.next)
  {
    AttemptOutcome(s, u);
    ProbeIsDead(s, u);
    var a := s.Attempt(u);
    if s.attempts == 0 && !s.Deferred(u) { TriedAttempts(s, u); }
    if !s.Stops(u) {
      assert a.SendRegisterSuper(u.register) == a.(request := true);
      OverUdp(a.(request := true), u.others);
    }
  }

  lemma TriedAttempts(s: State, u: Update)
    requires s.Idle() && s.active == Udp && s.attempts == 0 && !s.Deferred(u) && !s.Switches(u.tcpFd)
    ensures s.Attempt(u).attempts == 3
  {
    ProbeIsDead(s, u);
    var a := s.SwitchToTcp(u.tcpFd);
    SwitchStarts(s, u.tcpFd);
    LeaveKeeps(a, u);
    ConnectKeeps(a.Leave(u), u.udpFd, u.tcpFd);
  }
}
