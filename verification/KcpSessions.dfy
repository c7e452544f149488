/** KCP sessions: the edge's two channels to its supernode, and the supernode's two tables of
    sessions with edges.  What the KCP library returns is an input of the operations. */
module KcpSessions {
  import opened Words
  import opened KcpPacket

  datatype Channel = Ctrl | Data

  const CHANNEL_BIT: nat := 0x8000_0000
  const IDLE_LIMIT: int := 120

  /** n2n_kcp_conv_with_channel. */
  function WithChannel(conv: nat, ch: Channel): (r: nat)
    ensures r < 0x1_0000_0000
  {
    var v := conv % CHANNEL_BIT;
    var w := if v == 0 then 1 else v;
    if ch == Data then w + CHANNEL_BIT else w
  }

  /** n2n_kcp_channel_from_conv. */
  function ChannelOf(conv: nat): Channel { if (conv / CHANNEL_BIT) % 2 == 1 then Data else Ctrl }

  /** The tag can be read back, and conversations of different channels never coincide. */
  lemma TagReadsBack(conv: nat, ch: Channel)
    ensures ChannelOf(WithChannel(conv, ch)) == ch && WithChannel(conv, ch) % CHANNEL_BIT != 0
    ensures forall c: nat, d :: d != ch ==> WithChannel(c, d) != WithChannel(conv, ch)
    ensures WithChannel(conv, ch) / 0x8000_0000 == (if ch == Data then 1 else 0)
    ensures conv % 0x8000_0000 != 0 ==> WithChannel(conv, ch) % 0x8000_0000 == conv % 0x8000_0000
  {
    forall c: nat, d | d != ch ensures WithChannel(c, d) != WithChannel(conv, ch) {
      assert c % CHANNEL_BIT < CHANNEL_BIT && conv % CHANNEL_BIT < CHANNEL_BIT;
    }
  }

  type Remote = nat

  // ---- the edge ----

  /** n2n_kcp_ctx_t. */
  datatype Ctx = Ctx(kcp: bool, remote: Remote, conv: nat, active: bool, rxCount: nat, lastSeen: int)

  /** After n2n_kcp_ctx_term. */
  const Cleared := Ctx(false, 0, 0, false, 0, 0)

  datatype EdgeOp =
    | DoSetup(remote: Remote, ch: Channel, conv: nat, dead: bool, memory: bool, created: bool, now: int)
    | DoInput(sender: Remote, buf: seq<Byte>, accepts: bool, at: int)
    | DoReset
    | DoReleaseData
    | DoSocket(open: bool)
    | DoSupernode(sn: Remote)

  datatype EdgeState = EdgeState(ctrl: Ctx, data: Ctx, ctrlConfirmed: bool, dataConfirmed: bool, udpOpen: bool, currSn: Remote) {
    function CtxOf(ch: Channel): Ctx { if ch == Data then data else ctrl }

    function ConfirmedOf(ch: Channel): bool { if ch == Data then dataConfirmed else ctrlConfirmed }

    function Put(ch: Channel, c: Ctx, confirmed: bool): EdgeState {
      if ch == Data then this.(data := c, dataConfirmed := confirmed) else this.(ctrl := c, ctrlConfirmed := confirmed)
    }

    /** A setup finds no live session with this remote, so it replaces what is there. */
    predicate Replaces(remote: Remote, ch: Channel, dead: bool) {
      var c := CtxOf(ch);
      udpOpen && !(c.active && c.kcp && c.remote == remote && !dead)
    }

    /** n2n_kcp_edge_setup_with_conv. */
    function Setup(remote: Remote, ch: Channel, conv: nat, dead: bool, memory: bool, created: bool, now: int): EdgeState {
      if !Replaces(remote, ch, dead) then this
      else if !memory then Put(ch, Cleared, false)
      else if !created then Put(ch, Cleared.(conv := WithChannel(conv, ch), remote := remote), false)
      else Put(ch, Ctx(true, remote, WithChannel(conv, ch), true, 0, now), false)
    }

    /** The datagram is a KCP packet of the session of channel `ch`, and the library accepts it. */
    predicate Accepts(sender: Remote, buf: seq<Byte>, libraryAccepts: bool, ch: Channel) {
      udpOpen && sender == currSn && IsKcp(buf) && libraryAccepts
      && var conv, c := ReadLe32(buf, 0), CtxOf(ch);
         ch == ChannelOf(conv) && c.active && c.kcp && c.remote == sender && conv == c.conv
    }

    /** What an accepted packet does to its channel. */
    function Counted(ch: Channel, now: int): EdgeState {
      var c, confirmed := CtxOf(ch), ConfirmedOf(ch);
      var n := if !confirmed && c.rxCount < 0xFF then c.rxCount + 1 else c.rxCount;
      Put(ch, c.(rxCount := n, lastSeen := now), confirmed || n >= 2)
    }

    /** n2n_kcp_edge_input. */
    function Input(sender: Remote, buf: seq<Byte>, libraryAccepts: bool, now: int): EdgeState {
      if Accepts(sender, buf, libraryAccepts, Ctrl) then Counted(Ctrl, now)
      else if Accepts(sender, buf, libraryAccepts, Data) then Counted(Data, now)
      else this
    }

    function Next(op: EdgeOp): EdgeState {
      match op
      case DoSetup(r, ch, c, d, m, k, n) => Setup(r, ch, c, d, m, k, n)
      case DoInput(s, b, a, n) => Input(s, b, a, n)
      case DoReset => this.(ctrl := Cleared, data := Cleared, ctrlConfirmed := false, dataConfirmed := false)
      case DoReleaseData => this.(data := Cleared, dataConfirmed := false)
      case DoSocket(o) => this.(udpOpen := o)
      case DoSupernode(s) => this.(currSn := s)
    }

    /** The operation sets the channel's session up anew or ends it. */
    predicate Renews(op: EdgeOp, ch: Channel) {
      match op
      case DoSetup(r, c, _, d, _, _, _) => c == ch && Replaces(r, ch, d)
      case DoReset => true
      case DoReleaseData => ch == Data
      case _ => false
    }

    predicate Takes(op: EdgeOp, ch: Channel) { op.DoInput? && Accepts(op.sender, op.buf, op.accepts, ch) }
  }

  function NoSessions(sn: Remote): EdgeState { EdgeState(Cleared, Cleared, false, false, false, sn) }

  /** A datagram is taken exactly if it comes from the current supernode, is a packet of one
      conversation and that is the one of the channel's active session with the supernode, and the
      library accepts it. */
  lemma AcceptsExactly(e: EdgeState, sender: Remote, buf: seq<Byte>, libraryAccepts: bool, ch: Channel)
    ensures e.Accepts(sender, buf, libraryAccepts, ch) <==>
              && e.udpOpen && sender == e.currSn && libraryAccepts
              && e.CtxOf(ch).active && e.CtxOf(ch).kcp && e.CtxOf(ch).remote == sender
              && ChannelOf(e.CtxOf(ch).conv) == ch && IsPacket(buf, e.CtxOf(ch).conv)
  {
    IsKcpExactly(buf);
    if IsPacket(buf, e.CtxOf(ch).conv) { ConvIsFirst(buf, e.CtxOf(ch).conv); }
  }

  /** What a setup leaves in its channel when there is no live session with the remote: a new
      session that has seen nothing yet, or none. */
  lemma SetupExactly(e: EdgeState, remote: Remote, ch: Channel, conv: nat, dead: bool, memory: bool, created: bool, now: int)
    requires e.udpOpen && !(e.CtxOf(ch).active && e.CtxOf(ch).kcp && e.CtxOf(ch).remote == remote && !dead)
    ensures var b := e.Next(DoSetup(remote, ch, conv, dead, memory, created, now)); var c := b.CtxOf(ch);
            && !b.ConfirmedOf(ch) && c.rxCount == 0 && (c.active <==> memory && created)
            && (c.active ==> c.kcp && c.remote == remote && c.lastSeen == now && ChannelOf(c.conv) == ch
                             && (conv % 0x8000_0000 != 0 ==> c.conv % 0x8000_0000 == conv % 0x8000_0000))
  {
    TagReadsBack(conv, ch);
  }

  /** An accepted packet counts for its channel, of the other nothing changes; a setup touches its
      own channel, and not a live session with the same remote. */
  lemma OtherChannel(e: EdgeState, op: EdgeOp, ch: Channel)
    requires (op.DoInput? && !e.Takes(op, ch)) || (op.DoSetup? && op.ch != ch)
             || (op.DoSetup? && (!e.udpOpen || (e.CtxOf(ch).active && e.CtxOf(ch).kcp && e.CtxOf(ch).remote == op.remote && !op.dead)))
    ensures e.Next(op).CtxOf(ch) == e.CtxOf(ch) && e.Next(op).ConfirmedOf(ch) == e.ConfirmedOf(ch)
  {
  }

  /** The edge after the first `n` operations. */
  function After(sn: Remote, ops: seq<EdgeOp>, n: nat): EdgeState
    requires n <= |ops|
    decreases n, sn, ops
  {
    if n == 0 then NoSessions(sn) else After(sn, ops, n - 1).Next(ops[n - 1])
  }

  /** The packets the channel has accepted since its session was set up or ended last. */
  function Accepted(sn: Remote, ops: seq<EdgeOp>, n: nat, ch: Channel): nat
    requires n <= |ops|
    decreases n, sn, ops, ch
  {
    if n == 0 || After(sn, ops, n - 1).Renews(ops[n - 1], ch) then 0
    else Accepted(sn, ops, n - 1, ch) + if After(sn, ops, n - 1).Takes(ops[n - 1], ch) then 1 else 0
  }

  /** With `accepted` packets since setup: a channel is confirmed exactly when its session is active
      and has accepted two packets; an active session's conversation carries the channel's tag. */
  ghost predicate ChannelOk(e: EdgeState, ch: Channel, accepted: nat) {
    var c := e.CtxOf(ch);
    && (e.ConfirmedOf(ch) ==> c.active)
    && (c.active ==> c.kcp && ChannelOf(c.conv) == ch && (e.ConfirmedOf(ch) <==> accepted >= 2))
    && (c.active && !e.ConfirmedOf(ch) ==> c.rxCount == accepted)
  }

  lemma NextKeeps(e: EdgeState, op: EdgeOp, ch: Channel, accepted: nat)
    requires ChannelOk(e, ch, accepted)
    ensures ChannelOk(e.Next(op), ch, if e.Renews(op, ch) then 0 else accepted + if e.Takes(op, ch) then 1 else 0)
  {
    if op.DoSetup? { TagReadsBack(op.conv, op.ch); }
  }

  /** In every state of every run a channel is confirmed only if its session is active and has
      accepted two packets since it was set up, and then it is; and tags are in place. */
  lemma {:induction false} RunKeeps(sn: Remote, ops: seq<EdgeOp>, n: nat, ch: Channel)
    requires n <= |ops|
    ensures ChannelOk(After(sn, ops, n), ch, Accepted(sn, ops, n, ch))
    decreases n
  {
    if n > 0 {
      RunKeeps(sn, ops, n - 1, ch);
      NextKeeps(After(sn, ops, n - 1), ops[n - 1], ch, Accepted(sn, ops, n - 1, ch));
    }
  }

  class Edge {
    var ctrl: Ctx
    var data: Ctx
    var ctrlConfirmed: bool
    var dataConfirmed: bool
    var udpOpen: bool
    var currSn: Remote

    ghost function View(): EdgeState
      reads this
    {
      EdgeState(ctrl, data, ctrlConfirmed, dataConfirmed, udpOpen, currSn)
    }

    constructor (sn: Remote)
      ensures View() == NoSessions(sn)
    {
      ctrl, data, ctrlConfirmed, dataConfirmed, udpOpen, currSn := Cleared, Cleared, false, false, false, sn;
    }

    method Put(ch: Channel, c: Ctx, confirmed: bool)
      modifies this
      ensures View() == old(View()).Put(ch, c, confirmed)
    {
      if ch == Data { data, dataConfirmed := c, confirmed; } else { ctrl, ctrlConfirmed := c, confirmed; }
    }

    /** n2n_kcp_edge_setup_with_conv: 0 also when nothing had to be done, -1 if no session could be
        created. */
    method Setup(remote: Remote, ch: Channel, conv: nat, dead: bool, memory: bool, created: bool, now: int) returns (rc: int)
      modifies this
      ensures View() == old(View()).Setup(remote, ch, conv, dead, memory, created, now)
      ensures rc == if old(View()).Replaces(remote, ch, dead) && !(memory && created) then -1 else 0
    {
      if !udpOpen { return 0; }
      var c := if ch == Data then data else ctrl;
      if c.active && c.kcp && c.remote == remote && !dead { return 0; }
      Put(ch, Cleared, false);
      if !memory { return -1; }
      var d := Cleared.(conv := WithChannel(conv, ch), remote := remote);
      if !created {
        Put(ch, d, false);
        return -1;
      }
      Put(ch, d.(kcp := true, active := true, rxCount := 0, lastSeen := now), false);
      return 0;
    }

    /** n2n_kcp_edge_input on a datagram from `sender`: 0 if it is not a KCP packet of the
        supernode, -1 if it is dropped, 1 if a session accepted it. */
    method Input(sender: Remote, buf: seq<Byte>, libraryAccepts: bool, now: int) returns (rc: int, ch: Channel)
      requires |buf| < 0x1_0000_0000
      modifies this
      ensures View() == old(View()).Input(sender, buf, libraryAccepts, now)
      ensures rc == 0 <==> !udpOpen || sender != currSn || !exists c :: IsPacket(buf, c)
      ensures rc == 1 <==> exists c :: old(View()).Accepts(sender, buf, libraryAccepts, c)
      ensures rc == 1 ==> old(View()).Accepts(sender, buf, libraryAccepts, ch)
    {
      ch := Ctrl;
      if !udpOpen || sender != currSn { return 0, Ctrl; }
      var isPacket, conv := GetConv(buf);
      if !isPacket { return 0, Ctrl; }
      ch := ChannelOf(conv);
      var c, confirmed := if ch == Data then data else ctrl, if ch == Data then dataConfirmed else ctrlConfirmed;
      if !c.active || !c.kcp || c.remote != sender { return -1, ch; }
      if conv != c.conv { return -1, ch; }
      if !libraryAccepts { return -1, ch; }
      assert View().Accepts(sender, buf, libraryAccepts, ch);
      if !confirmed && c.rxCount < 0xFF { c := c.(rxCount := c.rxCount + 1); }
      if !confirmed && c.rxCount >= 2 { confirmed := true; }
      Put(ch, c.(lastSeen := now), confirmed);
      return 1, ch;
    }

    /** edge_reset_supernode_kcp_state. */
    method Reset()
      modifies this
      ensures View() == old(View()).Next(DoReset)
    {
      ctrl, data, ctrlConfirmed, dataConfirmed := Cleared, Cleared, false, false;
    }

    /** The data session is released when it is dead or idle. */
    method ReleaseData()
      modifies this
      ensures View() == old(View()).Next(DoReleaseData)
    {
      data, dataConfirmed := Cleared, false;
    }
  }

  /** A run of the edge's sessions: it ends where the machine ends, so confirmed means active with
      two packets accepted since setup, and the tags of the channels are in place. */
  method RunEdge(sn: Remote, ops: seq<EdgeOp>) returns (e: Edge)
    requires forall i :: 0 <= i < |ops| && ops[i].DoInput? ==> |ops[i].buf| < 0x1_0000_0000
    ensures e.View() == After(sn, ops, |ops|)
    ensures forall ch :: e.View().ConfirmedOf(ch) <==> e.View().CtxOf(ch).active && Accepted(sn, ops, |ops|, ch) >= 2
    ensures e.ctrl.active && e.data.active ==> e.ctrl.conv != e.data.conv
  {
    e := new Edge(sn);
    for i := 0 to |ops|
      invariant fresh(e) && e.View() == After(sn, ops, i)
    {
      match ops[i]
      case DoSetup(r, ch, c, d, m, k, n) => var _ := e.Setup(r, ch, c, d, m, k, n);
      case DoInput(s, b, ok, n) => var _, _ := e.Input(s, b, ok, n);
      case DoReset => e.Reset();
      case DoReleaseData => e.ReleaseData();
      case DoSocket(o) => e.udpOpen := o;
      case DoSupernode(s) => e.currSn := s;
    }
    RunKeeps(sn, ops, |ops|, Ctrl);
    RunKeeps(sn, ops, |ops|, Data);
  }

  // ---- the supernode ----

  datatype Session = Session(remote: Remote, conv: nat, lastSeen: int)

  /** At most one session per remote, all of them of this channel. */
  ghost predicate TableOk(t: seq<Session>, ch: Channel) {
    && (forall i, j {:trigger t[i], t[j]} :: 0 <= i < j < |t| ==> t[i].remote != t[j].remote)
    && forall i {:trigger t[i]} :: 0 <= i < |t| ==> ChannelOf(t[i].conv) == ch
  }

  ghost predicate Absent(t: seq<Session>, remote: Remote) { forall i {:trigger t[i]} :: 0 <= i < |t| ==> t[i].remote != remote }

  /** HASH_FIND by the remote's address: its index, or the length of the table. */
  function Find(t: seq<Session>, remote: Remote): (k: nat)
    ensures k <= |t| && (k < |t| ==> t[k].remote == remote) && forall i {:trigger t[i]} :: 0 <= i < k ==> t[i].remote != remote
  {
    if t == [] || t[0].remote == remote then 0
    else
      var k := Find(t[1..], remote);
      assert forall i {:trigger t[i]} :: 1 <= i < k + 1 ==> t[i] == t[1..][i - 1];
      k + 1
  }

  function Without(t: seq<Session>, k: nat): (u: seq<Session>)
    requires k < |t|
    ensures |u| == |t| - 1 && forall i {:trigger u[i]} :: 0 <= i < |u| ==> u[i] == t[if i < k then i else i + 1]
  {
    t[..k] + t[k + 1..]
  }

  lemma WithoutKeeps(t: seq<Session>, k: nat, ch: Channel)
    requires TableOk(t, ch) && k < |t|
    ensures TableOk(Without(t, k), ch) && Absent(Without(t, k), t[k].remote)
  {
  }

  /** The session of this remote is removed, if there is one. */
  function Forget(t: seq<Session>, remote: Remote): seq<Session> {
    var k := Find(t, remote);
    if k < |t| then Without(t, k) else t
  }

  lemma ForgetKeeps(t: seq<Session>, remote: Remote, ch: Channel)
    requires TableOk(t, ch)
    ensures TableOk(Forget(t, remote), ch) && Absent(Forget(t, remote), remote)
  {
    var k := Find(t, remote);
    if k < |t| { WithoutKeeps(t, k, ch); }
  }

  /** A live session of this remote and conversation. */
  predicate Reusable(t: seq<Session>, remote: Remote, conv: nat, dead: bool) {
    var k := Find(t, remote);
    k < |t| && !dead && t[k].conv == conv
  }

  /** n2n_kcp_sn_find_or_create: a live session of this conversation is kept, any other of the
      remote replaced. */
  function Served(t: seq<Session>, remote: Remote, conv: nat, dead: bool, memory: bool, now: int): seq<Session> {
    if Reusable(t, remote, conv, dead) then t
    else if memory then Forget(t, remote) + [Session(remote, conv, now)] else Forget(t, remote)
  }

  /** The table after a packet was given to its session: one the library refuses leaves nothing
      behind that was not there. */
  function Delivered(t: seq<Session>, remote: Remote, conv: nat, dead: bool, memory: bool, libraryAccepts: bool, now: int): seq<Session> {
    if Reusable(t, remote, conv, dead) then
      if libraryAccepts then t[Find(t, remote) := Session(remote, conv, now)] else t
    else if memory && libraryAccepts then Forget(t, remote) + [Session(remote, conv, now)]
    else Forget(t, remote)
  }

  lemma DeliveredKeeps(t: seq<Session>, ch: Channel, remote: Remote, conv: nat, dead: bool, memory: bool, libraryAccepts: bool, now: int)
    requires TableOk(t, ch) && ChannelOf(conv) == ch
    ensures TableOk(Delivered(t, remote, conv, dead, memory, libraryAccepts, now), ch)
  {
    var s := Session(remote, conv, now);
    if Reusable(t, remote, conv, dead) {
      ReplaceKeeps(t, Find(t, remote), s, ch);
    } else {
      ForgetKeeps(t, remote, ch);
      AppendKeeps(Forget(t, remote), s, ch);
    }
  }

  lemma ReplaceKeeps(t: seq<Session>, k: nat, s: Session, ch: Channel)
    requires TableOk(t, ch) && k < |t| && s.remote == t[k].remote && ChannelOf(s.conv) == ch
    ensures TableOk(t[k := s], ch)
  {
  }

  lemma AppendKeeps(t: seq<Session>, s: Session, ch: Channel)
    requires TableOk(t, ch) && Absent(t, s.remote) && ChannelOf(s.conv) == ch
    ensures TableOk(t + [s], ch)
  {
  }

  lemma ForgetOthers(t: seq<Session>, remote: Remote, s: Session)
    requires s.remote != remote
    ensures s in Forget(t, remote) <==> s in t
  {
    var k := Find(t, remote);
    if k < |t| { assert t == t[..k] + [t[k]] + t[k + 1..]; }
  }

  /** A packet affects the sessions of no other remote. */
  lemma OthersUnaffected(t: seq<Session>, remote: Remote, conv: nat, dead: bool, memory: bool, libraryAccepts: bool, now: int, s: Session)
    requires s.remote != remote
    ensures s in Served(t, remote, conv, dead, memory, now) <==> s in t
    ensures s in Delivered(t, remote, conv, dead, memory, libraryAccepts, now) <==> s in t
  {
    ForgetOthers(t, remote, s);
    if Reusable(t, remote, conv, dead) { UpdateOthers(t, Find(t, remote), Session(remote, conv, now), s); }
  }

  /** A packet of a live session leaves the table as it is, but for the time if the library accepts
      it; any other packet leaves the remote no other session than one of its own conversation,
      made now and accepted. */
  lemma DeliveredExactly(t: seq<Session>, ch: Channel, remote: Remote, conv: nat, dead: bool, memory: bool, libraryAccepts: bool, now: int, i: nat)
    requires TableOk(t, ch)
    ensures var d := Delivered(t, remote, conv, dead, memory, libraryAccepts, now);
            && (i < |t| && t[i].remote == remote && t[i].conv == conv && !dead ==>
                  d == if libraryAccepts then t[i := Session(remote, conv, now)] else t)
            && (Absent(t, remote) || dead || (i < |t| && t[i].remote == remote && t[i].conv != conv) ==>
                  if memory && libraryAccepts then |d| > 0 && d[|d| - 1] == Session(remote, conv, now) && Absent(d[..|d| - 1], remote)
                  else Absent(d, remote))
  {
    ForgetKeeps(t, remote, ch);
    var k := Find(t, remote);
    if i < |t| && t[i].remote == remote { assert k == i; }
  }

  lemma UpdateOthers(t: seq<Session>, k: nat, v: Session, s: Session)
    requires k < |t| && v.remote == t[k].remote && s.remote != v.remote
    ensures s in t[k := v] <==> s in t
  {
    var u := t[k := v];
    if s in t {
      var i :| 0 <= i < |t| && t[i] == s;
      assert u[i] == s;
    }
  }

  /** Marking the session that serves the packet as seen. */
  lemma Touched(t: seq<Session>, remote: Remote, conv: nat, dead: bool, memory: bool, now: int, k: nat)
    requires Reusable(t, remote, conv, dead) || memory
    requires k == if Reusable(t, remote, conv, dead) then Find(t, remote) else |Forget(t, remote)|
    ensures var u := Served(t, remote, conv, dead, memory, now);
            k < |u| && u[k].remote == remote && u[k].conv == conv
            && u[k := u[k].(lastSeen := now)] == Delivered(t, remote, conv, dead, memory, true, now)
  {
    var u := Served(t, remote, conv, dead, memory, now);
    if !Reusable(t, remote, conv, dead) { assert u[k := u[k].(lastSeen := now)] == u; }
  }

  lemma LastRemoved(t: seq<Session>, s: Session)
    ensures Without(t + [s], |t|) == t
  {
  }

  predicate Keep(s: Session, dead: Remote -> bool, now: int) { !dead(s.remote) && now - s.lastSeen <= IDLE_LIMIT }

  function Kept(t: seq<Session>, dead: Remote -> bool, now: int): seq<Session> {
    if t == [] then [] else (if Keep(t[0], dead, now) then [t[0]] else []) + Kept(t[1..], dead, now)
  }

  /** What a sweep keeps. */
  lemma {:induction false} KeptExactly(t: seq<Session>, dead: Remote -> bool, now: int, s: Session)
    ensures s in Kept(t, dead, now) <==> s in t && !dead(s.remote) && now - s.lastSeen <= 120
  {
    if t != [] { KeptExactly(t[1..], dead, now, s); }
  }

  lemma {:induction false} KeptOk(t: seq<Session>, dead: Remote -> bool, now: int, ch: Channel)
    requires TableOk(t, ch)
    ensures TableOk(Kept(t, dead, now), ch)
    ensures forall i {:trigger Kept(t, dead, now)[i]} :: 0 <= i < |Kept(t, dead, now)| ==> Kept(t, dead, now)[i] in t
  {
    if t != [] {
      var rest := t[1..];
      assert forall i {:trigger rest[i]} :: 0 <= i < |rest| ==> rest[i] == t[i + 1];
      KeptOk(rest, dead, now, ch);
      assert forall s :: s in rest ==> s.remote != t[0].remote;
    }
  }

  lemma Regroup(a: seq<Session>, b: seq<Session>, c: seq<Session>)
    ensures a + (b + c) == (a + b) + c
  {
  }

  lemma {:induction false} KeptSplits(t: seq<Session>, u: seq<Session>, dead: Remote -> bool, now: int)
    ensures Kept(t + u, dead, now) == Kept(t, dead, now) + Kept(u, dead, now)
  {
    if t == [] {
      assert t + u == u;
    } else {
      assert (t + u)[1..] == t[1..] + u && (t + u)[0] == t[0];
      KeptSplits(t[1..], u, dead, now);
      var first := if Keep(t[0], dead, now) then [t[0]] else [];
      Regroup(first, Kept(t[1..], dead, now), Kept(u, dead, now));
    }
  }

  datatype SnOp =
    | SnInput(remote: Remote, buf: seq<Byte>, dead: bool, memory: bool, accepts: bool, now: int)
    | SnSend(ch: Channel, remote: Remote, dead: bool, otherDead: bool)
    | SnSweep(deadCtrl: Remote -> bool, deadData: Remote -> bool, now: int)

  datatype SnState = SnState(ctrl: seq<Session>, data: seq<Session>) {
    function Table(ch: Channel): seq<Session> { if ch == Data then data else ctrl }

    function Put(ch: Channel, t: seq<Session>): SnState { if ch == Data then this.(data := t) else this.(ctrl := t) }

    /** n2n_kcp_sn_process_input. */
    function Input(remote: Remote, buf: seq<Byte>, dead: bool, memory: bool, libraryAccepts: bool, now: int): SnState {
      if !IsKcp(buf) then this
      else
        var conv := ReadLe32(buf, 0);
        var ch := ChannelOf(conv);
        Put(ch, Delivered(Table(ch), remote, conv, dead, memory, libraryAccepts, now))
    }

    /** A dead session of the remote is dropped. */
    function Purge(ch: Channel, remote: Remote, dead: bool): SnState {
      if dead then Put(ch, Forget(Table(ch), remote)) else this
    }

    /** There is a session to send with. */
    predicate Has(ch: Channel, remote: Remote) { Find(Table(ch), remote) < |Table(ch)| }

    /** n2n_kcp_sn_find_send_ctx: the asked channel first, then the other one. */
    function Send(ch: Channel, remote: Remote, dead: bool, otherDead: bool): SnState {
      var a := Purge(ch, remote, dead);
      if a.Has(ch, remote) then a else a.Purge(if ch == Data then Ctrl else Data, remote, otherDead)
    }

    /** n2n_kcp_sn_update. */
    function Sweep(deadCtrl: Remote -> bool, deadData: Remote -> bool, now: int): SnState {
      SnState(Kept(ctrl, deadCtrl, now), Kept(data, deadData, now))
    }

    function Next(op: SnOp): SnState {
      match op
      case SnInput(r, b, d, m, a, n) => Input(r, b, d, m, a, n)
      case SnSend(ch, r, d, o) => Send(ch, r, d, o)
      case SnSweep(c, d, n) => Sweep(c, d, n)
    }

    ghost predicate Valid() { TableOk(ctrl, Ctrl) && TableOk(data, Data) }
  }

  lemma PurgeKeeps(s: SnState, ch: Channel, remote: Remote, dead: bool)
    requires s.Valid()
    ensures s.Purge(ch, remote, dead).Valid()
    ensures dead ==> Absent(s.Purge(ch, remote, dead).Table(ch), remote) && !s.Purge(ch, remote, dead).Has(ch, remote)
  {
    ForgetKeeps(s.Table(ch), remote, ch);
  }

  /** Sending: a dead session is dropped and never used. */
  lemma SendOutcome(s: SnState, ch: Channel, remote: Remote, dead: bool, otherDead: bool)
    requires s.Valid()
    ensures var b := s.Send(ch, remote, dead, otherDead);
            b.Valid() && (dead ==> Absent(b.Table(ch), remote))
            && (!b.Has(ch, remote) && otherDead ==> Absent(b.Table(if ch == Data then Ctrl else Data), remote))
  {
    PurgeKeeps(s, ch, remote, dead);
    PurgeKeeps(s.Purge(ch, remote, dead), if ch == Data then Ctrl else Data, remote, otherDead);
  }

  function Opposite(ch: Channel): Channel { if ch == Data then Ctrl else Data }

  /** Which session is found, by the tables before: a live one of the asked channel, with nothing
      changed; else a live one of the other channel, whose table stays; else none. */
  lemma SendExactly(s: SnState, ch: Channel, remote: Remote, dead: bool, otherDead: bool)
    requires s.Valid()
    ensures var b, o := s.Send(ch, remote, dead, otherDead), Opposite(ch);
            && (!Absent(s.Table(ch), remote) && !dead ==> b == s && b.Has(ch, remote))
            && ((Absent(s.Table(ch), remote) || dead) && !Absent(s.Table(o), remote) && !otherDead ==>
                  b.Table(o) == s.Table(o) && b.Has(o, remote) && !b.Has(ch, remote))
            && ((Absent(s.Table(ch), remote) || dead) && (Absent(s.Table(o), remote) || otherDead) ==>
                  !b.Has(ch, remote) && !b.Has(o, remote))
  {
    PurgeKeeps(s, ch, remote, dead);
    PurgeKeeps(s.Purge(ch, remote, dead), Opposite(ch), remote, otherDead);
  }

  /** And no session of another remote is touched, in either table. */
  lemma SendOthers(s: SnState, ch: Channel, remote: Remote, dead: bool, otherDead: bool, c: Channel, t: Session)
    requires t.remote != remote
    ensures t in s.Send(ch, remote, dead, otherDead).Table(c) <==> t in s.Table(c)
  {
    ForgetOthers(s.ctrl, remote, t);
    ForgetOthers(s.data, remote, t);
  }

  lemma SnNextKeeps(s: SnState, op: SnOp)
    requires s.Valid()
    ensures s.Next(op).Valid()
  {
    match op
    case SnInput(r, b, d, m, a, n) =>
      if IsKcp(b) {
        var conv := ReadLe32(b, 0);
        DeliveredKeeps(s.Table(ChannelOf(conv)), ChannelOf(conv), r, conv, d, m, a, n);
      }
    case SnSend(ch, r, d, o) => SendOutcome(s, ch, r, d, o);
    case SnSweep(c, d, n) =>
      KeptOk(s.ctrl, c, n, Ctrl);
      KeptOk(s.data, d, n, Data);
  }

  /** The tables after the first `n` operations. */
  function SnAfter(ops: seq<SnOp>, n: nat): SnState
    requires n <= |ops|
    decreases n, ops
  {
    if n == 0 then SnState([], []) else SnAfter(ops, n - 1).Next(ops[n - 1])
  }

  /** In every state of every run a table has at most one session per remote, all of its channel. */
  lemma {:induction false} SnRunKeeps(ops: seq<SnOp>, n: nat)
    requires n <= |ops|
    ensures SnAfter(ops, n).Valid()
    decreases n
  {
    if n > 0 {
      SnRunKeeps(ops, n - 1);
      SnNextKeeps(SnAfter(ops, n - 1), ops[n - 1]);
    }
  }

  /** The first `n` sessions of `was` have been swept: what is left of them are the first `i` of `t`. */
  ghost predicate Swept(was: seq<Session>, n: nat, t: seq<Session>, i: nat, dead: Remote -> bool, now: int) {
    n <= |was| && i <= |t| && t[..i] == Kept(was[..n], dead, now) && t[i..] == was[n..]
  }

  lemma SweepStep(was: seq<Session>, n: nat, t: seq<Session>, i: nat, dead: Remote -> bool, now: int)
    requires Swept(was, n, t, i, dead, now) && i < |t|
    ensures Keep(t[i], dead, now) ==> Swept(was, n + 1, t, i + 1, dead, now)
    ensures !Keep(t[i], dead, now) ==> Swept(was, n + 1, Without(t, i), i, dead, now)
  {
    assert t[i] == t[i..][0] == was[n];
    assert t[i + 1..] == t[i..][1..] == was[n + 1..];
    assert was[..n + 1] == was[..n] + [was[n]];
    KeptSplits(was[..n], [was[n]], dead, now);
    assert Kept([was[n]], dead, now) == if Keep(was[n], dead, now) then [was[n]] else [];
    if Keep(t[i], dead, now) {
      assert t[..i + 1] == t[..i] + [t[i]];
    } else {
      var u := Without(t, i);
      assert u[..i] == t[..i] && u[i..] == t[i + 1..];
    }
  }

  lemma SweepDone(was: seq<Session>, n: nat, t: seq<Session>, i: nat, dead: Remote -> bool, now: int)
    requires Swept(was, n, t, i, dead, now) && i == |t|
    ensures t == Kept(was, dead, now)
  {
    assert t[i..] == [] && was[..n] == was && t[..i] == t;
  }

  /** The remote has a session whose conversation the datagram belongs to. */
  ghost predicate HasLive(s: SnState, remote: Remote, buf: seq<Byte>) {
    s.Valid() && exists c, i :: 0 <= i < |s.Table(c)| && s.Table(c)[i].remote == remote && IsPacket(buf, s.Table(c)[i].conv)
  }

  /** A packet of a live session that the library refuses changes nothing. */
  lemma RefusedKeeps(s: SnState, remote: Remote, buf: seq<Byte>, memory: bool, now: int)
    requires HasLive(s, remote, buf)
    ensures s.Input(remote, buf, false, memory, false, now) == s
  {
    var c, i :| 0 <= i < |s.Table(c)| && s.Table(c)[i].remote == remote && IsPacket(buf, s.Table(c)[i].conv);
    var conv := s.Table(c)[i].conv;
    ConvIsFirst(buf, conv);
    assert ChannelOf(conv) == c;
    DeliveredExactly(s.Table(c), c, remote, conv, false, memory, false, now, i);
  }

  class Supernode {
    var ctrl: seq<Session>
    var data: seq<Session>

    ghost function View(): SnState
      reads this
    {
      SnState(ctrl, data)
    }

    constructor ()
      ensures View() == SnState([], [])
    {
      ctrl, data := [], [];
    }

    function Table(ch: Channel): seq<Session>
      reads this
    {
      if ch == Data then data else ctrl
    }

    method Put(ch: Channel, t: seq<Session>)
      modifies this
      ensures View() == old(View()).Put(ch, t)
    {
      if ch == Data { data := t; } else { ctrl := t; }
    }

    /** n2n_kcp_sn_find_or_create: the index of the session that now serves this remote and
        conversation, or -1 if none could be created. */
    method FindOrCreate(ch: Channel, remote: Remote, conv: nat, dead: bool, memory: bool, now: int) returns (k: int, created: bool)
      modifies this
      ensures View() == old(View()).Put(ch, Served(old(Table(ch)), remote, conv, dead, memory, now))
      ensures created <==> !Reusable(old(Table(ch)), remote, conv, dead) && memory
      ensures k == if Reusable(old(Table(ch)), remote, conv, dead) then Find(old(Table(ch)), remote)
                   else if memory then |Table(ch)| - 1 else -1
    {
      var t := Table(ch);
      k := Find(t, remote);
      if k < |t| {
        if !dead && t[k].conv == conv { return k, false; }
        t := Without(t, k);
      }
      Put(ch, t);
      if !memory { return -1, false; }
      Put(ch, t + [Session(remote, conv, now)]);
      return |t|, true;
    }

    /** n2n_kcp_sn_process_input. */
    method ProcessInput(remote: Remote, buf: seq<Byte>, dead: bool, memory: bool, libraryAccepts: bool, now: int) returns (rc: int, ch: Channel)
      requires |buf| < 0x1_0000_0000
      modifies this
      ensures View() == old(View()).Input(remote, buf, dead, memory, libraryAccepts, now)
      ensures (!exists c :: IsPacket(buf, c)) ==> rc == 0
      ensures (exists c :: IsPacket(buf, c)) && memory ==> rc == if libraryAccepts then 1 else -1
      ensures !dead && !libraryAccepts && old(HasLive(View(), remote, buf)) ==> View() == old(View())
      ensures rc == 1 ==> exists i :: 0 <= i < |Table(ch)| && Table(ch)[i].remote == remote
                            && Table(ch)[i].lastSeen == now && IsPacket(buf, Table(ch)[i].conv)
    {
      if HasLive(View(), remote, buf) { RefusedKeeps(View(), remote, buf, memory, now); }
      var isPacket, conv := GetConv(buf);
      if !isPacket { return 0, Ctrl; }
      ch := ChannelOf(conv);
      rc := Deliver(ch, remote, conv, dead, memory, libraryAccepts, now);
    }

    method Deliver(ch: Channel, remote: Remote, conv: nat, dead: bool, memory: bool, libraryAccepts: bool, now: int) returns (rc: int)
      modifies this
      ensures View() == old(View()).Put(ch, Delivered(old(Table(ch)), remote, conv, dead, memory, libraryAccepts, now))
      ensures memory ==> rc == if libraryAccepts then 1 else -1
      ensures rc == 1 ==> exists i :: 0 <= i < |Table(ch)| && Table(ch)[i] == Session(remote, conv, now)
    {
      var k, created := FindOrCreate(ch, remote, conv, dead, memory, now);
      if k < 0 { return 0; }
      var t := Table(ch);
      if !libraryAccepts {
        if created {
          LastRemoved(Forget(old(Table(ch)), remote), Session(remote, conv, now));
          Put(ch, Without(t, k));
        }
        return -1;
      }
      var u := t[k := t[k].(lastSeen := now)];
      Touched(old(Table(ch)), remote, conv, dead, memory, now, k);
      Put(ch, u);
      assert Table(ch)[k] == Session(remote, conv, now);
      return 1;
    }

    /** One half of n2n_kcp_sn_find_send_ctx. */
    method Live(ch: Channel, remote: Remote, dead: bool) returns (live: bool)
      requires View().Valid()
      modifies this
      ensures View() == old(View()).Purge(ch, remote, dead) && live == View().Has(ch, remote)
    {
      PurgeKeeps(View(), ch, remote, dead);
      var t := Table(ch);
      var k := Find(t, remote);
      if k == |t| { return false; }
      if dead {
        Put(ch, Without(t, k));
        return false;
      }
      return true;
    }

    /** n2n_kcp_sn_find_send_ctx: never a dead session. */
    method FindSend(ch: Channel, remote: Remote, dead: bool, otherDead: bool) returns (found: bool, actual: Channel)
      requires View().Valid()
      modifies this
      ensures View() == old(View()).Send(ch, remote, dead, otherDead) && View().Valid()
      ensures found <==> View().Has(actual, remote)
      ensures actual != ch ==> !View().Has(ch, remote)
      ensures dead ==> Absent(Table(ch), remote)
      ensures old(!Absent(Table(ch), remote)) && !dead ==> found && actual == ch && View() == old(View())
      ensures old(Absent(Table(ch), remote)) || dead ==>
                (found <==> old(!Absent(Table(Opposite(ch)), remote)) && !otherDead)
      ensures (old(Absent(Table(ch), remote)) || dead) && found ==>
                actual == Opposite(ch) && Table(Opposite(ch)) == old(Table(Opposite(ch)))
    {
      SendOutcome(View(), ch, remote, dead, otherDead);
      SendExactly(View(), ch, remote, dead, otherDead);
      PurgeKeeps(View(), ch, remote, dead);
      actual := ch;
      found := Live(ch, remote, dead);
      if found { return; }
      actual := if ch == Data then Ctrl else Data;
      found := Live(actual, remote, otherDead);
    }

    /** One table of n2n_kcp_sn_update. */
    method SweepTable(ch: Channel, dead: Remote -> bool, now: int)
      modifies this
      ensures View() == old(View()).Put(ch, Kept(old(Table(ch)), dead, now))
    {
      var i := 0;
      ghost var was := Table(ch);
      ghost var n := 0;
      while i < |Table(ch)|
        invariant View() == old(View()).Put(ch, Table(ch))
        invariant 0 <= i <= |Table(ch)| && 0 <= n && Swept(was, n, Table(ch), i, dead, now)
        decreases |Table(ch)| - i
      {
        var t := Table(ch);
        SweepStep(was, n, t, i, dead, now);
        if dead(t[i].remote) || now - t[i].lastSeen > IDLE_LIMIT {
          Put(ch, Without(t, i));
        } else {
          i := i + 1;
        }
        n := n + 1;
      }
      SweepDone(was, n, Table(ch), i, dead, now);
    }

    /** n2n_kcp_sn_update: exactly the sessions that are neither dead nor idle remain. */
    method Sweep(deadCtrl: Remote -> bool, deadData: Remote -> bool, now: int)
      modifies this
      ensures View() == old(View()).Sweep(deadCtrl, deadData, now)
    {
      SweepTable(Ctrl, deadCtrl, now);
      SweepTable(Data, deadData, now);
    }
  }

  /** A run of the supernode's tables ends where the machine ends: never two sessions for one
      remote in a table. */
  method RunSupernode(ops: seq<SnOp>) returns (sn: Supernode)
    requires forall i :: 0 <= i < |ops| && ops[i].SnInput? ==> |ops[i].buf| < 0x1_0000_0000
    ensures sn.View() == SnAfter(ops, |ops|) && sn.View().Valid()
  {
    sn := new Supernode();
    for i := 0 to |ops|
      invariant fresh(sn) && sn.View() == SnAfter(ops, i)
    {
      SnRunKeeps(ops, i);
      match ops[i]
      case SnInput(r, b, d, m, a, n) => var _, _ := sn.ProcessInput(r, b, d, m, a, n);
      case SnSend(ch, r, d, o) => var _, _ := sn.FindSend(ch, r, d, o);
      case SnSweep(c, d, n) => sn.Sweep(c, d, n);
    }
    SnRunKeeps(ops, |ops|);
  }
}
