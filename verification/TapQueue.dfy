/** The queue of TAP packets between the reader thread, which fills it, and the main thread,
    which sends the packets and sleeps in select() when there are none. */
module TapQueue {

  type Packet = seq<bv8>

  const MAX_PACKETS: nat := 1024
  const MAX_BYTES: nat := 4 * 1024 * 1024
  const DRAIN_BUDGET: nat := 128

  function Total(q: seq<Packet>): nat { if q == [] then 0 else |q[0]| + Total(q[1..]) }

  lemma {:induction false} TotalAppend(q: seq<Packet>, p: Packet)
    ensures Total(q + [p]) == Total(q) + |p|
  {
    if q != [] {
      assert (q + [p])[1..] == q[1..] + [p];
      TotalAppend(q[1..], p);
    }
  }

  /** The packet can be added within both limits. */
  predicate Fits(q: seq<Packet>, p: Packet) { |q| < MAX_PACKETS && Total(q) + |p| <= MAX_BYTES }

  /** Sizes the queue takes at all. */
  predicate Acceptable(p: Packet) { 0 < |p| <= 0xFFFF }

  /** How many of the oldest packets have to go before the new one fits. */
  function ToDrop(q: seq<Packet>, p: Packet): (k: nat)
    ensures k <= |q|
  {
    if q == [] || Fits(q, p) then 0 else 1 + ToDrop(q[1..], p)
  }

  lemma SplitsAt(q: seq<Packet>, a: seq<Packet>, b: seq<Packet>)
    requires q == a + b
    ensures q[|a|..] == b && q[..|a|] == a
  {
  }

  lemma DropOne(q: seq<Packet>, p: Packet)
    requires q != [] && !Fits(q, p)
    ensures ToDrop(q, p) == 1 + ToDrop(q[1..], p)
  {
  }

  /** No fewer would do, and that many do; the last packet is never dropped. */
  lemma {:induction false} ToDropLeast(q: seq<Packet>, p: Packet)
    requires Acceptable(p) && AllAcceptable(q)
    ensures Fits(q[ToDrop(q, p)..], p)
    ensures forall k :: 0 <= k < ToDrop(q, p) ==> !Fits(q[k..], p)
    ensures q != [] ==> ToDrop(q, p) < |q|
  {
    if q != [] && !Fits(q, p) {
      LongerThanOne(q, p);
      ToDropLeast(q[1..], p);
      forall k | 0 <= k < ToDrop(q, p) ensures !Fits(q[k..], p) {
        if k > 0 { assert q[k..] == q[1..][k - 1..]; }
      }
      assert q[ToDrop(q, p)..] == q[1..][ToDrop(q[1..], p)..];
    }
  }

  ghost predicate AllAcceptable(q: seq<Packet>) { forall i {:trigger q[i]} :: 0 <= i < |q| ==> Acceptable(q[i]) }

  /** A queue that is over a limit holds more than one packet, so making room never empties it. */
  lemma LongerThanOne(q: seq<Packet>, p: Packet)
    requires Acceptable(p) && AllAcceptable(q) && !Fits(q, p)
    ensures |q| > 1
  {
    if |q| <= 1 { ShortFits(q, p); }
  }

  lemma ShortFits(q: seq<Packet>, p: Packet)
    requires Acceptable(p) && |q| <= 1 && AllAcceptable(q)
    ensures Fits(q, p)
  {
    if |q| == 1 { assert Total(q[1..]) == 0 && Acceptable(q[0]); }
  }

  function Minus(a: nat, b: nat): nat { if a >= b then a - b else 0 }

  class Queue {
    var entries: seq<Packet>   // the linked list from head to tail
    var count: nat
    var bytes: nat
    var wakePending: bool

    /** The counters agree with the list and stay within the limits, and a wake-up is pending
        exactly when there is something to send. */
    ghost predicate Valid()
      reads this
    {
      && count == |entries| <= MAX_PACKETS
      && bytes == Total(entries) <= MAX_BYTES
      && (wakePending <==> entries != [])
      && AllAcceptable(entries)
    }

    constructor ()
      ensures Valid() && entries == []
    {
      entries, count, bytes, wakePending := [], 0, 0, false;
    }

    /** The head leaves the list; shared by dropping and dequeueing. */
    method RemoveHead() returns (p: Packet)
      requires Valid() && entries != []
      modifies this
      ensures Valid() && old(entries) == [p] + entries
    {
      p := entries[0];
      entries := entries[1..];
      if count > 0 { count := count - 1; }
      bytes := Minus(bytes, |p|);
      if entries == [] { wakePending := false; }
    }

    /** The oldest packets are dropped until the new one fits. */
    method MakeRoom(p: Packet) returns (dropped: seq<Packet>)
      requires Valid() && Acceptable(p)
      modifies this
      ensures Valid() && Fits(entries, p)
      ensures var k := ToDrop(old(entries), p); dropped == old(entries)[..k] && entries == old(entries)[k..]
    {
      dropped := [];
      ghost var q := entries;
      while entries != [] && (count >= MAX_PACKETS || bytes + |p| > MAX_BYTES)
        invariant Valid() && q == dropped + entries
        invariant |dropped| + ToDrop(entries, p) == ToDrop(q, p)
        decreases |entries|
      {
        DropOne(entries, p);
        ghost var rest := entries[1..];
        var head := RemoveHead();
        assert entries == rest && q == dropped + ([head] + entries) == (dropped + [head]) + entries;
        dropped := dropped + [head];
      }
      SplitsAt(q, dropped, entries);
      ToDropLeast(q, p);
    }

    /** The locked part of edge_queue_tap_tx_packet.  The oldest packets make room, and only as
        many as needed; the new packet is always taken; the caller has to wake the main thread
        exactly when the queue was empty. */
    method Enqueue(p: Packet) returns (needWake: bool, dropped: seq<Packet>)
      requires Valid() && Acceptable(p)
      modifies this
      ensures Valid()
      ensures var k := ToDrop(old(entries), p); dropped == old(entries)[..k] && entries == old(entries)[k..] + [p]
      ensures needWake <==> old(entries) == []
    {
      ToDropLeast(entries, p);
      dropped := MakeRoom(p);
      if count >= MAX_PACKETS || bytes + |p| > MAX_BYTES {
        // "queue is full" is never reached: an empty queue takes every acceptable packet
        assert false;
      }
      var wasEmpty := entries == [];
      TotalAppend(entries, p);
      entries := entries + [p];
      count, bytes := count + 1, bytes + |p|;
      needWake := false;
      if wasEmpty && !wakePending {
        wakePending := true;
        needWake := true;
      }
    }

    /** edge_tap_tx_dequeue_packet. */
    method Dequeue() returns (r: seq<Packet>)
      requires Valid()
      modifies this
      ensures Valid() && old(entries) == r + entries
      ensures |r| == if old(entries) == [] then 0 else 1
    {
      if entries == [] { return []; }
      var p := RemoveHead();
      r := [p];
    }
  }

  // ---- the two threads ----

  datatype ReaderAt = Reading | AboutToSignal

  /** Where the main loop is: before the test for pending packets; in select, waiting without
      time or for a wake-up; after select; sending, with so many packets left in its budget. */
  datatype MainAt = Top | InSelect(blocking: bool) | AfterSelect(wake: bool) | Flushing(left: nat)

  /** The atomic steps: what each thread does under the lock or in one system call. */
  datatype Act =
    | ReaderQueues(packet: Packet)
    | ReaderSignals
    | MainChecks
    | SelectReturns
    | MainDrains
    | MainDequeues

  datatype Removal = Removal(packet: Packet, sent: bool)

  function Packets(r: seq<Removal>): (q: seq<Packet>)
    ensures |q| == |r|
  {
    seq(|r|, i requires 0 <= i < |r| => r[i].packet)
  }

  function Dropped(q: seq<Packet>): (r: seq<Removal>)
    ensures |r| == |q| && Packets(r) == q
  {
    seq(|q|, i requires 0 <= i < |q| => Removal(q[i], false))
  }

  /** The queue, where the threads are, the unread wake-up datagrams, everything ever put into the
      queue, and everything that has left it, in order. */
  datatype Machine = Machine(entries: seq<Packet>, reader: ReaderAt, main: MainAt, datagrams: nat,
                             enqueued: seq<Packet>, removed: seq<Removal>) {
    /** The act is possible where its thread is. */
    predicate Enabled(a: Act) {
      match a
      case ReaderQueues(_) => reader == Reading
      case ReaderSignals => reader == AboutToSignal
      case MainChecks => main == Top
      case SelectReturns => main.InSelect?
      case MainDrains => main.AfterSelect?
      case MainDequeues => main.Flushing?
    }

    function Queued(p: Packet): Machine {
      if !Acceptable(p) then this
      else
        var k := ToDrop(entries, p);
        Machine(entries[k..] + [p], if entries == [] then AboutToSignal else Reading, main, datagrams,
                enqueued + [p], removed + Dropped(entries[..k]))
    }

    function Step(a: Act): Machine
      requires Enabled(a)
    {
      match a
      case ReaderQueues(p) => Queued(p)
      case ReaderSignals => this.(reader := Reading, datagrams := datagrams + 1)
      case MainChecks => this.(main := InSelect(entries == []))
      case SelectReturns => this.(main := AfterSelect(datagrams > 0))
      case MainDrains =>
        if main.wake && datagrams > 0 then this.(datagrams := datagrams - 1) else this.(main := Flushing(DRAIN_BUDGET))
      case MainDequeues =>
        if main.left == 0 || entries == [] then this.(main := Top)
        else this.(entries := entries[1..], removed := removed + [Removal(entries[0], true)], main := Flushing(main.left - 1))
    }

    /** Sent, dropped and queued packets partition what was enqueued, in order; the queue is
        within its limits; and the main thread does not sleep on a non-empty queue unless a
        wake-up is unread or about to be sent. */
    ghost predicate Inv() {
      && enqueued == Packets(removed) + entries
      && AllAcceptable(entries) && |entries| <= MAX_PACKETS && Total(entries) <= MAX_BYTES
      && (main == InSelect(true) && entries != [] ==> datagrams > 0 || reader == AboutToSignal)
    }
  }

  const Empty := Machine([], Reading, Top, 0, [], [])

  lemma PacketsJoin(a: seq<Removal>, b: seq<Removal>)
    ensures Packets(a + b) == Packets(a) + Packets(b)
  {
  }

  lemma QueuedOrder(removed: seq<Removal>, q: seq<Packet>, p: Packet, k: nat)
    requires k <= |q|
    ensures Packets(removed) + q + [p] == Packets(removed + Dropped(q[..k])) + (q[k..] + [p])
  {
    PacketsJoin(removed, Dropped(q[..k]));
    assert q == q[..k] + q[k..];
  }

  lemma QueuedKeeps(m: Machine, p: Packet)
    requires m.Inv() && m.reader == Reading
    ensures m.Queued(p).Inv()
  {
    if Acceptable(p) {
      var k := ToDrop(m.entries, p);
      ToDropLeast(m.entries, p);
      TotalAppend(m.entries[k..], p);
      QueuedOrder(m.removed, m.entries, p, k);
    }
  }

  lemma DequeuedKeeps(m: Machine)
    requires m.Inv() && m.main.Flushing?
    ensures m.Step(MainDequeues).Inv()
  {
    if m.main.left > 0 && m.entries != [] {
      var r := [Removal(m.entries[0], true)];
      PacketsJoin(m.removed, r);
      assert Packets(r) == [m.entries[0]];
      assert m.entries == [m.entries[0]] + m.entries[1..];
      assert Packets(m.removed) + m.entries == Packets(m.removed) + [m.entries[0]] + m.entries[1..];
    }
  }

  /** Every step of either thread keeps the invariant. */
  lemma StepKeeps(m: Machine, a: Act)
    requires m.Inv() && m.Enabled(a)
    ensures m.Step(a).Inv()
  {
    match a
    case ReaderQueues(p) => QueuedKeeps(m, p);
    case MainDequeues => DequeuedKeeps(m);
    case _ =>
  }

  // ---- runs ----

  /** The state after a schedule; acts that are not possible when their turn comes are skipped. */
  function After(acts: seq<Act>): Machine {
    if acts == [] then Empty
    else
      var m, a := After(acts[..|acts| - 1]), acts[|acts| - 1];
      if m.Enabled(a) then m.Step(a) else m
  }

  /** In every interleaving the invariant holds: FIFO order with the oldest dropped, the limits,
      and no lost wake-up. */
  lemma {:induction false} RunKeeps(acts: seq<Act>)
    ensures After(acts).Inv()
  {
    if acts != [] {
      var m, a := After(acts[..|acts| - 1]), acts[|acts| - 1];
      RunKeeps(acts[..|acts| - 1]);
      if m.Enabled(a) { StepKeeps(m, a); }
    }
  }

  /** Every act of the schedule is possible when its turn comes. */
  ghost predicate AllEnabled(acts: seq<Act>) {
    acts == [] || (AllEnabled(acts[..|acts| - 1]) && After(acts[..|acts| - 1]).Enabled(acts[|acts| - 1]))
  }

  /** The packets the reader hands over in a schedule. */
  function Handed(acts: seq<Act>): seq<Packet> {
    if acts == [] then []
    else
      var a := acts[|acts| - 1];
      Handed(acts[..|acts| - 1]) + (if a.ReaderQueues? && Acceptable(a.packet) then [a.packet] else [])
  }

  /** What was handed over is, in order, what was sent or dropped followed by what is queued. */
  lemma HandedPartition(acts: seq<Act>)
    requires AllEnabled(acts)
    ensures Handed(acts) == Packets(After(acts).removed) + After(acts).entries
  {
    RunKeeps(acts);
    HandedEnqueued(acts);
  }

  lemma {:induction false} HandedEnqueued(acts: seq<Act>)
    requires AllEnabled(acts)
    ensures Handed(acts) == After(acts).enqueued
  {
    if acts != [] { HandedEnqueued(acts[..|acts| - 1]); }
  }

  // ---- what is sent ----

  /** The state after the acts, from `m` on; acts that are not possible are skipped. */
  function From(m: Machine, acts: seq<Act>): Machine
    decreases |acts|, m
  {
    if acts == [] then m else From(if m.Enabled(acts[0]) then m.Step(acts[0]) else m, acts[1..])
  }

  lemma {:induction false} FromJoins(m: Machine, a: seq<Act>, b: seq<Act>)
    ensures From(m, a + b) == From(From(m, a), b)
    decreases |a|
  {
    if a == [] {
      assert a + b == b;
    } else {
      assert (a + b)[0] == a[0] && (a + b)[1..] == a[1..] + b;
      FromJoins(if m.Enabled(a[0]) then m.Step(a[0]) else m, a[1..], b);
    }
  }

  lemma {:induction false} AfterIsFrom(acts: seq<Act>)
    ensures After(acts) == From(Empty, acts)
  {
    if acts != [] {
      var n := |acts| - 1;
      AfterIsFrom(acts[..n]);
      assert acts == acts[..n] + [acts[n]];
      FromJoins(Empty, acts[..n], [acts[n]]);
      assert [acts[n]][1..] == [];
    }
  }

  function Repeat(a: Act, n: nat): (acts: seq<Act>)
    ensures |acts| == n
  {
    seq(n, _ => a)
  }

  lemma RepeatNext(m: Machine, a: Act, n: nat)
    requires n > 0
    ensures From(m, Repeat(a, n)) == From(if m.Enabled(a) then m.Step(a) else m, Repeat(a, n - 1))
  {
    assert Repeat(a, n)[1..] == Repeat(a, n - 1);
  }

  function Sent(q: seq<Packet>): (r: seq<Removal>)
    ensures |r| == |q|
  {
    seq(|q|, i requires 0 <= i < |q| => Removal(q[i], true))
  }

  function Least(a: nat, b: nat): nat { if a < b then a else b }

  lemma {:induction false} NothingMore(m: Machine, a: Act, n: nat)
    requires !m.Enabled(a)
    ensures From(m, Repeat(a, n)) == m
    decreases n
  {
    if n > 0 {
      RepeatNext(m, a, n);
      NothingMore(m, a, n - 1);
    }
  }

  /** The state after the first `k` packets were sent. */
  function Flushed(m: Machine, k: nat): Machine
    requires k <= |m.entries|
  {
    m.(entries := m.entries[k..], removed := m.removed + Sent(m.entries[..k]), main := Top)
  }

  lemma FlushedNone(m: Machine)
    requires m.main.Flushing? && (m.main.left == 0 || m.entries == [])
    ensures m.Step(MainDequeues) == Flushed(m, 0)
  {
    assert m.entries[0..] == m.entries && m.removed + Sent(m.entries[..0]) == m.removed;
  }

  lemma FlushedOne(m: Machine, k: nat)
    requires m.main.Flushing? && m.main.left > 0 && 0 < k <= |m.entries|
    ensures var a := m.Step(MainDequeues);
            a.main == Flushing(m.main.left - 1) && a.entries == m.entries[1..] && Flushed(a, k - 1) == Flushed(m, k)
  {
    SentOne(m.removed, m.entries, k);
  }

  lemma SentOne(removed: seq<Removal>, q: seq<Packet>, k: nat)
    requires 0 < k <= |q|
    ensures removed + [Removal(q[0], true)] + Sent(q[1..][..k - 1]) == removed + Sent(q[..k]) && q[1..][k - 1..] == q[k..]
  {
  }

  /** edge_flush_tap_tx_queue with the reader silent: the first packets are sent, in order, as many
      as the budget allows. */
  lemma {:induction false} FlushSends(m: Machine, n: nat)
    requires m.main.Flushing? && n > Least(m.main.left, |m.entries|)
    ensures From(m, Repeat(MainDequeues, n)) == Flushed(m, Least(m.main.left, |m.entries|))
    decreases n
  {
    RepeatNext(m, MainDequeues, n);
    if m.main.left == 0 || m.entries == [] {
      FlushedNone(m);
      NothingMore(Flushed(m, 0), MainDequeues, n - 1);
    } else {
      var k := Least(m.main.left, |m.entries|);
      FlushedOne(m, k);
      FlushSends(m.Step(MainDequeues), n - 1);
    }
  }

  /** Emptying the wake-up socket. */
  lemma {:induction false} DrainsAll(m: Machine, n: nat)
    requires m.main.AfterSelect? && n > m.datagrams
    ensures From(m, Repeat(MainDrains, n)) == m.(main := Flushing(128), datagrams := if m.main.wake then 0 else m.datagrams)
    decreases n
  {
    RepeatNext(m, MainDrains, n);
    if m.main.wake && m.datagrams > 0 {
      DrainsAll(m.Step(MainDrains), n - 1);
    } else {
      NothingMore(m.Step(MainDrains), MainDrains, n - 1);
    }
  }

  /** A turn of the main loop. */
  function TurnActs(m: Machine): seq<Act> {
    [MainChecks, SelectReturns] + Repeat(MainDrains, m.datagrams + 1) + Repeat(MainDequeues, 129)
  }

  /** A turn with the reader silent sends exactly the first min(128, |q|) packets of the queue, in
      order, and leaves the rest. */
  lemma TurnSends(m: Machine)
    requires m.main == Top
    ensures var k := Least(128, |m.entries|);
            From(m, TurnActs(m)) == m.(entries := m.entries[k..], removed := m.removed + Sent(m.entries[..k]), datagrams := 0)
  {
    var a := m.Step(MainChecks).Step(SelectReturns);
    var d, f := Repeat(MainDrains, m.datagrams + 1), Repeat(MainDequeues, 129);
    FromJoins(m, [MainChecks, SelectReturns] + d, f);
    FromJoins(m, [MainChecks, SelectReturns], d);
    FirstTwo(m);
    DrainsAll(a, m.datagrams + 1);
    FlushSends(From(a, d), 129);
  }

  lemma FirstTwo(m: Machine)
    requires m.main == Top
    ensures From(m, [MainChecks, SelectReturns]) == m.Step(MainChecks).Step(SelectReturns)
  {
    var a := m.Step(MainChecks);
    assert [MainChecks, SelectReturns][1..] == [SelectReturns] && [SelectReturns][1..] == [];
    assert From(m, [MainChecks, SelectReturns]) == From(a, [SelectReturns]);
    assert From(a, [SelectReturns]) == From(a.Step(SelectReturns), []);
  }

  function Turns(m: Machine, n: nat): Machine
    decreases n, m
  {
    if n == 0 then m else var a := Turns(m, n - 1); From(a, TurnActs(a))
  }

  /** `t` is `m` after its first `k` packets were sent. */
  ghost predicate SentSoFar(m: Machine, t: Machine, k: nat) {
    k <= |m.entries| && t.main == Top && t.entries == m.entries[k..] && t.removed == m.removed + Sent(m.entries[..k])
  }

  lemma TurnMore(m: Machine, t: Machine, k: nat)
    requires SentSoFar(m, t, k)
    ensures SentSoFar(m, From(t, TurnActs(t)), k + Least(128, |m.entries| - k))
  {
    TurnSends(t);
    SentJoins(m.removed, m.entries, k, Least(128, |m.entries| - k));
  }

  lemma SentJoins(removed: seq<Removal>, q: seq<Packet>, j: nat, i: nat)
    requires j + i <= |q|
    ensures q[j..][i..] == q[j + i..] && removed + Sent(q[..j]) + Sent(q[j..][..i]) == removed + Sent(q[..j + i])
  {
  }

  /** `n` turns with the reader silent send the first 128 n packets. */
  lemma {:induction false} TurnsSend(m: Machine, n: nat)
    requires m.main == Top
    ensures SentSoFar(m, Turns(m, n), Least(128 * n, |m.entries|))
  {
    if n == 0 {
      assert m.entries[0..] == m.entries && m.removed + Sent(m.entries[..0]) == m.removed;
    } else {
      TurnsSend(m, n - 1);
      TurnMore(m, Turns(m, n - 1), Least(128 * (n - 1), |m.entries|));
    }
  }

  /** Eight turns with the reader silent send everything that is queued, in order. */
  lemma EightTurnsSendAll(m: Machine)
    requires m.Inv() && m.main == Top
    ensures Turns(m, 8).entries == [] && Turns(m, 8).removed == m.removed + Sent(m.entries)
  {
    TurnsSend(m, 8);
    assert m.entries[..|m.entries|] == m.entries;
  }

  /** The packets removed with this mark. */
  function Marked(r: seq<Removal>, sent: bool): seq<Packet> {
    if r == [] then []
    else Marked(r[..|r| - 1], sent) + (if r[|r| - 1].sent == sent then [r[|r| - 1].packet] else [])
  }

  lemma {:induction false} MarkedJoins(a: seq<Removal>, b: seq<Removal>, sent: bool)
    ensures Marked(a + b, sent) == Marked(a, sent) + Marked(b, sent)
    decreases |b|
  {
    if b == [] {
      assert a + b == a;
    } else {
      var n := |b| - 1;
      assert (a + b)[..|a| + n] == a + b[..n];
      MarkedJoins(a, b[..n], sent);
      RegroupPackets(Marked(a, sent), Marked(b[..n], sent), if b[n].sent == sent then [b[n].packet] else []);
    }
  }

  lemma RegroupPackets(a: seq<Packet>, b: seq<Packet>, c: seq<Packet>)
    ensures (a + b) + c == a + (b + c)
  {
  }

  lemma {:induction false} MarkedDropped(q: seq<Packet>)
    ensures Marked(Dropped(q), true) == [] && Marked(Dropped(q), false) == q
  {
    if q != [] {
      var n := |q| - 1;
      assert Dropped(q)[..n] == Dropped(q[..n]);
      MarkedDropped(q[..n]);
      assert q == q[..n] + [q[n]];
    }
  }

  lemma MarkedOne(p: Packet)
    ensures Marked([Removal(p, true)], true) == [p] && Marked([Removal(p, true)], false) == []
  {
    assert [Removal(p, true)][..0] == [];
  }

  /** What the acts take from the head of the queue on the main thread. */
  function DequeuedBy(acts: seq<Act>): seq<Packet> {
    if acts == [] then []
    else
      var m, a := After(acts[..|acts| - 1]), acts[|acts| - 1];
      DequeuedBy(acts[..|acts| - 1])
      + (if a.MainDequeues? && m.main.Flushing? && m.main.left > 0 then m.entries[..Least(1, |m.entries|)] else [])
  }

  /** What has to go for the packets that the reader hands over. */
  function CrowdedOutBy(acts: seq<Act>): seq<Packet> {
    if acts == [] then []
    else
      var m, a := After(acts[..|acts| - 1]), acts[|acts| - 1];
      CrowdedOutBy(acts[..|acts| - 1])
      + (if a.ReaderQueues? && m.reader == Reading && Acceptable(a.packet) then m.entries[..ToDrop(m.entries, a.packet)] else [])
  }

  /** A packet has to go exactly if there are 1024 or four megabytes would be exceeded. */
  lemma DropsWhenFull(q: seq<Packet>, p: Packet)
    requires q != []
    ensures ToDrop(q, p) > 0 <==> |q| >= 1024 || Total(q) + |p| > 4194304
  {
  }

  /** The removals marked as sent are exactly those of the main thread, the others exactly those
      that a full queue made necessary. */
  lemma {:induction false} MarksExactly(acts: seq<Act>)
    ensures Marked(After(acts).removed, true) == DequeuedBy(acts)
    ensures Marked(After(acts).removed, false) == CrowdedOutBy(acts)
  {
    if acts != [] {
      var m, a := After(acts[..|acts| - 1]), acts[|acts| - 1];
      MarksExactly(acts[..|acts| - 1]);
      if m.Enabled(a) { MarksStep(m, a); }
    }
  }

  lemma QueuedMarks(m: Machine, p: Packet)
    requires Acceptable(p)
    ensures Marked(m.Queued(p).removed, true) == Marked(m.removed, true)
    ensures Marked(m.Queued(p).removed, false) == Marked(m.removed, false) + m.entries[..ToDrop(m.entries, p)]
  {
    var q := m.entries[..ToDrop(m.entries, p)];
    MarkedJoins(m.removed, Dropped(q), true);
    MarkedJoins(m.removed, Dropped(q), false);
    MarkedDropped(q);
  }

  lemma DequeuedMarks(m: Machine)
    requires m.main.Flushing? && m.main.left > 0 && m.entries != []
    ensures Marked(m.Step(MainDequeues).removed, true) == Marked(m.removed, true) + [m.entries[0]]
    ensures Marked(m.Step(MainDequeues).removed, false) == Marked(m.removed, false)
  {
    var r := [Removal(m.entries[0], true)];
    MarkedJoins(m.removed, r, true);
    MarkedJoins(m.removed, r, false);
    MarkedOne(m.entries[0]);
  }

  lemma MarksStep(m: Machine, a: Act)
    requires m.Enabled(a)
    ensures Marked(m.Step(a).removed, true) == Marked(m.removed, true)
              + (if a.MainDequeues? && m.main.left > 0 then m.entries[..Least(1, |m.entries|)] else [])
    ensures Marked(m.Step(a).removed, false) == Marked(m.removed, false)
              + (if a.ReaderQueues? && Acceptable(a.packet) then m.entries[..ToDrop(m.entries, a.packet)] else [])
  {
    match a
    case ReaderQueues(p) => if Acceptable(p) { QueuedMarks(m, p); }
    case MainDequeues =>
      if m.main.left > 0 && m.entries != [] {
        DequeuedMarks(m);
        assert m.entries[..1] == [m.entries[0]];
      }
    case _ =>
  }

  // ---- the threads' code ----

  class System {
    const queue: Queue
    var reader: ReaderAt
    var main: MainAt
    var datagrams: nat

    ghost var enqueued: seq<Packet>
    ghost var removed: seq<Removal>

    ghost function View(): Machine
      reads this, queue
    {
      Machine(queue.entries, reader, main, datagrams, enqueued, removed)
    }

    constructor ()
      ensures queue.Valid() && fresh(queue) && View() == Empty
    {
      queue := new Queue();
      reader, main, datagrams, enqueued, removed := Reading, Top, 0, [], [];
    }

    /** edge_queue_tap_tx_packet up to the unlock. */
    method ReaderQueue(p: Packet)
      requires queue.Valid() && reader == Reading
      modifies this, queue
      ensures queue.Valid() && View() == old(View()).Queued(p)
    {
      if !Acceptable(p) { return; }
      var needWake, dropped := queue.Enqueue(p);
      enqueued := enqueued + [p];
      removed := removed + Dropped(dropped);
      if needWake { reader := AboutToSignal; }
    }

    /** edge_flush_tap_tx_queue: one packet. */
    method MainDequeue()
      requires queue.Valid() && main.Flushing?
      modifies this, queue
      ensures queue.Valid() && View() == old(View()).Step(MainDequeues)
    {
      if main.left == 0 {
        main := Top;
        return;
      }
      var r := queue.Dequeue();
      if r == [] {
        main := Top;
      } else {
        removed := removed + [Removal(r[0], true)];
        main := Flushing(main.left - 1);
      }
    }

    /** The wake-up datagram, whose sending is assumed to succeed; the test for pending packets
        before select; select, which returns on a wake-up, on other input or after a time; one
        recvfrom of the loop that empties the wake-up socket. */
    method Do(a: Act)
      requires queue.Valid() && View().Enabled(a)
      modifies this, queue
      ensures queue.Valid() && View() == old(View()).Step(a)
    {
      match a
      case ReaderQueues(p) => ReaderQueue(p);
      case ReaderSignals =>
        datagrams := datagrams + 1;
        reader := Reading;
      case MainChecks => main := InSelect(queue.entries == []);
      case SelectReturns => main := AfterSelect(datagrams > 0);
      case MainDrains =>
        if main.wake && datagrams > 0 { datagrams := datagrams - 1; }
        else { main := Flushing(DRAIN_BUDGET); }
      case MainDequeues => MainDequeue();
    }
  }

  /** A run of both threads under any schedule ends where the machine ends. */
  method Run(acts: seq<Act>) returns (s: System)
    ensures s.queue.Valid() && s.View() == After(acts) && s.View().Inv()
    ensures AllEnabled(acts) ==> Handed(acts) == Packets(s.removed) + s.queue.entries
    ensures Marked(s.removed, true) == DequeuedBy(acts) && Marked(s.removed, false) == CrowdedOutBy(acts)
  {
    s := new System();
    var i := 0;
    assert acts[..0] == [];
    while i < |acts|
      invariant 0 <= i <= |acts| && fresh(s) && fresh(s.queue) && s.queue.Valid()
      invariant s.View() == After(acts[..i])
    {
      assert acts[..i + 1][..i] == acts[..i];
      if Possible(s.reader, s.main, acts[i]) { s.Do(acts[i]); }
      i := i + 1;
    }
    assert acts[..i] == acts;
    RunKeeps(acts);
    MarksExactly(acts);
    if AllEnabled(acts) { HandedPartition(acts); }
  }

  /** `Enabled` in terms of the fields it depends on. */
  predicate Possible(reader: ReaderAt, main: MainAt, a: Act) { Machine([], reader, main, 0, [], []).Enabled(a) }
}
