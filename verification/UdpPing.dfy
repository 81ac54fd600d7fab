/** The UDP ping protocol: a client that sends pings at a fixed interval, a server that answers them,
    and a network between them that may lose and reorder packets but does not duplicate them. */
module UdpPing {
  import opened Options

  datatype Packet = Packet(id: int, seqNo: nat, ts: int)

  /** How a client is set up. */
  datatype Plan = Plan(id: nat, interval: nat, duration: nat, wait: nat) {
    predicate Valid() {
      interval >= 1
    }
  }

  /** The counter of sent pings has 32 bits. */
  const UINT32: int := 0x1_0000_0000

  /** `closedAt` is the time at which the client closed its socket; `aborted` is a failed sanity check. */
  datatype Client = Client(
    startTime: int, sent: nat, sendTimes: seq<int>, replyTimes: seq<int>, receiveTimes: seq<int>,
    sendEvent: Option<int>, finishEvent: Option<int>, closedAt: Option<int>, aborted: bool)
  {
    predicate Answered(k: int)
      requires 0 <= k < |replyTimes|
    {
      replyTimes[k] != -1
    }
  }

  // ---------- what client and server do ----------

  function StartClient(c: Client, now: int): Client {
    c.(startTime := now, sendEvent := Some(now))
  }

  function PingOf(plan: Plan, c: Client, now: int): Packet {
    Packet(plan.id, c.sent, now)
  }

  function SendPing(plan: Plan, c: Client, now: int): Client {
    var again := now + plan.interval < c.startTime + plan.duration;
    c.(
      sendTimes := c.sendTimes + [now], replyTimes := c.replyTimes + [-1], receiveTimes := c.receiveTimes + [-1],
      sent := (c.sent + 1) % UINT32,
      sendEvent := if again then Some(now + plan.interval) else None,
      finishEvent := if again then c.finishEvent
                     else Some(now + (c.startTime + plan.duration - now + plan.wait)))
  }

  function ReadReply(plan: Plan, c: Client, p: Packet, now: int): Client {
    var k := p.seqNo % UINT32;
    if p.id != plan.id then c
    else if k >= |c.sendTimes| || k >= |c.replyTimes| || k >= |c.receiveTimes| then c.(aborted := true)
    else if c.replyTimes[k] != -1 || c.receiveTimes[k] != -1 then c.(aborted := true)
    else c.(replyTimes := c.replyTimes[k := p.ts], receiveTimes := c.receiveTimes[k := now])
  }

  function FinishClient(c: Client, now: int): Client {
    if c.sendEvent.Some? || c.finishEvent.Some? then c.(aborted := true) else c.(closedAt := Some(now))
  }

  function ReplyTo(p: Packet, now: int): Packet {
    Packet(p.id, p.seqNo, now)
  }

  // ---------- the programs ----------

  /** All replies waiting in the socket, read one after the other until a check fails. */
  function ReadReplies(plan: Plan, c: Client, packets: seq<Packet>, now: int): Client
    decreases |packets|
  {
    if packets == [] || c.aborted then c
    else ReadReplies(plan, ReadReply(plan, c, packets[0], now), packets[1..], now)
  }

  /** The replies among the packets that are ours. */
  function Own(plan: Plan, packets: seq<Packet>): seq<Packet> {
    if packets == [] then [] else (if packets[0].id == plan.id then [packets[0]] else []) + Own(plan, packets[1..])
  }

  /** Replies to other clients do occur, and it is as if they had not come. */
  lemma {:induction false} OthersDoNotMatter(plan: Plan, c: Client, packets: seq<Packet>, now: int)
    ensures ReadReplies(plan, c, packets, now) == ReadReplies(plan, c, Own(plan, packets), now)
    decreases |packets|
  {
    if packets != [] && !c.aborted {
      OthersDoNotMatter(plan, ReadReply(plan, c, packets[0], now), packets[1..], now);
      var own := Own(plan, packets);
      if packets[0].id == plan.id {
        assert own[0] == packets[0] && own[1..] == Own(plan, packets[1..]);
      } else {
        assert own == Own(plan, packets[1..]);
      }
    }
  }

  lemma {:induction false} NoneIsOwn(plan: Plan, packets: seq<Packet>)
    ensures (forall p :: p in packets ==> p.id != plan.id) <==> Own(plan, packets) == []
    decreases |packets|
  {
    if packets != [] {
      NoneIsOwn(plan, packets[1..]);
      assert packets == [packets[0]] + packets[1..];
    }
  }

  class UdpPingClient {
    const plan: Plan
    var startTime: int
    var sent: nat
    var sendRequestTimestamps: seq<int>
    var replyTimestamps: seq<int>
    var receiveReplyTimestamps: seq<int>
    var sendEvent: Option<int>
    var waitForFinishEvent: Option<int>
    var closedAt: Option<int>

    ghost function State(aborted: bool): Client
      reads this
    {
      Client(startTime, sent, sendRequestTimestamps, replyTimestamps, receiveReplyTimestamps,
        sendEvent, waitForFinishEvent, closedAt, aborted)
    }

    constructor (plan: Plan)
      ensures this.plan == plan && State(false) == Fresh()
    {
      this.plan := plan;
      startTime, sent := 0, 0;
      sendRequestTimestamps, replyTimestamps, receiveReplyTimestamps := [], [], [];
      sendEvent, waitForFinishEvent, closedAt := None, None, None;
    }

    method StartApplication(now: int)
      modifies this
      ensures State(false) == StartClient(old(State(false)), now)
    {
      startTime := now;
      sendEvent := Some(now);
    }

    method Send(now: int) returns (p: Packet)
      requires sendEvent.None?
      modifies this
      ensures p == PingOf(plan, old(State(false)), now)
      ensures State(false) == SendPing(plan, old(State(false)), now)
    {
      p := Packet(plan.id, sent, now);
      sendRequestTimestamps := sendRequestTimestamps + [now];
      replyTimestamps := replyTimestamps + [-1];
      receiveReplyTimestamps := receiveReplyTimestamps + [-1];
      sent := (sent + 1) % UINT32;
      if now + plan.interval < startTime + plan.duration {
        sendEvent := Some(now + plan.interval);
      } else {
        waitForFinishEvent := Some(now + (startTime + plan.duration - now + plan.wait));
      }
    }

    /** Replies to other clients change nothing. */
    method HandleRead(packets: seq<Packet>, now: int) returns (ok: bool)
      modifies this
      ensures State(!ok) == ReadReplies(plan, old(State(false)), packets, now)
      ensures (forall p :: p in packets ==> p.id != plan.id) ==> ok && State(false) == old(State(false))
    {
      OthersDoNotMatter(plan, State(false), packets, now);
      NoneIsOwn(plan, packets);
      for i := 0 to |packets|
        invariant ReadReplies(plan, State(false), packets[i..], now)
               == ReadReplies(plan, old(State(false)), packets, now)
      {
        assert packets[i..][1..] == packets[i + 1..];
        ok := HandlePacket(packets[i], now);
        if !ok {
          return;
        }
      }
      ok := true;
    }

    method HandlePacket(p: Packet, now: int) returns (ok: bool)
      modifies this
      ensures State(!ok) == ReadReply(plan, old(State(false)), p, now)
      ensures var k := p.seqNo % UINT32;
        ok <==> p.id != plan.id || (k < |sendRequestTimestamps| && k < |replyTimestamps| && k < |receiveReplyTimestamps|
                                    && old(replyTimestamps[k] == receiveReplyTimestamps[k] == -1))
    {
      var seqNo := p.seqNo % UINT32;
      if p.id == plan.id {
        if seqNo >= |sendRequestTimestamps| || seqNo >= |replyTimestamps| || seqNo >= |receiveReplyTimestamps| {
          return false;
        }
        if replyTimestamps[seqNo] != -1 || receiveReplyTimestamps[seqNo] != -1 {
          return false;
        }
        replyTimestamps := replyTimestamps[seqNo := p.ts];
        receiveReplyTimestamps := receiveReplyTimestamps[seqNo := now];
      }
      return true;
    }

    method Finish(now: int) returns (ok: bool)
      modifies this`closedAt
      ensures State(!ok) == FinishClient(old(State(false)), now)
      ensures ok <==> sendEvent.None? && waitForFinishEvent.None?
      ensures closedAt == if ok then Some(now) else old(closedAt)
    {
      if sendEvent.Some? || waitForFinishEvent.Some? {
        return false;
      }
      closedAt := Some(now);
      return true;
    }
  }

  class UdpPingServer {
    constructor () {
    }

    /** Answers every waiting packet: same identifier and number, and the time of the answer. */
    method HandleRead(packets: seq<Packet>, now: int) returns (replies: seq<Packet>)
      ensures |replies| == |packets|
      ensures forall i :: 0 <= i < |packets| ==>
        && replies[i] == ReplyTo(packets[i], now)
        && replies[i].id == packets[i].id && replies[i].seqNo == packets[i].seqNo && replies[i].ts == now
    {
      replies := [];
      for i := 0 to |packets|
        invariant |replies| == i
        invariant forall k :: 0 <= k < i ==> replies[k] == ReplyTo(packets[k], now)
      {
        replies := replies + [Packet(packets[i].id, packets[i].seqNo, now)];
      }
    }
  }

  // ---------- runs ----------

  datatype World = World(now: int, started: bool, client: Client, requests: multiset<Packet>, replies: multiset<Packet>)

  function Fresh(): Client {
    Client(0, 0, [], [], [], None, None, None, false)
  }

  ghost predicate Initial(plan: Plan, w: World) {
    && w.now >= 0 && !w.started && w.client == Fresh()
    && (forall p :: p in w.requests || p in w.replies ==> p.id != plan.id)
  }

  datatype Action =
    | Wait(until: int)
    | Start | SendNow | FinishNow
    | Serve(p: Packet) | Receive(p: Packet)
    | LoseRequest(p: Packet) | LoseReply(p: Packet)
    | OthersRequest(p: Packet) | OthersReply(p: Packet)

  /** Time passes no event by. */
  predicate NoEventBefore(c: Client, t: int) {
    && (c.sendEvent.Some? ==> t <= c.sendEvent.value)
    && (c.finishEvent.Some? ==> t <= c.finishEvent.value)
  }

  predicate Enabled(plan: Plan, w: World, a: Action) {
    !w.client.aborted &&
    match a
    case Wait(until) => w.now <= until && NoEventBefore(w.client, until)
    case Start => !w.started
    case SendNow => w.client.sendEvent == Some(w.now)
    case FinishNow => w.client.finishEvent == Some(w.now)
    case Serve(p) => p in w.requests
    case Receive(p) => p in w.replies
    case LoseRequest(p) => p in w.requests
    case LoseReply(p) => p in w.replies
    case OthersRequest(p) => p.id != plan.id
    case OthersReply(p) => p.id != plan.id
  }

  function Perform(plan: Plan, w: World, a: Action): World {
    match a
    case Wait(until) => w.(now := until)
    case Start => w.(started := true, client := StartClient(w.client, w.now))
    case SendNow => w.(
      client := SendPing(plan, w.client.(sendEvent := None), w.now),
      requests := w.requests + multiset{PingOf(plan, w.client, w.now)})
    case FinishNow => w.(client := FinishClient(w.client.(finishEvent := None), w.now))
    case Serve(p) => w.(requests := w.requests - multiset{p}, replies := w.replies + multiset{ReplyTo(p, w.now)})
    case Receive(p) => w.(
      replies := w.replies - multiset{p},
      client := if w.client.closedAt.Some? then w.client else ReadReply(plan, w.client, p, w.now))
    case LoseRequest(p) => w.(requests := w.requests - multiset{p})
    case LoseReply(p) => w.(replies := w.replies - multiset{p})
    case OthersRequest(p) => w.(requests := w.requests + multiset{p})
    case OthersReply(p) => w.(replies := w.replies + multiset{p})
  }

  ghost predicate Follows(plan: Plan, w: World, a: Action, v: World) {
    Enabled(plan, w, a) && v == Perform(plan, w, a)
  }

  ghost predicate Step(plan: Plan, w: World, v: World) {
    exists a :: Follows(plan, w, a, v)
  }

  ghost predicate StepAt(plan: Plan, run: seq<World>, i: int)
    requires 0 <= i < |run| - 1
  {
    Step(plan, run[i], run[i + 1])
  }

  ghost predicate Run(plan: Plan, run: seq<World>) {
    && run != [] && Initial(plan, run[0])
    && forall i :: 0 <= i < |run| - 1 ==> StepAt(plan, run, i)
  }

  /** Some run leads to the state. */
  ghost predicate Reachable(plan: Plan, w: World) {
    exists run :: Run(plan, run) && run[|run| - 1] == w
  }

  lemma OneMore(plan: Plan, w: World, a: Action, v: World)
    requires Reachable(plan, w) && Follows(plan, w, a, v)
    ensures Reachable(plan, v)
  {
    var run :| Run(plan, run) && run[|run| - 1] == w;
    var longer := run + [v];
    forall i | 0 <= i < |longer| - 1
      ensures StepAt(plan, longer, i)
    {
      if i < |run| - 1 {
        assert StepAt(plan, run, i);
        assert longer[i] == run[i] && longer[i + 1] == run[i + 1];
      } else {
        assert Follows(plan, longer[i], a, longer[i + 1]);
      }
    }
    assert Run(plan, longer) && longer[|longer| - 1] == v;
  }

  lemma TwoMore(plan: Plan, w: World, a: Action, u: World, b: Action, v: World)
    requires Reachable(plan, w) && Follows(plan, w, a, u) && Follows(plan, u, b, v)
    ensures Reachable(plan, v)
  {
    OneMore(plan, w, a, u);
    OneMore(plan, u, b, v);
  }

  // ---------- the timetable ----------

  /** When ping `k` is due. */
  function Due(plan: Plan, start: int, k: nat): int {
    if k == 0 then start else Due(plan, start, k - 1) + plan.interval
  }

  lemma {:induction false} DueIs(plan: Plan, start: int, k: nat)
    ensures Due(plan, start, k) == start + k * plan.interval
  {
    if k > 0 {
      DueIs(plan, start, k - 1);
    }
  }

  /** The number of pings: one at least, and one for every interval begun within the duration. */
  function Pings(plan: Plan): nat
    requires plan.Valid()
  {
    if plan.duration == 0 then 1 else (plan.duration + plan.interval - 1) / plan.interval
  }

  predicate AnotherFits(plan: Plan, start: int, n: nat) {
    Due(plan, start, n) < start + plan.duration
  }

  lemma PingsCount(plan: Plan, start: int, n: nat)
    requires plan.Valid()
    ensures AnotherFits(plan, start, n) ==> n + 1 <= Pings(plan)
    ensures !AnotherFits(plan, start, n) && n > 0 ==> Pings(plan) <= n
  {
    DueIs(plan, start, n);
    Quotient(plan.duration, plan.interval, n);
  }

  lemma Quotient(d: int, i: int, n: int)
    requires i >= 1 && d >= 0 && n >= 0
    ensures d > 0 ==> (n * i < d <==> n < (d + i - 1) / i)
  {
    var q := (d + i - 1) / i;
    assert d + i - 1 == q * i + (d + i - 1) % i;
    if n < q {
      Multiply(n + 1, q, i);
    } else {
      Multiply(q, n, i);
    }
  }

  lemma Multiply(a: int, b: int, i: int)
    requires a <= b && i >= 1
    ensures a * i <= b * i
  {
  }

  ghost predicate Timetable(plan: Plan, w: World) {
    var c, n := w.client, |w.client.sendTimes|;
    && (forall k :: 0 <= k < n ==> c.sendTimes[k] == Due(plan, c.startTime, k) <= w.now)
    && (n > 1 ==> AnotherFits(plan, c.startTime, n - 1))
    && (!w.started ==> n == 0 && c.sendEvent.None? && c.finishEvent.None? && c.closedAt.None?)
    && (w.started ==> c.startTime <= w.now && Phase(plan, w.now, c, n))
  }

  /** A started client is about to send, or to finish, or has finished. */
  ghost predicate Phase(plan: Plan, now: int, c: Client, n: nat) {
    var end := c.startTime + plan.duration + plan.wait;
    || (&& c.sendEvent == Some(Due(plan, c.startTime, n)) && now <= Due(plan, c.startTime, n)
        && c.finishEvent.None? && c.closedAt.None?
        && (n > 0 ==> AnotherFits(plan, c.startTime, n)))
    || (&& n > 0 && !AnotherFits(plan, c.startTime, n) && c.sendEvent.None?
        && ((c.finishEvent == Some(end) && now <= end && c.closedAt.None?)
            || (c.finishEvent.None? && c.closedAt == Some(end))))
  }

  // ---------- the lists and the packets under way ----------

  ghost predicate Lists(plan: Plan, w: World)
    requires plan.Valid()
  {
    var c, n := w.client, |w.client.sendTimes|;
    && |c.replyTimes| == n && |c.receiveTimes| == n && n <= Pings(plan) && c.sent == n % UINT32
    && forall k :: 0 <= k < n ==> InOrder(c, k, w.now)
  }

  /** An answered ping was sent, replied to and its reply received, in this order. */
  ghost predicate InOrder(c: Client, k: nat, now: int)
    requires k < |c.sendTimes| == |c.replyTimes| == |c.receiveTimes|
  {
    if c.Answered(k) then 0 <= c.sendTimes[k] <= c.replyTimes[k] <= c.receiveTimes[k] <= now
    else c.receiveTimes[k] == -1
  }

  /** A packet of ours under way belongs to a ping that was sent and is not answered. */
  ghost predicate Open(c: Client, p: Packet, now: int) {
    p.seqNo < |c.sendTimes| && p.seqNo < |c.replyTimes| && !c.Answered(p.seqNo) && c.sendTimes[p.seqNo] <= p.ts <= now
  }

  ghost predicate AllOpen(plan: Plan, c: Client, packets: multiset<Packet>, now: int) {
    forall p :: p in packets && p.id == plan.id ==> Open(c, p, now)
  }

  /** Every ping of ours has one packet under way at most. */
  ghost predicate OneEach(plan: Plan, packets: multiset<Packet>) {
    && (forall p :: p in packets && p.id == plan.id ==> packets[p] == 1)
    && (forall p, q :: p in packets && q in packets && p.id == q.id == plan.id && p.seqNo == q.seqNo ==> p == q)
  }

  ghost predicate Network(plan: Plan, w: World) {
    && AllOpen(plan, w.client, w.requests + w.replies, w.now)
    && OneEach(plan, w.requests + w.replies)
  }

  // ---------- what every run keeps ----------

  ghost predicate Kept(plan: Plan, w: World)
    requires plan.Valid()
  {
    && 0 <= w.now && !w.client.aborted && 0 <= w.client.startTime
    && Timetable(plan, w) && Lists(plan, w) && Network(plan, w)
  }

  predicate Bounded(plan: Plan)
    requires plan.Valid()
  {
    Pings(plan) <= UINT32
  }

  lemma {:induction false} DueIsLater(plan: Plan, start: int, k: nat)
    ensures Due(plan, start, k) >= start
  {
    if k > 0 {
      DueIsLater(plan, start, k - 1);
    }
  }

  lemma SameTimetable(plan: Plan, w: World, v: World)
    requires Timetable(plan, w) && w.now == v.now && w.started == v.started
    requires v.client == w.client.(replyTimes := v.client.replyTimes, receiveTimes := v.client.receiveTimes)
    ensures Timetable(plan, v)
  {
  }

  lemma InitiallyKept(plan: Plan, w: World)
    requires plan.Valid() && Initial(plan, w)
    ensures Kept(plan, w)
  {
  }

  lemma WaitKeeps(plan: Plan, w: World, until: int)
    requires plan.Valid() && Kept(plan, w) && Enabled(plan, w, Wait(until))
    ensures Kept(plan, Perform(plan, w, Wait(until)))
  {
    forall k | 0 <= k < |w.client.sendTimes|
      ensures InOrder(w.client, k, until)
    {
      assert InOrder(w.client, k, w.now);
    }
  }

  lemma StartKeeps(plan: Plan, w: World)
    requires plan.Valid() && Kept(plan, w) && Enabled(plan, w, Start)
    ensures Kept(plan, Perform(plan, w, Start))
  {
  }

  lemma SendKeepsTimetable(plan: Plan, w: World)
    requires plan.Valid() && Kept(plan, w) && Enabled(plan, w, SendNow)
    ensures Timetable(plan, Perform(plan, w, SendNow))
  {
    var v := Perform(plan, w, SendNow);
    var n := |w.client.sendTimes|;
    assert v.client.sendEvent.Some? <==> AnotherFits(plan, v.client.startTime, n + 1);
    DueIsLater(plan, w.client.startTime, n);
  }

  lemma CounterNext(n: nat)
    ensures (n % UINT32 + 1) % UINT32 == (n + 1) % UINT32
  {
  }

  lemma SendKeepsLists(plan: Plan, w: World)
    requires plan.Valid() && Kept(plan, w) && Enabled(plan, w, SendNow)
    ensures Lists(plan, Perform(plan, w, SendNow))
  {
    var v := Perform(plan, w, SendNow);
    var n := |w.client.sendTimes|;
    PingsCount(plan, w.client.startTime, n);
    CounterNext(n);
    forall k | 0 <= k < n + 1
      ensures InOrder(v.client, k, v.now)
    {
      if k < n {
        assert InOrder(w.client, k, w.now);
      }
    }
  }

  lemma StillOpen(plan: Plan, w: World, v: World, packets: multiset<Packet>)
    requires v == Perform(plan, w, SendNow) && AllOpen(plan, w.client, packets, w.now)
    ensures AllOpen(plan, v.client, packets, v.now)
  {
  }

  lemma SendKeepsNetwork(plan: Plan, w: World)
    requires plan.Valid() && Bounded(plan) && Kept(plan, w) && Enabled(plan, w, SendNow)
    ensures Network(plan, Perform(plan, w, SendNow))
  {
    var v := Perform(plan, w, SendNow);
    var n := |w.client.sendTimes|;
    PingsCount(plan, w.client.startTime, n);
    var ping, before := PingOf(plan, w.client, w.now), w.requests + w.replies;
    assert ping.seqNo == n;
    StillOpen(plan, w, v, before);
    AddOne(plan, v.client, before, ping, v.now);
    OthersUnderWay(w.requests, w.replies, ping);
  }

  lemma AddOne(plan: Plan, c: Client, before: multiset<Packet>, p: Packet, now: int)
    requires AllOpen(plan, c, before, now) && OneEach(plan, before)
    requires p.id == plan.id ==> Open(c, p, now) && forall q :: q in before && q.id == plan.id ==> q.seqNo != p.seqNo
    ensures AllOpen(plan, c, before + multiset{p}, now) && OneEach(plan, before + multiset{p})
  {
  }

  lemma RemoveOne(plan: Plan, c: Client, before: multiset<Packet>, p: Packet, now: int)
    requires AllOpen(plan, c, before, now) && OneEach(plan, before) && p in before
    ensures AllOpen(plan, c, before - multiset{p}, now) && OneEach(plan, before - multiset{p})
    ensures p.id == plan.id ==> forall q :: q in before - multiset{p} && q.id == plan.id ==> q.seqNo != p.seqNo
  {
  }

  lemma SendKeeps(plan: Plan, w: World)
    requires plan.Valid() && Bounded(plan) && Kept(plan, w) && Enabled(plan, w, SendNow)
    ensures Kept(plan, Perform(plan, w, SendNow))
  {
    SendKeepsTimetable(plan, w);
    SendKeepsLists(plan, w);
    SendKeepsNetwork(plan, w);
  }

  lemma FinishKeepsTimetable(plan: Plan, w: World)
    requires plan.Valid() && Kept(plan, w) && Enabled(plan, w, FinishNow)
    ensures Timetable(plan, Perform(plan, w, FinishNow))
  {
  }

  lemma FinishKeepsLists(plan: Plan, w: World)
    requires plan.Valid() && Kept(plan, w) && Enabled(plan, w, FinishNow)
    ensures Lists(plan, Perform(plan, w, FinishNow))
  {
    var v := Perform(plan, w, FinishNow);
    forall k | 0 <= k < |w.client.sendTimes|
      ensures InOrder(v.client, k, v.now)
    {
      assert InOrder(w.client, k, w.now);
    }
  }

  lemma FinishKeeps(plan: Plan, w: World)
    requires plan.Valid() && Kept(plan, w) && Enabled(plan, w, FinishNow)
    ensures Kept(plan, Perform(plan, w, FinishNow))
  {
    FinishKeepsTimetable(plan, w);
    FinishKeepsLists(plan, w);
  }

  /** What the client has kept, it keeps while only packets change. */
  lemma OnlyPacketsChange(plan: Plan, w: World, v: World)
    requires plan.Valid() && Kept(plan, w) && Network(plan, v)
    requires v == w.(requests := v.requests, replies := v.replies)
    ensures Kept(plan, v)
  {
    SameTimetable(plan, w, v);
  }

  lemma ServedUnderWay(requests: multiset<Packet>, replies: multiset<Packet>, p: Packet, reply: Packet)
    requires p in requests
    ensures (requests - multiset{p}) + (replies + multiset{reply})
      == (requests + replies) - multiset{p} + multiset{reply}
  {
  }

  lemma ServeKeepsNetwork(plan: Plan, w: World, p: Packet)
    requires plan.Valid() && Network(plan, w) && Enabled(plan, w, Serve(p))
    ensures Network(plan, Perform(plan, w, Serve(p)))
  {
    var before, reply := w.requests + w.replies, ReplyTo(p, w.now);
    RemoveOne(plan, w.client, before, p, w.now);
    AddOne(plan, w.client, before - multiset{p}, reply, w.now);
    ServedUnderWay(w.requests, w.replies, p, reply);
  }

  lemma ServeKeeps(plan: Plan, w: World, p: Packet)
    requires plan.Valid() && Kept(plan, w) && Enabled(plan, w, Serve(p))
    ensures Kept(plan, Perform(plan, w, Serve(p)))
  {
    ServeKeepsNetwork(plan, w, p);
    OnlyPacketsChange(plan, w, Perform(plan, w, Serve(p)));
  }

  /** Our own open reply passes the sanity checks and is entered in the lists. */
  lemma OwnReplyIsEntered(plan: Plan, w: World, p: Packet)
    requires plan.Valid() && Bounded(plan) && Kept(plan, w) && Enabled(plan, w, Receive(p))
    requires p.id == plan.id && w.client.closedAt.None?
    ensures p.seqNo < |w.client.sendTimes| == |w.client.replyTimes| == |w.client.receiveTimes|
    ensures !w.client.Answered(p.seqNo) && 0 <= w.client.sendTimes[p.seqNo] <= p.ts <= w.now
    ensures Perform(plan, w, Receive(p)).client == w.client.(
      replyTimes := w.client.replyTimes[p.seqNo := p.ts], receiveTimes := w.client.receiveTimes[p.seqNo := w.now])
  {
    assert p in w.requests + w.replies;
    assert Open(w.client, p, w.now) && InOrder(w.client, p.seqNo, w.now);
    assert w.client.sendTimes[p.seqNo] == Due(plan, w.client.startTime, p.seqNo);
    DueIsLater(plan, w.client.startTime, p.seqNo);
    assert p.seqNo % UINT32 == p.seqNo;
  }

  lemma ReceivedUnderWay(requests: multiset<Packet>, replies: multiset<Packet>, p: Packet)
    ensures p in replies ==> requests + (replies - multiset{p}) == (requests + replies) - multiset{p}
    ensures p in requests ==> (requests - multiset{p}) + replies == (requests + replies) - multiset{p}
  {
  }

  lemma ReceiveOwnKeepsLists(plan: Plan, w: World, p: Packet)
    requires plan.Valid() && Bounded(plan) && Kept(plan, w) && Enabled(plan, w, Receive(p))
    requires p.id == plan.id && w.client.closedAt.None?
    ensures Lists(plan, Perform(plan, w, Receive(p)))
  {
    var v := Perform(plan, w, Receive(p));
    OwnReplyIsEntered(plan, w, p);
    forall j | 0 <= j < |v.client.sendTimes|
      ensures InOrder(v.client, j, v.now)
    {
      assert InOrder(w.client, j, w.now);
    }
  }

  lemma ReceiveOwnKeepsNetwork(plan: Plan, w: World, p: Packet)
    requires plan.Valid() && Bounded(plan) && Kept(plan, w) && Enabled(plan, w, Receive(p))
    requires p.id == plan.id && w.client.closedAt.None?
    ensures Network(plan, Perform(plan, w, Receive(p)))
  {
    OwnReplyIsEntered(plan, w, p);
    RemoveOne(plan, w.client, w.requests + w.replies, p, w.now);
    ReceivedUnderWay(w.requests, w.replies, p);
  }

  lemma ReceiveOwnKeeps(plan: Plan, w: World, p: Packet)
    requires plan.Valid() && Bounded(plan) && Kept(plan, w) && Enabled(plan, w, Receive(p))
    requires p.id == plan.id && w.client.closedAt.None?
    ensures Kept(plan, Perform(plan, w, Receive(p)))
  {
    OwnReplyIsEntered(plan, w, p);
    ReceiveOwnKeepsLists(plan, w, p);
    ReceiveOwnKeepsNetwork(plan, w, p);
    SameTimetable(plan, w, Perform(plan, w, Receive(p)));
  }

  lemma RemovedKeeps(plan: Plan, w: World, p: Packet, v: World)
    requires plan.Valid() && Kept(plan, w) && p in w.requests + w.replies
    requires v == w.(requests := v.requests, replies := v.replies)
    requires v.requests + v.replies == w.requests + w.replies - multiset{p}
    ensures Kept(plan, v)
  {
    RemoveOne(plan, w.client, w.requests + w.replies, p, w.now);
    OnlyPacketsChange(plan, w, v);
  }

  lemma ReceiveKeeps(plan: Plan, w: World, p: Packet)
    requires plan.Valid() && Bounded(plan) && Kept(plan, w) && Enabled(plan, w, Receive(p))
    ensures Kept(plan, Perform(plan, w, Receive(p)))
  {
    if p.id == plan.id && w.client.closedAt.None? {
      ReceiveOwnKeeps(plan, w, p);
    } else {
      ReceivedUnderWay(w.requests, w.replies, p);
      RemovedKeeps(plan, w, p, Perform(plan, w, Receive(p)));
    }
  }

  lemma LoseKeeps(plan: Plan, w: World, p: Packet, a: Action)
    requires plan.Valid() && Kept(plan, w) && Enabled(plan, w, a)
    requires a in {LoseRequest(p), LoseReply(p)}
    ensures Kept(plan, Perform(plan, w, a))
  {
    ReceivedUnderWay(w.requests, w.replies, p);
    RemovedKeeps(plan, w, p, Perform(plan, w, a));
  }

  lemma OthersUnderWay(requests: multiset<Packet>, replies: multiset<Packet>, p: Packet)
    ensures (requests + multiset{p}) + replies == (requests + replies) + multiset{p}
    ensures requests + (replies + multiset{p}) == (requests + replies) + multiset{p}
  {
  }

  lemma OthersKeep(plan: Plan, w: World, p: Packet, a: Action)
    requires plan.Valid() && Kept(plan, w) && Enabled(plan, w, a)
    requires a in {OthersRequest(p), OthersReply(p)}
    ensures Kept(plan, Perform(plan, w, a))
  {
    AddOne(plan, w.client, w.requests + w.replies, p, w.now);
    OthersUnderWay(w.requests, w.replies, p);
    OnlyPacketsChange(plan, w, Perform(plan, w, a));
  }

  lemma ActionKeeps(plan: Plan, w: World, a: Action)
    requires plan.Valid() && Bounded(plan) && Kept(plan, w) && Enabled(plan, w, a)
    ensures Kept(plan, Perform(plan, w, a))
  {
    match a
    case Wait(until) => WaitKeeps(plan, w, until);
    case Start => StartKeeps(plan, w);
    case SendNow => SendKeeps(plan, w);
    case FinishNow => FinishKeeps(plan, w);
    case Serve(p) => ServeKeeps(plan, w, p);
    case Receive(p) => ReceiveKeeps(plan, w, p);
    case LoseRequest(p) => LoseKeeps(plan, w, p, a);
    case LoseReply(p) => LoseKeeps(plan, w, p, a);
    case OthersRequest(p) => OthersKeep(plan, w, p, a);
    case OthersReply(p) => OthersKeep(plan, w, p, a);
  }

  lemma {:induction false} RunKeeps(plan: Plan, run: seq<World>, i: nat)
    requires plan.Valid() && Bounded(plan) && Run(plan, run) && i < |run|
    ensures Kept(plan, run[i])
  {
    if i == 0 {
      InitiallyKept(plan, run[0]);
    } else {
      RunKeeps(plan, run, i - 1);
      assert StepAt(plan, run, i - 1);
      var a :| Follows(plan, run[i - 1], a, run[i]);
      ActionKeeps(plan, run[i - 1], a);
    }
  }

  /** In every reachable state no sanity check has failed, the three lists are equally long, every
      ping was sent when due, and every answered one was sent, replied to and received in this order. */
  lemma EveryRunIsSane(plan: Plan, w: World)
    requires plan.Valid() && Bounded(plan) && Reachable(plan, w)
    ensures Kept(plan, w)
  {
    var run :| Run(plan, run) && run[|run| - 1] == w;
    RunKeeps(plan, run, |run| - 1);
  }

  /** A client that has closed sent exactly the due number of pings, and closed when the duration and
      the wait after it were over. */
  lemma ClosedMeansComplete(plan: Plan, w: World)
    requires plan.Valid() && Bounded(plan) && Reachable(plan, w) && w.client.closedAt.Some?
    ensures |w.client.sendTimes| == |w.client.replyTimes| == |w.client.receiveTimes| == Pings(plan)
    ensures w.client.closedAt == Some(w.client.startTime + plan.duration + plan.wait)
  {
    EveryRunIsSane(plan, w);
    ClosedCount(plan, w);
  }

  /** And a client does close: when the duration and the wait are over, it has. */
  lemma LateMeansClosed(plan: Plan, w: World)
    requires plan.Valid() && Bounded(plan) && Reachable(plan, w) && w.started
    requires w.now > w.client.startTime + plan.duration + plan.wait
    ensures w.client.closedAt == Some(w.client.startTime + plan.duration + plan.wait)
    ensures |w.client.sendTimes| == Pings(plan)
  {
    EveryRunIsSane(plan, w);
    ClosedCount(plan, w);
  }

  lemma ClosedCount(plan: Plan, w: World)
    requires plan.Valid() && Kept(plan, w) && w.client.closedAt.Some?
    ensures |w.client.sendTimes| == |w.client.replyTimes| == |w.client.receiveTimes| == Pings(plan)
    ensures w.client.closedAt == Some(w.client.startTime + plan.duration + plan.wait)
  {
    PingsCount(plan, w.client.startTime, |w.client.sendTimes|);
  }

  ghost predicate Waiting(w: World, packets: seq<Packet>) {
    w.client.closedAt.None? && multiset(packets) <= w.replies
  }

  /** The state after the waiting replies have been read. */
  function Drained(plan: Plan, w: World, packets: seq<Packet>): World {
    w.(replies := w.replies - multiset(packets), client := ReadReplies(plan, w.client, packets, w.now))
  }

  lemma FirstOfDrain(plan: Plan, w: World, packets: seq<Packet>) returns (u: World)
    requires Waiting(w, packets) && packets != [] && !w.client.aborted
    ensures Follows(plan, w, Receive(packets[0]), u) && Waiting(u, packets[1..])
    ensures Drained(plan, w, packets) == Drained(plan, u, packets[1..])
  {
    assert packets == [packets[0]] + packets[1..];
    FirstTaken(w.replies, packets[0], packets[1..]);
    ReadFirst(plan, w.client, packets[0], packets[1..], w.now);
    u := Perform(plan, w, Receive(packets[0]));
  }

  lemma ReadFirst(plan: Plan, c: Client, p: Packet, rest: seq<Packet>, now: int)
    requires !c.aborted
    ensures ReadReplies(plan, c, [p] + rest, now) == ReadReplies(plan, ReadReply(plan, c, p, now), rest, now)
    ensures ReadReply(plan, c, p, now).closedAt == c.closedAt
  {
    assert ([p] + rest)[1..] == rest;
  }

  lemma FirstTaken(replies: multiset<Packet>, p: Packet, rest: seq<Packet>)
    requires multiset([p] + rest) <= replies
    ensures p in replies && multiset(rest) <= replies - multiset{p}
    ensures (replies - multiset{p}) - multiset(rest) == replies - multiset([p] + rest)
  {
    assert multiset([p] + rest) == multiset{p} + multiset(rest);
    assert p in multiset([p] + rest);
  }

  lemma DrainFirst(plan: Plan, w: World, packets: seq<Packet>) returns (u: World)
    requires plan.Valid() && Bounded(plan) && Reachable(plan, w) && Waiting(w, packets) && packets != []
    ensures Reachable(plan, u) && Waiting(u, packets[1..])
    ensures Drained(plan, w, packets) == Drained(plan, u, packets[1..])
  {
    EveryRunIsSane(plan, w);
    u := FirstOfDrain(plan, w, packets);
    OneMore(plan, w, Receive(packets[0]), u);
  }

  /** Reading all waiting replies at once is receiving them one after the other. */
  lemma {:induction false} DrainIsReceives(plan: Plan, w: World, packets: seq<Packet>)
    requires plan.Valid() && Bounded(plan) && Reachable(plan, w) && Waiting(w, packets)
    ensures Reachable(plan, Drained(plan, w, packets))
    decreases |packets|
  {
    if packets == [] {
      assert Drained(plan, w, packets) == w;
    } else {
      var u := DrainFirst(plan, w, packets);
      DrainIsReceives(plan, u, packets[1..]);
    }
  }

  // ---------- too many pings ----------

  function Product(k: nat, i: nat): nat {
    k * i
  }

  lemma ProductGrows(k: nat, i: nat)
    ensures Product(k + 1, i) == Product(k, i) + i
  {
  }

  /** Ping 0 is answered, all later ones were lost, and `k` pings were sent in all. */
  ghost predicate Lossy(plan: Plan, w: World, k: nat) {
    var c := w.client;
    && w.started && w.requests == multiset{} && w.replies == multiset{}
    && c.startTime == 0 && c.finishEvent.None? && c.closedAt.None? && !c.aborted
    && k > 0 && |c.sendTimes| == |c.replyTimes| == |c.receiveTimes| == k
    && c.replyTimes[0] == 0 && c.sent == k % UINT32
    && c.sendEvent == Some(Product(k, plan.interval)) && w.now <= Product(k, plan.interval)
  }

  function Quiet(): World {
    World(0, false, Fresh(), multiset{}, multiset{})
  }

  function PingAt(plan: Plan, k: nat): Packet {
    Packet(plan.id, k % UINT32, Product(k, plan.interval))
  }

  lemma FirstIsAnswered(plan: Plan) returns (w1: World, w2: World, w3: World, w4: World)
    requires plan.Valid() && plan.interval < plan.duration
    ensures Follows(plan, Quiet(), Start, w1) && Follows(plan, w1, SendNow, w2)
    ensures Follows(plan, w2, Serve(PingAt(plan, 0)), w3) && Follows(plan, w3, Receive(PingAt(plan, 0)), w4)
    ensures Lossy(plan, w4, 1)
  {
    w1 := Perform(plan, Quiet(), Start);
    w2 := Perform(plan, w1, SendNow);
    assert w2.requests == multiset{PingAt(plan, 0)};
    w3 := Perform(plan, w2, Serve(PingAt(plan, 0)));
    assert w3.requests == multiset{} && w3.replies == multiset{PingAt(plan, 0)};
    w4 := Perform(plan, w3, Receive(PingAt(plan, 0)));
  }

  lemma NextIsSent(plan: Plan, w: World, k: nat) returns (w1: World, w2: World)
    requires plan.Valid() && Lossy(plan, w, k) && Product(k + 1, plan.interval) < plan.duration
    ensures Follows(plan, w, Wait(Product(k, plan.interval)), w1) && Follows(plan, w1, SendNow, w2)
    ensures w2.now == Product(k, plan.interval) && w2.requests == multiset{PingAt(plan, k)}
    ensures Lossy(plan, w2.(requests := multiset{}), k + 1)
  {
    ProductGrows(k, plan.interval);
    w1 := Perform(plan, w, Wait(Product(k, plan.interval)));
    w2 := Perform(plan, w1, SendNow);
    CounterNext(k);
  }

  lemma NextIsLost(plan: Plan, w: World, k: nat) returns (v: World)
    requires plan.Valid() && Reachable(plan, w) && Lossy(plan, w, k) && Product(k + 1, plan.interval) < plan.duration
    ensures Reachable(plan, v) && Lossy(plan, v, k + 1)
  {
    var w1, w2 := NextIsSent(plan, w, k);
    TwoMore(plan, w, Wait(Product(k, plan.interval)), w1, SendNow, w2);
    v := w2.(requests := multiset{});
    LostFollows(plan, w2, PingAt(plan, k));
    OneMore(plan, w2, LoseRequest(PingAt(plan, k)), v);
  }

  lemma LostFollows(plan: Plan, w: World, p: Packet)
    requires w.requests == multiset{p} && !w.client.aborted
    ensures Follows(plan, w, LoseRequest(p), w.(requests := multiset{}))
  {
  }

  lemma {:induction false} ManyLost(plan: Plan, k: nat) returns (w: World)
    requires plan.Valid() && k > 0 && Product(k, plan.interval) < plan.duration
    ensures Reachable(plan, w) && Lossy(plan, w, k)
  {
    ProductGrows(k - 1, plan.interval);
    if k == 1 {
      assert Run(plan, [Quiet()]);
      var w1, w2, w3, w4 := FirstIsAnswered(plan);
      TwoMore(plan, Quiet(), Start, w1, SendNow, w2);
      TwoMore(plan, w2, Serve(PingAt(plan, 0)), w3, Receive(PingAt(plan, 0)), w4);
      w := w4;
    } else {
      var v := ManyLost(plan, k - 1);
      w := NextIsLost(plan, v, k - 1);
    }
  }

  /** The answer to ping number 2^32, which carries number 0 again, is taken for a second one to ping 0. */
  lemma WrappedAnswerAborts(plan: Plan, w: World, k: nat) returns (w1: World, w2: World, w3: World, w4: World)
    requires plan.Valid() && Lossy(plan, w, k) && k == UINT32
    ensures Follows(plan, w, Wait(Product(k, plan.interval)), w1) && Follows(plan, w1, SendNow, w2)
    ensures Follows(plan, w2, Serve(PingAt(plan, k)), w3) && Follows(plan, w3, Receive(PingAt(plan, k)), w4)
    ensures w4.client.aborted
  {
    w1 := Perform(plan, w, Wait(Product(k, plan.interval)));
    w2 := Perform(plan, w1, SendNow);
    assert w2.requests == multiset{PingAt(plan, k)};
    w3 := Perform(plan, w2, Serve(PingAt(plan, k)));
    assert w3.replies == multiset{PingAt(plan, k)};
    w4 := Perform(plan, w3, Receive(PingAt(plan, k)));
    assert PingAt(plan, k).seqNo == 0 && w3.client.replyTimes[0] == 0;
  }

  lemma StillFits(plan: Plan, k: nat)
    requires plan.Valid() && 0 < k < Pings(plan)
    ensures Product(k, plan.interval) < plan.duration
  {
    PingsCount(plan, 0, k);
    DueIs(plan, 0, k);
  }

  lemma AbortAtPing(plan: Plan, k: nat) returns (w: World)
    requires plan.Valid() && Pings(plan) > k == UINT32
    ensures Reachable(plan, w) && w.client.aborted
  {
    StillFits(plan, k);
    var v := ManyLost(plan, k);
    var w1, w2, w3, w4 := WrappedAnswerAborts(plan, v, k);
    TwoMore(plan, v, Wait(Product(k, plan.interval)), w1, SendNow, w2);
    TwoMore(plan, w2, Serve(PingAt(plan, k)), w3, Receive(PingAt(plan, k)), w4);
    w := w4;
  }

  /** The sanity checks can fail in some run exactly when more pings are sent than the counter can count. */
  lemma SanityChecksHoldIff(plan: Plan)
    requires plan.Valid()
    ensures (exists w :: Reachable(plan, w) && w.client.aborted) <==> Pings(plan) > 0x1_0000_0000
  {
    if Bounded(plan) {
      forall w | Reachable(plan, w)
        ensures !w.client.aborted
      {
        EveryRunIsSane(plan, w);
      }
    } else {
      var w := AbortAtPing(plan, UINT32);
    }
  }
}
