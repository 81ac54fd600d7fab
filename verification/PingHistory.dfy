/** Where the entries in the lists of the ping client come from: the journeys of its pings. */
module PingHistory {
  import opened Options
  import opened UdpPing

  /** Step `i` of the run is this action. */
  ghost predicate DoneAt(plan: Plan, run: seq<World>, i: int, a: Action) {
    0 <= i < |run| - 1 && Follows(plan, run[i], a, run[i + 1])
  }

  // ---------- one step ----------

  /** The lists are equally long, and the counter counts them as far as it can. */
  predicate Tidy(c: Client) {
    |c.replyTimes| == |c.sendTimes| == |c.receiveTimes| && c.sent == |c.sendTimes| % UINT32
  }

  /** The action enters ping `k` as answered: it is a reply of ours with that number, and it is the first one. */
  predicate Enters(plan: Plan, w: World, a: Action, k: nat) {
    && a.Receive? && a.p.id == plan.id && a.p.seqNo % UINT32 == k
    && k < |w.client.replyTimes| && !w.client.Answered(k)
  }

  lemma ReplyOfOthersChangesNothing(plan: Plan, w: World, p: Packet)
    requires p.id != plan.id
    ensures Perform(plan, w, Receive(p)).client == w.client
  {
  }

  ghost predicate SameEntry(c: Client, d: Client, k: nat)
    requires Tidy(c) && Tidy(d) && k < |c.sendTimes| && k < |d.sendTimes|
  {
    d.sendTimes[k] == c.sendTimes[k] && d.replyTimes[k] == c.replyTimes[k] && d.receiveTimes[k] == c.receiveTimes[k]
  }

  lemma SendStaysTidy(plan: Plan, c: Client, now: int)
    requires Tidy(c)
    ensures var d, n := SendPing(plan, c, now), |c.sendTimes|;
      && Tidy(d) && |d.sendTimes| == n + 1 && d.sendTimes[n] == now && !d.Answered(n)
      && forall k :: 0 <= k < n ==> SameEntry(c, d, k)
  {
    CounterNext(|c.sendTimes|);
  }

  lemma ReadStaysTidy(plan: Plan, c: Client, p: Packet, now: int, k: nat)
    requires Tidy(c) && k < |c.sendTimes|
    ensures var d := ReadReply(plan, c, p, now);
      && Tidy(d) && |d.sendTimes| == |c.sendTimes| && d.sendTimes[k] == c.sendTimes[k]
      && (SameEntry(c, d, k) ||
          (p.id == plan.id && p.seqNo % UINT32 == k && !c.Answered(k)
           && d.replyTimes[k] == p.ts && d.receiveTimes[k] == now))
  {
  }

  lemma OthersStayTidy(plan: Plan, w: World, a: Action, v: World)
    requires Follows(plan, w, a, v) && !a.SendNow? && !a.Receive?
    ensures v.client.sendTimes == w.client.sendTimes && v.client.sent == w.client.sent
    ensures v.client.replyTimes == w.client.replyTimes && v.client.receiveTimes == w.client.receiveTimes
  {
  }

  /** The lists grow by pings that are sent, which are not answered at first. */
  lemma StaysTidy(plan: Plan, w: World, a: Action, v: World)
    requires Tidy(w.client) && Follows(plan, w, a, v)
    ensures Tidy(v.client)
    ensures var n := |w.client.sendTimes|;
      if a.SendNow? then |v.client.sendTimes| == n + 1 && v.client.sendTimes[n] == w.now && !v.client.Answered(n)
      else |v.client.sendTimes| == n
  {
    match a
    case SendNow => SendStaysTidy(plan, w.client.(sendEvent := None), w.now);
    case Receive(p) =>
    case _ => OthersStayTidy(plan, w, a, v);
  }

  /** Entries are for good: a step changes those of ping `k` only by entering the first reply to it, with
      the time in the reply and the present time. */
  lemma EntriesStay(plan: Plan, w: World, a: Action, v: World, k: nat)
    requires Tidy(w.client) && Tidy(v.client) && Follows(plan, w, a, v)
    requires k < |w.client.sendTimes| <= |v.client.sendTimes|
    ensures v.client.sendTimes[k] == w.client.sendTimes[k]
    ensures SameEntry(w.client, v.client, k) ||
      (Enters(plan, w, a, k) && v.client.replyTimes[k] == a.p.ts && v.client.receiveTimes[k] == w.now)
  {
    match a
    case SendNow => SendStaysTidy(plan, w.client.(sendEvent := None), w.now);
    case Receive(p) => ReadStaysTidy(plan, w.client, p, w.now, k);
    case _ => OthersStayTidy(plan, w, a, v);
  }

  // ---------- what a run has seen ----------

  ghost predicate SentAt(plan: Plan, run: seq<World>, h: int, ping: Packet) {
    DoneAt(plan, run, h, SendNow) && ping == Packet(plan.id, |run[h].client.sendTimes| % UINT32, run[h].now)
  }

  ghost predicate Sent(plan: Plan, run: seq<World>, n: int, ping: Packet) {
    exists h :: 0 <= h < n && SentAt(plan, run, h, ping)
  }

  /** The server answered the ping: the reply has its identifier and number, and the time of the answer. */
  ghost predicate ServedAt(plan: Plan, run: seq<World>, i: int, ping: Packet, reply: Packet) {
    && DoneAt(plan, run, i, Serve(ping)) && Sent(plan, run, i, ping)
    && reply == Packet(ping.id, ping.seqNo, run[i].now)
  }

  ghost predicate Served(plan: Plan, run: seq<World>, n: int, reply: Packet) {
    exists i, ping :: 0 <= i < n && ServedAt(plan, run, i, ping, reply)
  }

  /** The client received the reply to ping `k`. */
  ghost predicate ReceivedAt(plan: Plan, run: seq<World>, j: int, reply: Packet, k: nat) {
    && DoneAt(plan, run, j, Receive(reply)) && Served(plan, run, j, reply)
    && reply.id == plan.id && reply.seqNo % UINT32 == k
  }

  /** The entries of ping `k` are the time in a reply received before, and the time when it was received. */
  ghost predicate EntryKnown(plan: Plan, run: seq<World>, n: int, c: Client, k: nat)
    requires Tidy(c) && k < |c.sendTimes|
  {
    exists j, reply :: 0 <= j < n && ReceivedAt(plan, run, j, reply, k)
      && c.replyTimes[k] == reply.ts && c.receiveTimes[k] == run[j].now
  }

  /** Ping number `|run[h].client.sendTimes|` was sent in step `h`. */
  ghost predicate SendKnown(plan: Plan, run: seq<World>, h: int, c: Client) {
    DoneAt(plan, run, h, SendNow) ==>
      var k := |run[h].client.sendTimes|; k < |c.sendTimes| && c.sendTimes[k] == run[h].now
  }

  ghost predicate RequestsKnown(plan: Plan, run: seq<World>, n: int, w: World) {
    forall p :: p in w.requests && p.id == plan.id ==> Sent(plan, run, n, p)
  }

  ghost predicate RepliesKnown(plan: Plan, run: seq<World>, n: int, w: World) {
    forall p :: p in w.replies && p.id == plan.id ==> Served(plan, run, n, p)
  }

  ghost predicate EntriesKnown(plan: Plan, run: seq<World>, n: int, c: Client) {
    && Tidy(c)
    && (forall k: nat :: k < |c.sendTimes| && c.Answered(k) ==> EntryKnown(plan, run, n, c, k))
    && (forall h :: 0 <= h < n ==> SendKnown(plan, run, h, c))
  }

  lemma SentEarlier(plan: Plan, run: seq<World>, n: int, p: Packet)
    ensures Sent(plan, run, n, p) ==> Sent(plan, run, n + 1, p)
    ensures Served(plan, run, n, p) ==> Served(plan, run, n + 1, p)
  {
  }

  lemma RequestsStayKnown(plan: Plan, run: seq<World>, n: nat, a: Action)
    requires DoneAt(plan, run, n, a) && Tidy(run[n].client) && RequestsKnown(plan, run, n, run[n])
    ensures RequestsKnown(plan, run, n + 1, run[n + 1])
  {
    var w, v := run[n], run[n + 1];
    forall p | p in v.requests && p.id == plan.id
      ensures Sent(plan, run, n + 1, p)
    {
      SentEarlier(plan, run, n, p);
      if p !in w.requests {
        assert SentAt(plan, run, n, p);
      }
    }
  }

  lemma RepliesStayKnown(plan: Plan, run: seq<World>, n: nat, a: Action)
    requires DoneAt(plan, run, n, a) && RequestsKnown(plan, run, n, run[n]) && RepliesKnown(plan, run, n, run[n])
    ensures RepliesKnown(plan, run, n + 1, run[n + 1])
  {
    var w, v := run[n], run[n + 1];
    forall p | p in v.replies && p.id == plan.id
      ensures Served(plan, run, n + 1, p)
    {
      SentEarlier(plan, run, n, p);
      if p !in w.replies {
        assert ServedAt(plan, run, n, a.p, p);
      }
    }
  }

  lemma EntryStaysKnown(plan: Plan, run: seq<World>, n: nat, a: Action, k: nat)
    requires DoneAt(plan, run, n, a) && RepliesKnown(plan, run, n, run[n]) && EntriesKnown(plan, run, n, run[n].client)
    requires Tidy(run[n + 1].client) && k < |run[n + 1].client.sendTimes| && run[n + 1].client.Answered(k)
    ensures EntryKnown(plan, run, n + 1, run[n + 1].client, k)
  {
    var w, v := run[n], run[n + 1];
    StaysTidy(plan, w, a, v);
    if k < |w.client.sendTimes| {
      EntriesStay(plan, w, a, v, k);
      if SameEntry(w.client, v.client, k) {
        assert EntryKnown(plan, run, n, w.client, k);
      } else {
        assert ReceivedAt(plan, run, n, a.p, k);
      }
    }
  }

  lemma EntriesStayKnown(plan: Plan, run: seq<World>, n: nat, a: Action)
    requires DoneAt(plan, run, n, a) && RepliesKnown(plan, run, n, run[n]) && EntriesKnown(plan, run, n, run[n].client)
    ensures EntriesKnown(plan, run, n + 1, run[n + 1].client)
  {
    var w, v := run[n], run[n + 1];
    StaysTidy(plan, w, a, v);
    forall k: nat | k < |v.client.sendTimes| && v.client.Answered(k)
      ensures EntryKnown(plan, run, n + 1, v.client, k)
    {
      EntryStaysKnown(plan, run, n, a, k);
    }
    forall h | 0 <= h < n + 1
      ensures SendKnown(plan, run, h, v.client)
    {
      if h < n {
        SendStaysKnown(plan, run, h, w, a, v);
      }
    }
  }

  lemma SendStaysKnown(plan: Plan, run: seq<World>, h: int, w: World, a: Action, v: World)
    requires Tidy(w.client) && Follows(plan, w, a, v) && SendKnown(plan, run, h, w.client)
    ensures SendKnown(plan, run, h, v.client)
  {
    StaysTidy(plan, w, a, v);
    if DoneAt(plan, run, h, SendNow) {
      EntriesStay(plan, w, a, v, |run[h].client.sendTimes|);
    }
  }

  ghost predicate AllKnown(plan: Plan, run: seq<World>, n: int, w: World) {
    RequestsKnown(plan, run, n, w) && RepliesKnown(plan, run, n, w) && EntriesKnown(plan, run, n, w.client)
  }

  lemma NothingSeenYet(plan: Plan, run: seq<World>, w: World)
    requires Initial(plan, w)
    ensures AllKnown(plan, run, 0, w)
  {
  }

  lemma AllStaysKnown(plan: Plan, run: seq<World>, n: nat, a: Action)
    requires DoneAt(plan, run, n, a) && AllKnown(plan, run, n, run[n])
    ensures AllKnown(plan, run, n + 1, run[n + 1])
  {
    RequestsStayKnown(plan, run, n, a);
    RepliesStayKnown(plan, run, n, a);
    EntriesStayKnown(plan, run, n, a);
  }

  lemma OneMoreStepIsKnown(plan: Plan, run: seq<World>, n: nat)
    requires n < |run| - 1 && StepAt(plan, run, n) && AllKnown(plan, run, n, run[n])
    ensures AllKnown(plan, run, n + 1, run[n + 1])
  {
    var a :| Follows(plan, run[n], a, run[n + 1]);
    AllStaysKnown(plan, run, n, a);
  }

  lemma {:induction false} RunIsKnown(plan: Plan, run: seq<World>, n: nat)
    requires Run(plan, run) && n < |run|
    ensures AllKnown(plan, run, n, run[n])
  {
    if n == 0 {
      NothingSeenYet(plan, run, run[0]);
    } else {
      RunIsKnown(plan, run, n - 1);
      OneMoreStepIsKnown(plan, run, n - 1);
    }
  }

  /** The number in a packet is that of the ping. */
  lemma NumberFits(plan: Plan, run: seq<World>, h: int)
    requires plan.Valid() && Bounded(plan) && Run(plan, run) && DoneAt(plan, run, h, SendNow)
    ensures |run[h].client.sendTimes| < UINT32
  {
    RunKeeps(plan, run, h);
    RunKeeps(plan, run, h + 1);
  }

  /** An answered ping has made the whole journey, once each way and in this order: it was sent at the time in
      the first list, answered by the server at the time in the second, and the reply was received at the time
      in the third. */
  lemma AnsweredPingsMadeTheTrip(plan: Plan, run: seq<World>, k: nat) returns (h: int, i: int, j: int)
    requires plan.Valid() && Bounded(plan) && Run(plan, run)
    requires var c := run[|run| - 1].client; k < |c.replyTimes| && c.Answered(k)
    ensures var c := run[|run| - 1].client; |c.sendTimes| == |c.replyTimes| == |c.receiveTimes|
    ensures 0 <= h < i < j < |run| - 1
    ensures var c := run[|run| - 1].client;
      && run[h].now == c.sendTimes[k] && run[i].now == c.replyTimes[k] && run[j].now == c.receiveTimes[k]
      && DoneAt(plan, run, h, SendNow) && |run[h].client.sendTimes| == k
      && DoneAt(plan, run, i, Serve(Packet(plan.id, k, c.sendTimes[k])))
      && DoneAt(plan, run, j, Receive(Packet(plan.id, k, c.replyTimes[k])))
  {
    var last := |run| - 1;
    var c := run[last].client;
    RunIsKnown(plan, run, last);
    var ping, reply;
    h, i, j, ping, reply := EntryMadeTheTrip(plan, run, last, c, k);
    NumberFits(plan, run, h);
    SmallNumber(|run[h].client.sendTimes|);
    assert SendKnown(plan, run, h, c);
  }

  lemma SmallNumber(n: nat)
    requires n < UINT32
    ensures n % UINT32 == n
  {
  }

  lemma EntryMadeTheTrip(plan: Plan, run: seq<World>, n: int, c: Client, k: nat)
    returns (h: int, i: int, j: int, ping: Packet, reply: Packet)
    requires Tidy(c) && k < |c.sendTimes| && EntryKnown(plan, run, n, c, k)
    ensures 0 <= h < i < j < n && j < |run| - 1
    ensures SentAt(plan, run, h, ping) && DoneAt(plan, run, i, Serve(ping)) && DoneAt(plan, run, j, Receive(reply))
    ensures reply == Packet(ping.id, ping.seqNo, run[i].now) && reply.seqNo % UINT32 == k
    ensures c.replyTimes[k] == run[i].now && c.receiveTimes[k] == run[j].now
  {
    j, reply :| 0 <= j < n && ReceivedAt(plan, run, j, reply, k)
      && c.replyTimes[k] == reply.ts && c.receiveTimes[k] == run[j].now;
    i, ping :| 0 <= i < j && ServedAt(plan, run, i, ping, reply);
    h :| 0 <= h < i && SentAt(plan, run, h, ping);
  }
}
