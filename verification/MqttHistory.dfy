/**
 What the steps of an MQTT run do, told by the actions alone: what is sent, which
 requests are still open, which topics are subscribed to and what a resend pass takes.
 */
module MqttHistory {
  import opened MqttSession
  import opened MqttSystem
  import opened MqttSteps
  import opened MqttRuns

  // ---- What is sent ----

  /** A received packet is answered with exactly this, and a PUBLISH is passed up. */
  lemma AnswersExactly(run: seq<System>, actions: seq<Action>, i: nat, p: Packet)
    requires IsRun(run, actions) && WithinIdSpace(run) && i < |actions| && actions[i] == ClientReceives(p)
    requires p.Publish? ==> p.content != ""
    ensures run[i + 1].client.fired == run[i].client.fired + (
      match p
      case Publish(id, _, _, qos, _, _) => if qos == 1 then [Puback(id)] else if qos == 2 then [Pubrec(id)] else []
      case Pubrec(id) => [Pubrel(id)]
      case Pubrel(id) => [Pubcomp(id)]
      case _ => [])
    ensures run[i + 1].client.delivered == run[i].client.delivered + if p.Publish? then [p] else []
    ensures run[i + 1].client.current == run[i].client.current && !run[i + 1].client.faulted
  {
    ReceivedWasSent(run, actions, i);
    InvHolds(run, actions, i);
    CastsAreRight(run[i], p);
    hide Inv;
    AnswerOf(run[i].client, p);
    assert run[i + 1] == Next(run[i], actions[i]);
  }

  lemma ReceivedWasSent(run: seq<System>, actions: seq<Action>, i: nat)
    requires IsRun(run, actions) && i < |actions| && actions[i].ClientReceives?
    ensures actions[i].p in run[i].toClient && !run[i].client.faulted
  {
  }

  lemma AnswerOf(c: Client, p: Packet)
    requires Sound(c, p) && !p.Connect? && !p.Subscribe? && !p.Unsubscribe? && !p.Pingreq? && !p.Disconnect?
    ensures Receive(c, p).fired == c.fired + (
      match p
      case Publish(id, _, _, qos, _, _) => if qos == 1 then [Puback(id)] else if qos == 2 then [Pubrec(id)] else []
      case Pubrec(id) => [Pubrel(id)]
      case Pubrel(id) => [Pubcomp(id)]
      case _ => [])
    ensures Receive(c, p).delivered == c.delivered + if p.Publish? then [p] else []
    ensures Receive(c, p).current == c.current && Receive(c, p).faulted == c.faulted
  {
    assert c.fired + [] == c.fired && c.delivered + [] == c.delivered;
  }

  /** What no broker may send makes the client send DISCONNECT and end. */
  lemma UnacceptableEnds(c: Client, p: Packet)
    requires p.Connect? || p.Subscribe? || p.Unsubscribe? || p.Pingreq? || p.Disconnect?
    ensures Receive(c, p) == c.(fired := c.fired + [Disconnect], exited := true)
  {
  }

  /** The user's requests are sent at once, under the next id but for QoS 0, which is
      recorded at once. */
  lemma RequestsAreSent(run: seq<System>, actions: seq<Action>, i: nat)
    requires IsRun(run, actions) && WithinIdSpace(run) && i < |actions|
    ensures var id := run[i].client.current + 1;
      match actions[i]
      case UserPublish(content, topic, qos, retain, dup, _) =>
        run[i + 1].client.fired == run[i].client.fired + [Publish(if qos == 0 then 0 else id, content, topic, qos, retain, dup)]
      case UserSubscribe(topic, qos, _) => run[i + 1].client.fired == run[i].client.fired + [Subscribe(id, topic, qos)]
      case UserUnsubscribe(topic, _) => run[i + 1].client.fired == run[i].client.fired + [Unsubscribe(id, topic)]
      case _ => true
    ensures match actions[i]
      case UserPublish(content, topic, qos, retain, dup, _) =>
        run[i + 1].client.saved == run[i].client.saved + if qos == 0 then [Publish(0, content, topic, 0, retain, dup)] else []
      case UserSubscribe(_, _, _) => run[i + 1].client.saved == run[i].client.saved
      case UserUnsubscribe(_, _) => run[i + 1].client.saved == run[i].client.saved
      case _ => true
  {
    RunGrows(run, actions, i + 1, |run| - 1);
    assert run[i + 1] == Next(run[i], actions[i]);
    assert run[i].client.saved + [] == run[i].client.saved;
  }

  // ---- Which requests are open ----

  /** Step `i` acknowledges the request with id `k`. */
  predicate Acknowledges(a: Action, k: int) {
    && a.ClientReceives?
    && match a.p
       case Puback(id) => id == k
       case Pubcomp(id) => id == k
       case Suback(id, _) => id == k
       case Unsuback(id) => id == k
       case _ => false
  }

  ghost predicate AcknowledgedBefore(actions: seq<Action>, j: nat, k: int)
    requires j <= |actions|
  {
    exists i: nat :: i < j && Acknowledges(actions[i], k)
  }

  lemma AcknowledgedNext(actions: seq<Action>, j: nat, k: int)
    requires 0 < j <= |actions|
    ensures AcknowledgedBefore(actions, j, k) <==> AcknowledgedBefore(actions, j - 1, k) || Acknowledges(actions[j - 1], k)
  {
    hide Acknowledges;
  }

  /** Handling a packet takes away what it acknowledges and nothing else. */
  lemma ReceiveTakes(c: Client, p: Packet, k: int)
    requires Sound(c, p) && k > 0
    ensures k in Receive(c, p).table <==> k in c.table && !Acknowledges(ClientReceives(p), k)
  {
  }

  lemma OpenStep(s: System, a: Action, k: int)
    requires Inv(s) && Enabled(s, a) && Next(s, a).client.current < ID_SPACE && k > 0
    ensures k in Next(s, a).client.table <==>
      if k in s.submitted then k in s.client.table && !Acknowledges(a, k) else k in Next(s, a).submitted
    ensures k in s.submitted || Acknowledges(a, k) ==> k in Next(s, a).submitted
    ensures Acknowledges(a, k) ==> k in s.submitted
  {
    if a.ClientReceives? {
      CastsAreRight(s, a.p);
      if Acknowledges(a, k) { AcknowledgedIsSubmitted(s, a.p, k); }
      hide ChannelInv, SavedInv;
      if Sound(s.client, a.p) { ReceiveTakes(s.client, a.p, k); }
      hide Receive, Sound;
    } else {
      OthersOpen(s, a, k);
      hide Inv, Next, Enabled;
    }
  }

  lemma AcknowledgedIsSubmitted(s: System, p: Packet, k: int)
    requires Inv(s) && p in s.toClient && Acknowledges(ClientReceives(p), k)
    ensures k in s.submitted
  {
    hide SavedInv;
  }

  /** The table only grows at the user's requests. */
  lemma OthersOpen(s: System, a: Action, k: int)
    requires Inv(s) && Enabled(s, a) && !a.ClientReceives? && Next(s, a).client.current < ID_SPACE && k > 0
    ensures k in Next(s, a).client.table <==> if k in s.submitted then k in s.client.table else k in Next(s, a).submitted
    ensures k in s.submitted ==> k in Next(s, a).submitted
  {
    hide ChannelInv, SavedInv;
    if a.ResendTick? { ResendOnlyFires(s.client, a.order); }
  }

  lemma {:induction false} OpenFrom(run: seq<System>, actions: seq<Action>, j: nat, k: int)
    requires IsRun(run, actions) && WithinIdSpace(run) && j <= |actions| && k > 0
    ensures k in run[j].client.table <==> k in run[j].submitted && !AcknowledgedBefore(actions, j, k)
    ensures AcknowledgedBefore(actions, j, k) ==> k in run[j].submitted
    decreases j
  {
    if j == 0 {
    } else {
      hide Next, Enabled, Inv, Acknowledges, AcknowledgedBefore;
      OpenFrom(run, actions, j - 1, k);
      InvHolds(run, actions, j - 1);
      RunGrows(run, actions, j, |run| - 1);
      OpenStep(run[j - 1], actions[j - 1], k);
      AcknowledgedNext(actions, j, k);
    }
  }

  /** A request waits from the step that submits it to the first acknowledgement of its id
      that is handled; from then on, and not before, a publish is recorded. */
  lemma OpenUntilAcknowledged(run: seq<System>, actions: seq<Action>, j: nat, k: int)
    requires IsRun(run, actions) && WithinIdSpace(run) && j <= |actions| && k in run[j].submitted
    ensures k in run[j].client.table <==> !AcknowledgedBefore(actions, j, k)
    ensures run[j].submitted[k].Publish? ==> (run[j].submitted[k] in run[j].client.saved <==> AcknowledgedBefore(actions, j, k))
  {
    KeysMatchPackets(run, actions, j, k);
    OpenFrom(run, actions, j, k);
    if run[j].submitted[k].Publish? { InTableOrRecorded(run, actions, j, k); }
  }

  predicate Connects(a: Action) {
    a.ClientReceives? && a.p.Connack?
  }

  ghost predicate ConnectedBefore(actions: seq<Action>, j: nat)
    requires j <= |actions|
  {
    exists i: nat :: i < j && Connects(actions[i])
  }

  lemma ConnectStep(s: System, a: Action)
    requires Inv(s) && Enabled(s, a) && Next(s, a).client.current < ID_SPACE
    ensures 0 in Next(s, a).client.table <==> 0 in s.client.table && !Connects(a)
  {
    if a.ClientReceives? { CastsAreRight(s, a.p); }
    hide ChannelInv, SavedInv;
    if a.ResendTick? { ResendOnlyFires(s.client, a.order); }
  }

  /** CONNECT waits until a CONNACK, of whatever return code, is handled. */
  lemma {:induction false} ConnectWaits(run: seq<System>, actions: seq<Action>, j: nat)
    requires IsRun(run, actions) && WithinIdSpace(run) && j <= |actions|
    ensures 0 in run[j].client.table <==> !ConnectedBefore(actions, j)
    decreases j
  {
    if j == 0 {
    } else {
      hide Next, Enabled, Inv, Connects;
      ConnectWaits(run, actions, j - 1);
      InvHolds(run, actions, j - 1);
      RunGrows(run, actions, j, |run| - 1);
      ConnectStep(run[j - 1], actions[j - 1]);
    }
  }

  // ---- Which topics are subscribed to ----

  /** A SUBACK without failure finds the subscription to `topic` with QoS `qos`. */
  predicate Subscribes(s: System, a: Action, topic: string, qos: int) {
    && a.ClientReceives? && a.p.Suback? && !a.p.failure
    && a.p.id in s.client.table && s.client.table[a.p.id].packet == Subscribe(a.p.id, topic, qos)
  }

  predicate Unsubscribes(s: System, a: Action, topic: string) {
    && a.ClientReceives? && a.p.Unsuback?
    && a.p.id in s.client.table && s.client.table[a.p.id].packet == Unsubscribe(a.p.id, topic)
  }

  /** Step `i` changes the subscription to `topic`. */
  ghost predicate Changes(s: System, a: Action, topic: string) {
    Unsubscribes(s, a, topic) || exists qos :: Subscribes(s, a, topic, qos)
  }

  ghost predicate Unchanged(run: seq<System>, actions: seq<Action>, i: nat, j: nat, topic: string)
    requires j <= |actions| && |run| == |actions| + 1
  {
    forall m :: i < m < j ==> !Changes(run[m], actions[m], topic)
  }

  /** The last step before `j` that changed the subscription to `topic` was one to `qos`. */
  ghost predicate LastSubscribed(run: seq<System>, actions: seq<Action>, j: nat, topic: string, qos: int)
    requires j <= |actions| && |run| == |actions| + 1
  {
    exists i: nat :: i < j && Subscribes(run[i], actions[i], topic, qos) && Unchanged(run, actions, i, j, topic)
  }

  lemma LastSubscribedNext(run: seq<System>, actions: seq<Action>, j: nat, topic: string, qos: int)
    requires 0 < j <= |actions| && |run| == |actions| + 1
    ensures LastSubscribed(run, actions, j, topic, qos) <==>
      if Changes(run[j - 1], actions[j - 1], topic) then Subscribes(run[j - 1], actions[j - 1], topic, qos)
      else LastSubscribed(run, actions, j - 1, topic, qos)
  {
    var s, a := run[j - 1], actions[j - 1];
    if Subscribes(s, a, topic, qos) {
      assert Unchanged(run, actions, j - 1, j, topic);
    } else if LastSubscribed(run, actions, j - 1, topic, qos) && !Changes(s, a, topic) {
      hide Subscribes, Changes;
      var i: nat :| i < j - 1 && Subscribes(run[i], actions[i], topic, qos) && Unchanged(run, actions, i, j - 1, topic);
      assert Unchanged(run, actions, i, j, topic);
    }
    if LastSubscribed(run, actions, j, topic, qos) && !Subscribes(s, a, topic, qos) {
      hide Subscribes, Changes;
      var i: nat :| i < j && Subscribes(run[i], actions[i], topic, qos) && Unchanged(run, actions, i, j, topic);
      assert i < j - 1 && Unchanged(run, actions, i, j - 1, topic);
    }
  }

  /** Topic `t` is in `m` with QoS `qos`. */
  predicate Has(m: map<string, int>, topic: string, qos: int) {
    topic in m && m[topic] == qos
  }

  lemma TopicStep(s: System, a: Action, topic: string, qos: int)
    requires Inv(s) && Enabled(s, a) && Next(s, a).client.current < ID_SPACE
    ensures Has(Next(s, a).client.topics, topic, qos) <==>
      if Changes(s, a, topic) then Subscribes(s, a, topic, qos) else Has(s.client.topics, topic, qos)
  {
    if a.ResendTick? { ResendOnlyFires(s.client, a.order); }
    if a.ClientReceives? {
      CastsAreRight(s, a.p);
      hide ChannelInv, SavedInv;
      if a.p.Suback? && a.p.id in s.client.table && !a.p.failure {
        var w := s.client.table[a.p.id].packet;
        assert w == Subscribe(a.p.id, w.topic, w.qos) && Subscribes(s, a, w.topic, w.qos);
      }
      if a.p.Unsuback? && a.p.id in s.client.table {
        var w := s.client.table[a.p.id].packet;
        assert w == Unsubscribe(a.p.id, w.topic);
      }
    }
  }

  /** A topic is subscribed to with a QoS exactly when the last SUBACK without failure or
      UNSUBACK that found a request for it was a SUBACK for a SUBSCRIBE with that QoS; a
      failure leaves an earlier subscription as it is. */
  lemma {:induction false} TopicsOverRun(run: seq<System>, actions: seq<Action>, j: nat, topic: string, qos: int)
    requires IsRun(run, actions) && WithinIdSpace(run) && j <= |actions|
    ensures Has(run[j].client.topics, topic, qos) <==> LastSubscribed(run, actions, j, topic, qos)
    decreases j
  {
    if j == 0 {
    } else {
      hide Next, Enabled, Inv, Has, LastSubscribed, Subscribes, Changes;
      TopicsOverRun(run, actions, j - 1, topic, qos);
      InvHolds(run, actions, j - 1);
      RunGrows(run, actions, j, |run| - 1);
      TopicStep(run[j - 1], actions[j - 1], topic, qos);
      LastSubscribedNext(run, actions, j, topic, qos);
    }
  }

  // ---- What a resend pass takes ----

  /** The time at which the user made a request. */
  function TimeOf(a: Action): int {
    match a
    case UserPublish(_, _, _, _, _, now) => now
    case UserSubscribe(_, _, now) => now
    case UserUnsubscribe(_, now) => now
    case _ => 0
  }

  /** Step `i` gives out id `k`. */
  ghost predicate GivesOut(run: seq<System>, i: nat, k: int)
    requires i + 1 < |run|
  {
    run[i].client.current + 1 == k == run[i + 1].client.current
  }

  ghost predicate StampedBy(run: seq<System>, actions: seq<Action>, j: nat, k: int, time: int)
    requires j <= |actions| && |run| == |actions| + 1
  {
    exists i: nat :: i < j && GivesOut(run, i, k) && TimeOf(actions[i]) == time
  }

  lemma StampStep(s: System, a: Action, k: int)
    requires Inv(s) && Enabled(s, a) && Next(s, a).client.current < ID_SPACE && k > 0
    requires k in Next(s, a).client.table
    ensures if k <= s.client.current then k in s.client.table && Next(s, a).client.table[k].timeStamp == s.client.table[k].timeStamp
      else s.client.current + 1 == k == Next(s, a).client.current && Next(s, a).client.table[k].timeStamp == TimeOf(a)
  {
    if a.ResendTick? { ResendOnlyFires(s.client, a.order); }
    if a.ClientReceives? {
      CastsAreRight(s, a.p);
      hide Inv, Sound;
      ReceiveKeepsStamps(s.client, a.p, k);
      KeysAreGiven(s, k);
    } else {
      hide ChannelInv, SavedInv;
    }
  }

  lemma ReceiveKeepsStamps(c: Client, p: Packet, k: int)
    requires k in Receive(c, p).table
    ensures k in c.table && Receive(c, p).table[k] == c.table[k] && Receive(c, p).current == c.current
  {
  }

  lemma KeysAreGiven(s: System, k: int)
    requires Inv(s)
    ensures k in s.client.table ==> k <= s.client.current
  {
  }

  /** An entry bears the time of the request. */
  lemma {:induction false} StampIsRequestTime(run: seq<System>, actions: seq<Action>, j: nat, k: int)
    requires IsRun(run, actions) && WithinIdSpace(run) && j <= |actions| && k > 0 && k in run[j].client.table
    ensures StampedBy(run, actions, j, k, run[j].client.table[k].timeStamp)
    decreases j
  {
    if j == 0 {
    } else {
      hide Next, Enabled, Inv;
      InvHolds(run, actions, j - 1);
      RunGrows(run, actions, j, |run| - 1);
      StampStep(run[j - 1], actions[j - 1], k);
      if k <= run[j - 1].client.current {
        StampIsRequestTime(run, actions, j - 1, k);
      } else {
        assert GivesOut(run, j - 1, k);
      }
    }
  }

  /** A resend pass fires, once each, exactly the waiting requests that were made more than
      ten seconds before, as they were first sent, and changes nothing else. */
  lemma ResendsTheOld(run: seq<System>, actions: seq<Action>, j: nat)
    requires IsRun(run, actions) && WithinIdSpace(run) && j < |actions| && actions[j].ResendTick?
    ensures var now, order, c := actions[j].now, actions[j].order, run[j].client;
      && (forall k :: k in order <==> k in c.table && now - c.table[k].timeStamp > 10)
      && (forall m, n :: 0 <= m < n < |order| ==> order[m] != order[n])
      && run[j + 1].client == c.(fired := run[j + 1].client.fired)
      && |run[j + 1].client.fired| == |c.fired| + |order| && c.fired <= run[j + 1].client.fired
      && (forall n :: 0 <= n < |order| ==> order[n] in c.table && run[j + 1].client.fired[|c.fired| + n] == c.table[order[n]].packet)
    ensures forall k :: k > 0 && k in run[j].client.table ==>
      StampedBy(run, actions, j, k, run[j].client.table[k].timeStamp)
  {
    assert run[j + 1] == Next(run[j], actions[j]);
    ResendOnlyFires(run[j].client, actions[j].order);
    ResendAppends(run[j].client, actions[j].order);
    forall k | k > 0 && k in run[j].client.table ensures StampedBy(run, actions, j, k, run[j].client.table[k].timeStamp) {
      StampIsRequestTime(run, actions, j, k);
    }
  }
}
