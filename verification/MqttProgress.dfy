/** Every request that waits can still be completed, however the run went so far. */
module MqttProgress {
  import opened MqttSession
  import opened MqttSystem
  import opened MqttSteps
  import opened MqttRuns
  import opened MqttIds

  predicate Stored(c: Client, k: int) {
    k in c.table ==> c.table[k].packet in c.fired
  }

  lemma StoredStep(s: System, a: Action, k: int)
    requires Inv(s) && Enabled(s, a) && Next(s, a).client.current < ID_SPACE && Stored(s.client, k)
    ensures Stored(Next(s, a).client, k)
  {
    if a.ResendTick? { ResendOnlyFires(s.client, a.order); }
    if a.ClientReceives? { CastsAreRight(s, a.p); }
    hide ChannelInv, SavedInv;
  }

  lemma {:induction false} StoredWasFired(run: seq<System>, actions: seq<Action>, j: nat, k: int)
    requires IsRun(run, actions) && WithinIdSpace(run) && j < |run|
    ensures Stored(run[j].client, k)
    decreases j
  {
    if j == 0 {
    } else {
      hide Next, Enabled, Inv, Stored;
      StoredWasFired(run, actions, j - 1, k);
      InvHolds(run, actions, j - 1);
      RunGrows(run, actions, j, |run| - 1);
      StoredStep(run[j - 1], actions[j - 1], k);
    }
  }

  /** A state of a run in which the client goes on. */
  ghost predicate Alive(s: System) {
    Reachable(s) && s.client.current < ID_SPACE && !s.client.faulted && !s.client.exited
  }

  lemma WaitingWasFired(s: System, k: int)
    requires Reachable(s) && s.client.current < ID_SPACE && k > 0 && k in s.client.table
    ensures Inv(s) && s.client.table[k].packet in s.client.fired
    ensures k in s.submitted && s.client.table[k].packet == s.submitted[k] && s.submitted[k].id == k
  {
    hide Inv;
    var run, actions :| EndsIn(run, actions, s);
    InvHolds(run, actions, |run| - 1);
    StoredWasFired(run, actions, |run| - 1, k);
    hide *;
    OwnedAt(s, k);
  }

  lemma OwnedAt(s: System, k: int)
    requires Inv(s) && k > 0 && k in s.client.table
    ensures k in s.submitted && s.client.table[k].packet == s.submitted[k] && s.submitted[k].id == k
  {
  }

  /** Handing the client a packet of the channel that it can handle. */
  lemma Hand(s: System, p: Packet) returns (t: System)
    requires Alive(s) && p in s.toClient && Sound(s.client, p) && !Receive(s.client, p).exited
    ensures Alive(t) && t == s.(client := Receive(s.client, p))
  {
    hide Reachable;
    ReachNext(s, ClientReceives(p));
    t := Next(s, ClientReceives(p));
    CountStays(s.client, p);
  }

  lemma CountStays(c: Client, p: Packet)
    ensures Receive(c, p).current == c.current
    ensures Sound(c, p) ==> Receive(c, p).faulted == c.faulted
  {
  }

  /** Handing the broker what the client has fired. */
  lemma Give(s: System, p: Packet) returns (t: System)
    requires Alive(s) && p in s.client.fired
    ensures Alive(t) && t == Answer(s, p) && t.client == s.client
  {
    hide Reachable;
    ReachNext(s, BrokerReceives(p));
    t := Next(s, BrokerReceives(p));
  }

  /** One round trip for QoS 1, two for QoS 2. */
  lemma CanBeRecorded(s: System, k: int)
    requires Alive(s) && k > 0 && k in s.client.table
    requires s.client.table[k].packet.Publish? && s.client.table[k].packet.qos in {1, 2}
    ensures exists t :: Alive(t) && k !in t.client.table && s.client.table[k].packet in t.client.saved
  {
    hide Alive, Receive, Answer;
    AliveMeans(s);
    WaitingWasFired(s, k);
    hide Inv, Reachable;
    var p := s.client.table[k].packet;
    var t := Give(s, p);
    if p.qos == 1 {
      AnsweredWith(s, p);
      assert Puback(k) in t.toClient;
      RetiresFound(t.client, Puback(k), k);
      t := Hand(t, Puback(k));
    } else {
      AnsweredWith(s, p);
      PubrecKeeps(t.client, k);
      t := Hand(t, Pubrec(k));
      AnsweredWith(t, Pubrel(k));
      t := Give(t, Pubrel(k));
      RetiresFound(t.client, Pubcomp(k), k);
      t := Hand(t, Pubcomp(k));
    }
  }

  lemma AliveMeans(s: System)
    requires Alive(s)
    ensures Reachable(s) && s.client.current < ID_SPACE && !s.client.faulted && !s.client.exited
  {
  }

  lemma AnsweredWith(s: System, p: Packet)
    ensures p.Publish? && p.qos == 1 ==> Puback(p.id) in Answer(s, p).toClient
    ensures p.Publish? && p.qos == 2 ==> Pubrec(p.id) in Answer(s, p).toClient
    ensures p.Pubrel? ==> Pubcomp(p.id) in Answer(s, p).toClient
    ensures p.Unsubscribe? ==> Unsuback(p.id) in Answer(s, p).toClient
  {
  }

  lemma PubrecKeeps(c: Client, k: int)
    requires !c.exited
    ensures Sound(c, Pubrec(k)) && !Receive(c, Pubrec(k)).exited
    ensures Receive(c, Pubrec(k)).table == c.table && Pubrel(k) in Receive(c, Pubrec(k)).fired
  {
  }

  lemma RetiresFound(c: Client, p: Packet, k: int)
    requires p in {Puback(k), Pubcomp(k)} && k in c.table && c.table[k].packet.Publish? && !c.exited
    ensures Sound(c, p) && !Receive(c, p).exited
    ensures k !in Receive(c, p).table && c.table[k].packet in Receive(c, p).saved
  {
  }

  /** A subscription that waits can still be granted, and one to be given up be given up. */
  lemma CanBeSubscribed(s: System, k: int)
    requires Alive(s) && k > 0 && k in s.client.table && s.client.table[k].packet.Subscribe?
    ensures var p := s.client.table[k].packet;
      exists t :: Alive(t) && k !in t.client.table && p.topic in t.client.topics && t.client.topics[p.topic] == p.qos
  {
    hide Receive;
    WaitingWasFired(s, k);
    hide Inv, Reachable;
    var p := s.client.table[k].packet;
    ReachNext(s, BrokerAnswersSubscribe(p, false));
    var t := Next(s, BrokerAnswersSubscribe(p, false));
    SubackGrants(t.client, k);
    t := Hand(t, Suback(k, false));
  }

  lemma SubackGrants(c: Client, k: int)
    requires k in c.table && c.table[k].packet.Subscribe? && !c.exited
    ensures var d, p := Receive(c, Suback(k, false)), c.table[k].packet;
      && Sound(c, Suback(k, false)) && !d.exited
      && k !in d.table && p.topic in d.topics && d.topics[p.topic] == p.qos
  {
  }

  lemma CanBeUnsubscribed(s: System, k: int)
    requires Alive(s) && k > 0 && k in s.client.table && s.client.table[k].packet.Unsubscribe?
    ensures exists t :: Alive(t) && k !in t.client.table && s.client.table[k].packet.topic !in t.client.topics
  {
    hide Alive, Receive, Answer;
    AliveMeans(s);
    WaitingWasFired(s, k);
    hide Inv, Reachable;
    var t := Give(s, s.client.table[k].packet);
    AnsweredWith(s, s.client.table[k].packet);
    UnsubackGivesUp(t.client, k);
    t := Hand(t, Unsuback(k));
  }

  lemma UnsubackGivesUp(c: Client, k: int)
    requires k in c.table && c.table[k].packet.Unsubscribe? && !c.exited
    ensures var d, p := Receive(c, Unsuback(k)), c.table[k].packet;
      Sound(c, Unsuback(k)) && !d.exited && k !in d.table && p.topic !in d.topics
  {
  }
}
