/** Every step of the MQTT client and of the broker keeps the invariant. */
module MqttSteps {
  import opened MqttSession
  import opened MqttSystem

  lemma ChannelStays(s: System, t: System)
    requires ChannelInv(s) && t.toClient == s.toClient && t.accepted == s.accepted && t.submitted == s.submitted
    requires t.client.fired == s.client.fired
    ensures ChannelInv(t)
  {
  }

  lemma AllocateTable(s: System, t: System, p: Packet)
    requires Inv(s) && Allocates(s, t, p)
    ensures TableInv(t)
  {
  }

  lemma AllocateChannel(s: System, t: System, p: Packet)
    requires Inv(s) && Allocates(s, t, p)
    ensures ChannelInv(t)
  {
  }

  lemma AllocateSaved(s: System, t: System, p: Packet)
    requires Inv(s) && Allocates(s, t, p)
    ensures SavedInv(t)
  {
  }

  lemma InvSubmits(s: System, a: Action)
    requires Inv(s) && Enabled(s, a)
    requires a.UserPublish? || a.UserSubscribe? || a.UserUnsubscribe?
    requires Next(s, a).client.current < ID_SPACE
    ensures Inv(Next(s, a))
  {
    var t := Next(s, a);
    if a.UserPublish? && a.qos == AT_MOST_ONCE {
      QosZeroKeepsInv(s, t, Publish(0, a.content, a.topic, a.qos, a.retain, a.dup));
    } else {
      var id := s.client.current + 1;
      var p := match a
        case UserPublish(content, topic, qos, retain, dup, _) => Publish(id, content, topic, qos, retain, dup)
        case UserSubscribe(topic, qos, _) => Subscribe(id, topic, qos)
        case _ => Unsubscribe(id, a.topic);
      assert Allocates(s, t, p);
      AllocateTable(s, t, p);
      AllocateChannel(s, t, p);
      AllocateSaved(s, t, p);
    }
  }

  lemma QosZeroKeepsInv(s: System, t: System, p: Packet)
    requires Inv(s) && p.Publish? && p.qos == AT_MOST_ONCE
    requires t == s.(client := Fire(s.client, p).(saved := s.client.saved + [p]))
    ensures Inv(t)
  {
    assert TableInv(t);
    assert ChannelInv(t);
    assert SavedInv(t);
  }

  /** Firing an answer: PUBACK, PUBREC, PUBCOMP, or PUBREL to a PUBREC that was received. */
  lemma FireKeepsInv(s: System, p: Packet)
    requires Inv(s) && !Acknowledged(p)
    requires p.Pubrel? ==> Pubrec(p.id) in s.toClient
    ensures Inv(s.(client := Fire(s.client, p)))
  {
    var t := s.(client := Fire(s.client, p));
    assert TableInv(t);
    assert ChannelInv(t);
    assert SavedInv(t);
  }

  /** Dropping a key that holds no publish. */
  lemma DropKeepsInv(s: System, c: Client, id: int)
    requires Inv(s)
    requires id in s.submitted ==> !s.submitted[id].Publish?
    requires c == s.client.(table := s.client.table - {id}, topics := c.topics)
    ensures Inv(s.(client := c))
  {
    var t := s.(client := c);
    assert TableInv(t);
    assert ChannelInv(t);
    assert SavedInv(t);
  }

  /** The heart of the protocol: PUBACK or PUBCOMP for an accepted publish. */
  lemma RetireKeepsInv(s: System, id: int)
    requires Inv(s)
    requires id in s.submitted && s.submitted[id].Publish? && s.submitted[id] in s.accepted
    ensures Inv(s.(client := Retire(s.client, id)))
  {
    var t := s.(client := Retire(s.client, id));
    if id in s.client.table {
      assert t.client.saved == s.client.saved + [s.submitted[id]];
      assert TableInv(t);
      assert ChannelInv(t);
      assert SavedInv(t);
    }
  }

  /** Changes to what no invariant speaks of. */
  lemma AsideKeepsInv(s: System, c: Client)
    requires Inv(s) && c == s.client.(delivered := c.delivered, faulted := c.faulted)
    ensures Inv(s.(client := c))
  {
    ChannelStays(s, s.(client := c));
  }

  /** What finds an entry, finds one of the kind it is cast to. */
  lemma CastsAreRight(s: System, p: Packet)
    requires Inv(s) && p in s.toClient
    ensures Sound(s.client, p) <==> (p.Publish? ==> p.content != "")
    ensures !p.Connect? && !p.Subscribe? && !p.Unsubscribe? && !p.Pingreq? && !p.Disconnect?
    ensures p.Puback? ==> AcceptedAt(s, p.id, AT_LEAST_ONCE)
    ensures p.Pubrec? || p.Pubcomp? ==> AcceptedAt(s, p.id, EXACTLY_ONCE)
    ensures p.Suback? ==> p.id in s.submitted && s.submitted[p.id].Subscribe?
    ensures p.Unsuback? ==> p.id in s.submitted && s.submitted[p.id].Unsubscribe?
  {
    hide SavedInv;
  }

  lemma ZeroIsNotSubmitted(s: System)
    requires Inv(s)
    ensures 0 !in s.submitted
  {
  }

  lemma InvReceives(s: System, a: Action)
    requires Inv(s) && Enabled(s, a) && a.ClientReceives?
    ensures Inv(Next(s, a))
  {
    hide Inv;
    CastsAreRight(s, a.p);
    if !Sound(s.client, a.p) {
      AsideKeepsInv(s, Receive(s.client, a.p));
      return;
    }
    match a.p {
      case Connack(_) =>
        ZeroIsNotSubmitted(s);
        DropKeepsInv(s, Receive(s.client, a.p), 0);
      case Publish(id, _, _, qos, _, _) =>
        var d := s.(client := s.client.(delivered := s.client.delivered + [a.p]));
        AsideKeepsInv(s, d.client);
        FireKeepsInv(d, if qos == AT_LEAST_ONCE then Puback(id) else Pubrec(id));
      case Puback(id) => RetireKeepsInv(s, id);
      case Pubrec(id) => FireKeepsInv(s, Pubrel(id));
      case Pubrel(id) => FireKeepsInv(s, Pubcomp(id));
      case Pubcomp(id) => RetireKeepsInv(s, id);
      case Suback(id, failure) => if id in s.client.table { DropKeepsInv(s, Receive(s.client, a.p), id); }
      case Unsuback(id) => if id in s.client.table { DropKeepsInv(s, Receive(s.client, a.p), id); }
      case _ =>
    }
  }

  lemma FiredKeepsInv(s: System, fired: seq<Packet>)
    requires Inv(s)
    requires forall p :: p in fired ==> p in s.client.fired || (!p.Pubrel? && (Acknowledged(p) ==> Owned(s, p)))
    ensures Inv(s.(client := s.client.(fired := fired)))
  {
    var t := s.(client := s.client.(fired := fired));
    assert TableInv(t);
    assert ChannelInv(t);
    assert SavedInv(t);
  }

  lemma InvResend(s: System, a: Action)
    requires Inv(s) && Enabled(s, a) && a.ResendTick?
    ensures Inv(Next(s, a))
  {
    ResendOnlyFires(s.client, a.order);
    FiredKeepsInv(s, Resend(s.client, a.order).fired);
  }

  lemma BrokerSendKeepsInv(s: System, p: Packet)
    requires Inv(s) && Sendable(s, p)
    ensures Inv(s.(toClient := s.toClient + {p}))
  {
    var t := s.(toClient := s.toClient + {p});
    assert TableInv(t);
    assert ChannelInv(t);
    assert SavedInv(t);
  }

  lemma AcceptKeepsInv(s: System, p: Packet)
    requires Inv(s)
    ensures Inv(s.(accepted := s.accepted + {p}))
  {
    var t := s.(accepted := s.accepted + {p});
    assert TableInv(t);
    assert ChannelInv(t);
    assert SavedInv(t);
  }

  lemma InvBroker(s: System, a: Action)
    requires Inv(s) && Enabled(s, a)
    requires a.BrokerReceives? || a.BrokerAccepts? || a.BrokerPublishes? || a.BrokerAnswersSubscribe?
    ensures Inv(Next(s, a))
  {
    hide SavedInv;
    match a {
      case BrokerReceives(p) =>
        match p {
          case Publish(id, _, _, qos, _, _) =>
            if qos == AT_LEAST_ONCE || qos == EXACTLY_ONCE {
              AcceptKeepsInv(s, p);
              BrokerSendKeepsInv(s.(accepted := s.accepted + {p}), if qos == AT_LEAST_ONCE then Puback(id) else Pubrec(id));
            }
          case Pubrel(id) => BrokerSendKeepsInv(s, Pubcomp(id));
          case Pubrec(id) => BrokerSendKeepsInv(s, Pubrel(id));
          case Unsubscribe(id, _) => BrokerSendKeepsInv(s, Unsuback(id));
          case Pingreq => BrokerSendKeepsInv(s, Pingresp);
          case _ =>
        }
      case BrokerAccepts(ok) => BrokerSendKeepsInv(s, Connack(ok));
      case BrokerPublishes(p) => BrokerSendKeepsInv(s, p);
      case BrokerAnswersSubscribe(p, failure) => BrokerSendKeepsInv(s, Suback(p.id, failure));
      case _ =>
    }
  }

  lemma InvStep(s: System, a: Action)
    requires Inv(s) && Enabled(s, a) && Next(s, a).client.current < ID_SPACE
    ensures Inv(Next(s, a))
  {
    match a {
      case ResendTick(_, _) => InvResend(s, a);
      case ClientReceives(_) => InvReceives(s, a);
      case UserPublish(_, _, _, _, _, _) => InvSubmits(s, a);
      case UserSubscribe(_, _, _) => InvSubmits(s, a);
      case UserUnsubscribe(_, _) => InvSubmits(s, a);
      case _ => InvBroker(s, a);
    }
  }
}
