/** From the packets of an MQTT-SN run to the octets of a datagram, and back at the gateway. */
module SnWire {
  import opened Octets
  import opened Text
  import Session = SnSession
  import System = SnSystem
  import Runs = SnRuns
  import Codec = SnCodec

  /** A publish with some data that one datagram can declare. */
  predicate Publishable(p: Session.Packet) {
    p.Publish? && IsText(p.data) && 0 <= p.qos <= 2 && p.data != "" && |p.data| < SHORT_SPACE - 9
  }

  predicate Registrable(p: Session.Packet) {
    p.Register? && IsText(p.name) && |p.name| < SHORT_SPACE - 8
  }

  function PublishOnWire(p: Session.Packet): Codec.Packet
    requires Publishable(p)
  {
    Codec.Publish(p.dup, p.qos, p.retain, p.topicId, p.msgId, ToOctets(p.data))
  }

  function RegisterOnWire(p: Session.Packet): Codec.Packet
    requires Registrable(p)
  {
    Codec.Register(p.topicId, p.msgId, ToOctets(p.name))
  }

  /** In every state of every run, the octets of a publish decode at the gateway to a
      submission's content under the topic id granted for its name. */
  lemma FiredPublishDecodes(
      run: seq<System.System>, actions: seq<System.Action>, i: nat, p: Session.Packet, buf: Bytes)
    requires Runs.IsRun(run, actions) && Runs.WithinIdSpace(run) && i < |run|
    requires p in run[i].client.fired && Publishable(p)
    ensures exists n :: n in run[i].submitted && System.Carries(run[i], p, run[i].submitted[n])
    ensures Codec.Sendable(PublishOnWire(p))
    ensures At(buf, 0, Codec.Layout(PublishOnWire(p))) ==>
      Codec.Decode(buf) == Codec.Publishing(p.dup, p.qos, p.retain, p.topicId, p.msgId, ToOctets(p.data))
  {
    hide Codec.Layout, Codec.Decode, System.DoneInv, System.TableInv, System.Somewhere, System.SentOk, At;
    Runs.PublishCarriesGrantedId(run, actions, i, p);
    Runs.InvHolds(run, actions, i);
    assert System.FiredOk(run[i], p) && System.MapsInv(run[i]);
    if At(buf, 0, Codec.Layout(PublishOnWire(p))) {
      Codec.PublishRoundTrip(PublishOnWire(p), buf);
    }
  }

  /** The octets of a REGISTER decode to a request for exactly the topic name of the
      message that is submitted under the id before it. */
  lemma FiredRegisterDecodes(
      run: seq<System.System>, actions: seq<System.Action>, i: nat, p: Session.Packet, buf: Bytes)
    requires Runs.IsRun(run, actions) && Runs.WithinIdSpace(run) && i < |run|
    requires p in run[i].client.fired && Registrable(p)
    ensures p.msgId - 1 in run[i].submitted && run[i].submitted[p.msgId - 1].name == p.name
    ensures Codec.Sendable(RegisterOnWire(p))
    ensures At(buf, 0, Codec.Layout(RegisterOnWire(p))) ==>
      Codec.Decode(buf) == Codec.Registering(Session.NO_TOPIC_ID, p.msgId, ToOctets(p.name))
  {
    hide Codec.Layout, Codec.Decode, System.DoneInv, System.MapsInv, System.Somewhere, System.SentOk, At;
    Runs.InvHolds(run, actions, i);
    assert System.FiredOk(run[i], p);
    if At(buf, 0, Codec.Layout(RegisterOnWire(p))) {
      Codec.RegisterRoundTrip(RegisterOnWire(p), buf);
    }
  }
}
