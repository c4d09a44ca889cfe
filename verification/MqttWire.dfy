/** From the packets of a run to the octets on the wire, and back at the broker. */
module MqttWire {
  import opened Octets
  import opened Text
  import Session = MqttSession
  import System = MqttSystem
  import Runs = MqttRuns
  import Codec = MqttCodec

  /** A publish that the user may submit: a topic, some content, QoS 1 or 2. */
  predicate Publishable(p: Session.Packet) {
    && p.Publish? && IsText(p.topic) && IsText(p.content) && 1 <= p.qos <= 2
    && 0 < |p.topic| < SHORT_SPACE && 0 < |p.content| && |p.topic| + |p.content| + 4 <= Codec.MAX_LENGTH
  }

  function OnWire(p: Session.Packet): Codec.Packet
    requires Publishable(p)
  {
    Codec.Publish(ToOctets(p.topic), ToOctets(p.content), p.qos, p.retain, p.dup, p.id)
  }

  /** In every state of every run, the octets of a publish that was fired or resent decode,
      whatever follows them, to exactly what the user submitted under its id. */
  lemma FiredPublishDecodes(
      run: seq<System.System>, actions: seq<System.Action>, i: nat, p: Session.Packet, buf: Bytes)
    requires Runs.IsRun(run, actions) && Runs.WithinIdSpace(run) && i < |run|
    requires p in run[i].client.fired && Publishable(p)
    ensures p.id in run[i].submitted && run[i].submitted[p.id] == p
    ensures Codec.Sendable(OnWire(p))
    ensures At(buf, 0, Codec.Layout(OnWire(p))) ==>
      Codec.Decode(buf) == Codec.Publishing(ToOctets(p.topic), Some(ToOctets(p.content)), p.qos, p.retain, p.dup, Some(p.id))
  {
    Runs.InvHolds(run, actions, i);
    assert System.Acknowledged(p);
    if At(buf, 0, Codec.Layout(OnWire(p))) {
      Codec.PublishComesBack(OnWire(p), buf);
    }
  }

  /** Two such publishes with the same octets are the same. */
  lemma WireDetermines(
      run: seq<System.System>, actions: seq<System.Action>, i: nat, p: Session.Packet, q: Session.Packet)
    requires Runs.IsRun(run, actions) && Runs.WithinIdSpace(run) && i < |run|
    requires p in run[i].client.fired && Publishable(p) && q in run[i].client.fired && Publishable(q)
    ensures Codec.Sendable(OnWire(p)) && Codec.Sendable(OnWire(q))
    ensures Codec.Layout(OnWire(p)) == Codec.Layout(OnWire(q)) ==> p == q
  {
    FiredPublishDecodes(run, actions, i, p, []);
    FiredPublishDecodes(run, actions, i, q, []);
    if Codec.Layout(OnWire(p)) == Codec.Layout(OnWire(q)) {
      var buf := Codec.Layout(OnWire(p));
      assert At(buf, 0, buf);
      FiredPublishDecodes(run, actions, i, p, buf);
      FiredPublishDecodes(run, actions, i, q, buf);
      OctetsDetermine(p.topic, q.topic);
      OctetsDetermine(p.content, q.content);
    }
  }
}
