/** What the MQTT protocol promises in every state of every run. */
module MqttRuns {
  import opened MqttSession
  import opened MqttSystem
  import opened MqttSteps

  /** A run: from a client that has sent CONNECT, every step an enabled action. */
  ghost predicate IsRun(run: seq<System>, actions: seq<Action>) {
    && |run| == |actions| + 1
    && (exists now :: run[0] == Init(now))
    && forall i :: 0 <= i < |actions| ==> Enabled(run[i], actions[i]) && run[i + 1] == Next(run[i], actions[i])
  }

  /** Fewer than 65536 ids were allocated. */
  ghost predicate WithinIdSpace(run: seq<System>) {
    run != [] && run[|run| - 1].client.current < ID_SPACE
  }

  lemma StepGrows(s: System, a: Action)
    requires Enabled(s, a)
    ensures s.client.current <= Next(s, a).client.current
    ensures s.client.saved <= Next(s, a).client.saved
  {
    match a {
      case ResendTick(_, order) => ResendOnlyFires(s.client, order);
      case _ =>
    }
  }

  lemma {:induction false} RunGrows(run: seq<System>, actions: seq<Action>, i: nat, j: nat)
    requires IsRun(run, actions) && i <= j < |run|
    ensures run[i].client.current <= run[j].client.current
    ensures run[i].client.saved <= run[j].client.saved
    decreases j
  {
    if i == j {
    } else {
      RunGrows(run, actions, i, j - 1);
      StepGrows(run[j - 1], actions[j - 1]);
    }
  }

  /** Every state of every run keeps the invariant. */
  lemma {:induction false} InvHolds(run: seq<System>, actions: seq<Action>, i: nat)
    requires IsRun(run, actions) && WithinIdSpace(run) && i < |run|
    ensures Inv(run[i])
    decreases i
  {
    RunGrows(run, actions, i, |run| - 1);
    if i == 0 {
      assert Inv(run[0]);
    } else {
      InvHolds(run, actions, i - 1);
      InvStep(run[i - 1], actions[i - 1]);
    }
  }

  // ---- What the protocol promises, for every state of every run ----

  /** A publish recorded as sent was accepted by the broker, with that content. */
  lemma RecordedWasAccepted(run: seq<System>, actions: seq<Action>, i: nat, p: Packet)
    requires IsRun(run, actions) && WithinIdSpace(run) && i < |run|
    requires p in run[i].client.saved && Acknowledged(p)
    ensures p.Publish? && p in run[i].accepted
    ensures p.id in run[i].submitted && run[i].submitted[p.id] == p
  {
    InvHolds(run, actions, i);
  }

  lemma RecordedOnce(run: seq<System>, actions: seq<Action>, i: nat, m: nat, n: nat)
    requires IsRun(run, actions) && WithinIdSpace(run) && i < |run|
    requires m < n < |run[i].client.saved|
    requires Acknowledged(run[i].client.saved[m]) && Acknowledged(run[i].client.saved[n])
    ensures TableKey(run[i].client.saved[m]) != TableKey(run[i].client.saved[n])
  {
    InvHolds(run, actions, i);
  }

  /** A submitted publish is in the table or recorded, and never both. */
  lemma InTableOrRecorded(run: seq<System>, actions: seq<Action>, i: nat, id: int)
    requires IsRun(run, actions) && WithinIdSpace(run) && i < |run|
    requires id in run[i].submitted && run[i].submitted[id].Publish?
    ensures id in run[i].client.table <==> run[i].submitted[id] !in run[i].client.saved
    ensures id in run[i].client.table ==> run[i].client.table[id].packet == run[i].submitted[id]
  {
    InvHolds(run, actions, i);
  }

  /** Ids are never reused and each key is the id inside the stored packet. */
  lemma KeysMatchPackets(run: seq<System>, actions: seq<Action>, i: nat, id: int)
    requires IsRun(run, actions) && WithinIdSpace(run) && i < |run|
    ensures id in run[i].submitted <==> 1 <= id <= run[i].client.current
    ensures id in run[i].client.table ==> TableKey(run[i].client.table[id].packet) == id
    ensures id in run[i].client.table && id != 0 ==> id in run[i].submitted && run[i].client.table[id].packet == run[i].submitted[id]
  {
    InvHolds(run, actions, i);
  }

  /** Whatever packet arrives, in whatever order and however often, its handler casts the
      stored packet to the kind it has, and the handler itself leaves defined behaviour
      exactly for a PUBLISH without content. */
  lemma EveryCastIsSafe(run: seq<System>, actions: seq<Action>, i: nat, p: Packet)
    requires IsRun(run, actions) && WithinIdSpace(run) && i < |run|
    ensures p in run[i].toClient ==> (Sound(run[i].client, p) <==> (p.Publish? ==> p.content != ""))
    ensures !run[i].client.exited
  {
    hide Next, Enabled, Sound;
    InvHolds(run, actions, i);
    if p in run[i].toClient {
      hide Inv;
      CastsAreRight(run[i], p);
    }
  }

  // ---- Resending ----

  /** Packet `k` was sent and its acknowledgement has been handled. */
  predicate Retired(s: System, k: int) {
    k in s.submitted && k !in s.client.table
  }

  lemma ReceiveRemoves(c: Client, p: Packet)
    ensures Receive(c, p).table.Keys <= c.table.Keys
  {
  }

  lemma RetiredStep(s: System, a: Action, k: int)
    requires Inv(s) && Enabled(s, a) && Next(s, a).client.current < ID_SPACE && Retired(s, k)
    ensures Retired(Next(s, a), k)
  {
    hide ChannelInv, SavedInv;
    match a {
      case ResendTick(_, order) => ResendOnlyFires(s.client, order);
      case ClientReceives(p) =>
        ReceiveRemoves(s.client, p);
        hide Receive;
      case _ =>
    }
  }

  lemma {:induction false} RetiredStays(run: seq<System>, actions: seq<Action>, i: nat, j: nat, k: int)
    requires IsRun(run, actions) && WithinIdSpace(run) && i <= j < |run| && Retired(run[i], k)
    ensures Retired(run[j], k)
    decreases j
  {
    hide Next, Enabled, Inv;
    if i == j {
    } else {
      RetiredStays(run, actions, i, j - 1, k);
      InvHolds(run, actions, j - 1);
      RunGrows(run, actions, j, |run| - 1);
      RetiredStep(run[j - 1], actions[j - 1], k);
    }
  }

  /** A stored packet has the key it is stored under. */
  lemma KeysInTable(s: System, order: seq<int>)
    requires TableInv(s) && forall i :: 0 <= i < |order| ==> order[i] in s.client.table
    ensures forall i :: 0 <= i < |order| ==> TableKey(s.client.table[order[i]].packet) == order[i]
  {
  }

  /** What an acknowledgement has retired, be it PUBLISH, SUBSCRIBE or UNSUBSCRIBE, stays
      out of the table, and no resend pass, however much later, fires it again. */
  lemma RetiredIsNeverResent(run: seq<System>, actions: seq<Action>, i: nat, j: nat, k: int)
    requires IsRun(run, actions) && WithinIdSpace(run) && i <= j < |actions|
    requires Retired(run[i], k)
    ensures k !in run[j].client.table
    ensures actions[j].ResendTick? ==>
      && run[j + 1].client == run[j].client.(fired := run[j + 1].client.fired)
      && k !in actions[j].order
      && run[j].client.fired <= run[j + 1].client.fired
      && (forall q :: q in run[j + 1].client.fired[|run[j].client.fired|..] ==> TableKey(q) != k)
  {
    RetiredStays(run, actions, i, j, k);
    InvHolds(run, actions, j);
    if actions[j].ResendTick? {
      assert run[j + 1] == Next(run[j], actions[j]);
      hide ChannelInv, SavedInv;
      ResendOnlyFires(run[j].client, actions[j].order);
      ResendAppends(run[j].client, actions[j].order);
      KeysInTable(run[j], actions[j].order);
    }
  }

  /** No resend pass, however much later, fires a publish that was recorded. */
  lemma RecordedIsNeverResent(run: seq<System>, actions: seq<Action>, i: nat, j: nat, p: Packet)
    requires IsRun(run, actions) && WithinIdSpace(run) && i <= j < |actions|
    requires p in run[i].client.saved && Acknowledged(p)
    requires actions[j].ResendTick?
    ensures run[j + 1].client == run[j].client.(fired := run[j + 1].client.fired)
    ensures forall k :: k in actions[j].order ==> k in run[j].client.table && run[j].client.table[k].packet != p
  {
    InvHolds(run, actions, i);
    InvHolds(run, actions, j);
    RetiredIsNeverResent(run, actions, i, j, TableKey(p));
  }

  // ---- Delivery ----

  /** How often the channel hands `p` to the client. */
  function Handed(actions: seq<Action>, p: Packet): nat {
    if actions == [] then 0
    else Handed(actions[..|actions| - 1], p) + if actions[|actions| - 1] == ClientReceives(p) then 1 else 0
  }

  lemma DeliveryStep(s: System, a: Action, p: Packet)
    requires Enabled(s, a) && p.Publish? && p.content != ""
    ensures multiset(Next(s, a).client.delivered)[p]
      == multiset(s.client.delivered)[p] + if a == ClientReceives(p) then 1 else 0
  {
    if a.ResendTick? { ResendOnlyFires(s.client, a.order); }
  }

  /** A publish with content is delivered exactly as often as the channel hands it over,
      whatever its QoS: there is no memory of a QoS 2 publish that has been delivered, so
      it is delivered once if and only if it arrives once. */
  lemma {:induction false} DeliveredAsOftenAsHanded(run: seq<System>, actions: seq<Action>, i: nat, p: Packet)
    requires IsRun(run, actions) && i < |run| && p.Publish? && p.content != ""
    ensures multiset(run[i].client.delivered)[p] == Handed(actions[..i], p)
    decreases i
  {
    hide Next, Enabled;
    if i == 0 {
    } else {
      DeliveredAsOftenAsHanded(run, actions, i - 1, p);
      DeliveryStep(run[i - 1], actions[i - 1], p);
      assert actions[..i][..i - 1] == actions[..i - 1];
    }
  }
}
