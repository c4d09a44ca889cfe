/** Why the promises of MqttRuns speak of fewer than 65536 ids. */
module MqttIds {
  import opened MqttSession
  import opened MqttSystem
  import opened MqttRuns

  /** Everything that waits goes on waiting, and one more entry waits too. */
  predicate KeepsAll<T(==)>(m: map<int, T>, n: map<int, T>) {
    && (forall k :: k in m ==> k in n && n[k] == m[k])
    && |n| == |m| + 1
  }

  lemma StoringKeepsAll<T>(m: map<int, T>, k: int, e: T)
    ensures KeepsAll(m, m[k := e]) <==> k !in m
  {
    if k in m {
      assert m[k := e].Keys == m.Keys;
    } else {
      assert m[k := e].Keys == m.Keys + {k};
    }
  }

  /** A send loses what waits exactly when its id, modulo 65536, is a key that is in use. */
  lemma SendKeepsAll(c: Client, content: string, topic: string, qos: int, retain: bool, dup: bool, now: int)
    ensures qos != AT_MOST_ONCE ==>
      (KeepsAll(c.table, SendPublish(c, content, topic, qos, retain, dup, now).table) <==> (c.current + 1) % ID_SPACE !in c.table)
    ensures KeepsAll(c.table, SendSubscribe(c, topic, qos, now).table) <==> (c.current + 1) % ID_SPACE !in c.table
    ensures KeepsAll(c.table, SendUnsubscribe(c, topic, now).table) <==> (c.current + 1) % ID_SPACE !in c.table
  {
    hide KeepsAll;
    var id := (c.current + 1) % ID_SPACE;
    StoringKeepsAll(c.table, id, Entry(Publish(id, content, topic, qos, retain, dup), now));
    StoringKeepsAll(c.table, id, Entry(Subscribe(id, topic, qos), now));
    StoringKeepsAll(c.table, id, Entry(Unsubscribe(id, topic), now));
  }

  // ---- States that are reached ----

  ghost predicate EndsIn(run: seq<System>, actions: seq<Action>, s: System) {
    IsRun(run, actions) && run[|run| - 1] == s
  }

  ghost predicate Reachable(s: System) {
    exists run, actions :: EndsIn(run, actions, s)
  }

  lemma ReachInit(now: int)
    ensures Reachable(Init(now))
  {
    assert EndsIn([Init(now)], [], Init(now));
  }

  lemma ReachNext(s: System, a: Action)
    requires Reachable(s) && Enabled(s, a)
    ensures Reachable(Next(s, a))
  {
    hide Next, Enabled;
    var run, actions :| EndsIn(run, actions, s);
    assert EndsIn(run + [Next(s, a)], actions + [a], Next(s, a));
  }

  function Send(content: string): Action {
    UserPublish(content, "t", AT_LEAST_ONCE, false, false, 0)
  }

  function Sent(id: int, content: string): Packet {
    Publish(id, content, "t", AT_LEAST_ONCE, false, false)
  }

  /** `n` publishes without an answer, for which the ids suffice. */
  ghost predicate Waiting(s: System, n: nat) {
    && Reachable(s) && s.client.current == n && !s.client.faulted && !s.client.exited
    && s.client.saved == [] && s.accepted == {} && s.toClient == {}
    && (forall k :: k in s.client.table <==> 0 <= k <= n)
    && (forall k :: 1 <= k <= n ==> s.client.table[k].packet == Sent(k, "x") && Sent(k, "x") in s.client.fired)
  }

  lemma WaitingStep(s: System, n: nat)
    requires Waiting(s, n) && n + 1 < ID_SPACE
    ensures Waiting(Next(s, Send("x")), n + 1)
  {
    hide Reachable;
    ReachNext(s, Send("x"));
  }

  lemma {:induction false} WaitingIsReached(n: nat)
    requires n < ID_SPACE
    ensures exists s :: Waiting(s, n)
  {
    if n == 0 {
      ReachInit(0);
      assert Waiting(Init(0), 0);
    } else {
      WaitingIsReached(n - 1);
      hide Waiting;
      var s :| Waiting(s, n - 1);
      WaitingStep(s, n - 1);
    }
  }

  /** The publish under id 1 is another than the one first sent under it. */
  ghost predicate Overtaken(s: System) {
    && Reachable(s) && !s.client.faulted && !s.client.exited
    && s.client.saved == [] && s.accepted == {} && Sent(1, "x") in s.client.fired
    && 1 in s.client.table && s.client.table[1].packet == Sent(1, "y")
    && (forall k :: k in s.client.table ==> s.client.table[k].packet != Sent(1, "x"))
  }

  lemma OvertakenIsReached(s: System)
    requires Waiting(s, ID_SPACE - 1)
    ensures exists t :: Overtaken(t)
  {
    hide Reachable;
    var u := Next(s, Send("x"));
    ReachNext(s, Send("x"));
    assert (s.client.current + 1) % ID_SPACE == 0;
    assert u.client.table == s.client.table[0 := Entry(Sent(0, "x"), 0)];
    var v := Next(u, Send("y"));
    ReachNext(u, Send("y"));
    assert (u.client.current + 1) % ID_SPACE == 1;
    assert v.client.table == u.client.table[1 := Entry(Sent(1, "y"), 0)];
    assert Overtaken(v);
  }

  /** Neither stored nor recorded, and a PUBACK for it records another message. */
  ghost predicate Lost(s: System, p: Packet, q: Packet) {
    && Reachable(s) && p in s.accepted && q !in s.accepted && s.client.saved == [q]
    && (forall k :: k in s.client.table ==> s.client.table[k].packet != p)
  }

  lemma AnswerIsMistaken(s: System)
    requires Overtaken(s)
    ensures exists t :: Lost(t, Sent(1, "x"), Sent(1, "y"))
  {
    hide Reachable;
    var p := Sent(1, "x");
    ReachNext(s, BrokerReceives(p));
    var t := Next(s, BrokerReceives(p));
    assert t == s.(accepted := {p}, toClient := s.toClient + {Puback(1)});
    ReachNext(t, ClientReceives(Puback(1)));
    var u := Next(t, ClientReceives(Puback(1)));
    assert u.client == t.client.(saved := [Sent(1, "y")], table := t.client.table - {1});
    assert Lost(u, p, Sent(1, "y"));
  }

  /** Ids run out: of 65537 publishes the first, which the broker has accepted, is neither
      stored nor recorded, and the last, which it has not, is recorded by its PUBACK. */
  lemma IdsRunOut()
    ensures exists s :: Lost(s, Sent(1, "x"), Sent(1, "y"))
  {
    WaitingIsReached(ID_SPACE - 1);
    var w :| Waiting(w, ID_SPACE - 1);
    OvertakenIsReached(w);
    hide Waiting;
    var s :| Overtaken(s);
    AnswerIsMistaken(s);
  }
}
