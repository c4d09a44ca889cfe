/** Every step of the MQTT-SN client and of the gateway keeps the invariant. */
module SnSteps {
  import opened SnSession
  import opened SnSystem

  lemma FiredStays(s: System, t: System, p: Packet)
    requires Grows(s, t) && OldKeys(s, t) && Linked(s, t) && p in s.client.fired && FiredOk(s, p)
    ensures FiredOk(t, p)
  {
    if p.Publish? {
      var n :| n in s.submitted && Carries(s, p, s.submitted[n]);
      assert Carries(t, p, t.submitted[n]);
    }
  }

  lemma SentStays(s: System, t: System, p: Packet)
    requires Grows(s, t) && SentOk(s, p)
    ensures SentOk(t, p)
  {
  }

  lemma ChannelStep(s: System, t: System)
    requires ChannelInv(s) && Grows(s, t) && OldKeys(s, t) && Linked(s, t)
    requires forall p :: p in t.client.fired && p !in s.client.fired ==> FiredOk(t, p)
    requires forall p :: p in t.toClient && p !in s.toClient ==> SentOk(t, p)
    ensures ChannelInv(t)
  {
    forall p | p in t.client.fired ensures FiredOk(t, p) {
      if p in s.client.fired { FiredStays(s, t, p); }
    }
    forall p | p in t.toClient ensures SentOk(t, p) {
      if p in s.toClient { SentStays(s, t, p); }
    }
  }

  lemma EntryStays(s: System, t: System, k: int, m: Stored)
    requires Grows(s, t) && EntryOk(s, k, m)
    ensures EntryOk(t, k, m)
  {
  }

  lemma TableStays(s: System, t: System)
    requires TableInv(s) && Grows(s, t) && t.client.table == s.client.table && t.answered == s.answered
    requires forall n :: n in t.submitted && n !in s.submitted ==> 1 <= n <= t.client.current && t.submitted[n].origin == n
    ensures TableInv(t)
  {
    forall k | k in t.client.table ensures EntryOk(t, k, t.client.table[k]) {
      EntryStays(s, t, k, s.client.table[k]);
    }
  }

  lemma OthersStay(s: System, t: System, hand: set<int>)
    requires forall n :: n in s.submitted && n !in hand ==> Somewhere(s.client, n)
    requires t.client.table == s.client.table && s.client.saved <= t.client.saved && s.client.dropped <= t.client.dropped
    ensures forall n :: n in s.submitted && n !in hand ==> Somewhere(t.client, n)
  {
    forall n | n in s.submitted && n !in hand ensures Somewhere(t.client, n) {
      SomewhereStays(s.client, t.client, n);
    }
  }

  /** The table lost entries, but no message of the user's. */
  ghost predicate Shrinks(c: Client, d: Client) {
    && (forall k :: k in d.table ==> k in c.table && d.table[k] == c.table[k])
    && (forall k :: k in c.table && c.table[k].Parcel? ==> k in d.table)
    && d.saved == c.saved && d.dropped == c.dropped
  }

  lemma TableQuiet(s: System, t: System)
    requires TableInv(s) && Grows(s, t) && Shrinks(s.client, t.client)
    requires t.submitted == s.submitted && t.answered == s.answered
    ensures TableInv(t)
  {
    forall k | k in t.client.table ensures EntryOk(t, k, t.client.table[k]) {
      EntryStays(s, t, k, s.client.table[k]);
    }
  }

  lemma DoneQuiet(s: System, t: System)
    requires DoneInv(s) && Grows(s, t) && Shrinks(s.client, t.client)
    ensures DoneInv(t)
  {
  }

  /** A message stays where it is when its entry is not removed. */
  lemma SomewhereStays(c: Client, d: Client, n: int)
    requires Somewhere(c, n)
    requires forall k :: k in c.table && c.table[k].Parcel? && c.table[k].pub.origin == n ==> k in d.table && d.table[k] == c.table[k]
    requires c.saved <= d.saved && c.dropped <= d.dropped
    ensures Somewhere(d, n)
  {
    if k :| InFlight(c, n, k) { assert InFlight(d, n, k); }
    else if i :| At(c.saved, n, i) { assert At(d.saved, n, i); }
    else if i :| At(c.dropped, n, i) { assert At(d.dropped, n, i); }
  }

  /** A step that stores no new message and finishes none. */
  lemma QuietStep(s: System, t: System, hand: set<int>)
    requires InvBut(s, hand) && Grows(s, t) && Linked(s, t) && MapsInv(t)
    requires Shrinks(s.client, t.client) && t.submitted == s.submitted && t.answered == s.answered
    requires forall p :: p in t.client.fired && p !in s.client.fired ==> FiredOk(t, p)
    requires forall p :: p in t.toClient && p !in s.toClient ==> SentOk(t, p)
    ensures InvBut(t, hand)
  {
    hide MapsInv, FiredOk, SentOk, EntryOk;
    ChannelStep(s, t);
    TableQuiet(s, t);
    DoneQuiet(s, t);
    forall n | n in t.submitted && n !in hand ensures Somewhere(t.client, n) {
      SomewhereStays(s.client, t.client, n);
    }
  }

  lemma MapsStay(s: System, t: System)
    requires MapsInv(s) && t.granted == s.granted
    requires t.client.idOf == s.client.idOf && t.client.nameOf == s.client.nameOf
    ensures MapsInv(t)
  {
  }

  lemma LooseStays(c: Client, d: Client, n: int)
    requires Loose(c, n) && d.table == c.table && d.saved == c.saved && d.dropped == c.dropped
    ensures Loose(d, n)
  {
  }

  lemma StaysLinked(s: System, t: System)
    requires ChannelInv(s) && t.answered == s.answered
    requires Shrinks(s.client, t.client)
    ensures Linked(s, t)
  {
    forall r, name | Register(NO_TOPIC_ID, r, name) in s.client.fired
      ensures r !in t.answered <==> r - 1 in t.client.table
    {
      assert FiredOk(s, Register(NO_TOPIC_ID, r, name));
    }
  }

  /** Firing an answer. */
  lemma FireStep(s: System, p: Packet)
    requires Inv(s) && (p.Regack? || p.Puback? || p.Pubrec? || p.Pubcomp? || (p.Pubrel? && Pubrec(p.msgId) in s.toClient))
    ensures Inv(s.(client := Fire(s.client, p)))
  {
    hide TableInv, DoneInv, MapsInv, Somewhere, EntryOk;
    var t := s.(client := Fire(s.client, p));
    StaysLinked(s, t);
    MapsStay(s, t);
    QuietStep(s, t, {});
  }

  /** The gateway puts a packet on the channel. */
  lemma SendStep(s: System, p: Packet)
    requires Inv(s) && SentOk(s, p)
    ensures Inv(s.(toClient := s.toClient + {p}))
  {
    hide TableInv, DoneInv, MapsInv, Somewhere, EntryOk;
    var t := s.(toClient := s.toClient + {p});
    StaysLinked(s, t);
    SentStays(s, t, p);
    MapsStay(s, t);
    QuietStep(s, t, {});
  }

  lemma AcceptStep(s: System, p: Packet)
    requires Inv(s)
    ensures Inv(s.(accepted := s.accepted + {p}))
  {
    hide TableInv, DoneInv, MapsInv, Somewhere, EntryOk;
    var t := s.(accepted := s.accepted + {p});
    StaysLinked(s, t);
    MapsStay(s, t);
    QuietStep(s, t, {});
  }

  lemma RefuseStep(s: System, p: Packet)
    requires Inv(s)
    ensures Inv(s.(refused := s.refused + {p}))
  {
    hide TableInv, DoneInv, MapsInv, Somewhere, EntryOk;
    var t := s.(refused := s.refused + {p});
    StaysLinked(s, t);
    MapsStay(s, t);
    QuietStep(s, t, {});
  }

  lemma GrantKeepsMaps(s: System, name: string, topicId: int)
    requires MapsInv(s) && name !in s.granted && 0 < topicId < ID_SPACE && topicId !in s.granted.Values
    ensures MapsInv(s.(granted := s.granted[name := topicId]))
  {
    StaysInjective(s.granted, name, topicId);
    hide Injective;
  }

  lemma StaysInjective(m: map<string, int>, name: string, topicId: int)
    requires Injective(m) && name !in m && topicId !in m.Values
    ensures Injective(m[name := topicId])
  {
    assert forall x :: x in m ==> m[x] in m.Values;
  }

  lemma GrantStep(s: System, name: string, topicId: int)
    requires Inv(s) && name !in s.granted && 0 < topicId < ID_SPACE && topicId !in s.granted.Values
    ensures Inv(s.(granted := s.granted[name := topicId]))
  {
    hide TableInv, DoneInv, Somewhere, EntryOk;
    var t := s.(granted := s.granted[name := topicId]);
    assert MapsInv(t) by { GrantKeepsMaps(s, name, topicId); }
    StaysLinked(s, t);
    QuietStep(s, t, {});
  }

  /** Removing an entry that is not a message of the user's. */
  lemma DropStep(s: System, id: int)
    requires Inv(s) && (id in s.client.table ==> s.client.table[id].Other?)
    ensures Inv(s.(client := s.client.(table := s.client.table - {id})))
  {
    hide TableInv, DoneInv, MapsInv, Somewhere, EntryOk;
    var t := s.(client := s.client.(table := s.client.table - {id}));
    StaysLinked(s, t);
    MapsStay(s, t);
    QuietStep(s, t, {});
  }

  /** A topic name and the id granted for it enter the maps. */
  lemma LearnStep(s: System, name: string, topicId: int, hand: set<int>)
    requires InvBut(s, hand) && Granted(s, name, topicId)
    ensures InvBut(s.(client := Learn(s.client, name, topicId)), hand)
  {
    hide ChannelInv, TableInv, DoneInv, Somewhere, Loose, FiredOk, SentOk, EntryOk;
    var t := s.(client := Learn(s.client, name, topicId));
    StaysLinked(s, t);
    assert MapsInv(t);
    QuietStep(s, t, hand);
  }

  lemma ForgetStep(s: System)
    requires Inv(s)
    ensures Inv(s.(client := s.client.(idOf := map[], nameOf := map[], mapsMade := true)))
  {
    hide TableInv, DoneInv, Somewhere, EntryOk;
    var t := s.(client := s.client.(idOf := map[], nameOf := map[], mapsMade := true));
    StaysLinked(s, t);
    QuietStep(s, t, {});
  }

  /** The table gains entries under unused keys; only `key` may be a message of the
      user's, and then one that was in hand. */
  ghost predicate Stores(s: System, t: System, key: int) {
    && (forall k :: k in s.client.table ==> k in t.client.table && (k != 0 ==> t.client.table[k] == s.client.table[k]))
    && (forall k :: k in t.client.table && (k == 0 || k !in s.client.table) ==>
          && (k == 0 || s.client.current < k <= t.client.current)
          && EntryOk(t, k, t.client.table[k])
          && (t.client.table[k].Parcel? ==> k == key && Loose(s.client, t.client.table[k].pub.origin)))
    && t.client.saved == s.client.saved && t.client.dropped == s.client.dropped
    && (forall n :: n in t.submitted && n !in s.submitted ==>
          s.client.current < n <= t.client.current && t.submitted[n].origin == n && Somewhere(t.client, n))
    && t.answered == s.answered
    && t.client.idOf == s.client.idOf && t.client.nameOf == s.client.nameOf && t.granted == s.granted
  }

  lemma TableStores(s: System, t: System, key: int)
    requires TableInv(s) && Grows(s, t) && Stores(s, t, key)
    ensures TableInv(t)
  {
    forall k | k in t.client.table ensures 0 <= k <= t.client.current && EntryOk(t, k, t.client.table[k]) {
      if k in s.client.table && k != 0 { EntryStays(s, t, k, s.client.table[k]); }
    }
  }

  lemma DoneStores(s: System, t: System, key: int)
    requires TableInv(s) && DoneInv(s) && Grows(s, t) && Stores(s, t, key)
    ensures DoneInv(t)
  {
  }

  /** A fresh id, an entry and a packet: SUBSCRIBE, UNSUBSCRIBE, a parked message with
      its REGISTER, a published message. */
  lemma StoreStep(s: System, t: System, key: int, hand: set<int>)
    requires InvBut(s, hand)
    requires Grows(s, t) && Stores(s, t, key) && Linked(s, t)
    requires forall p :: p in t.client.fired && p !in s.client.fired ==> FiredOk(t, p)
    requires t.toClient == s.toClient
    requires forall n :: n in hand ==> Somewhere(t.client, n)
    ensures Inv(t)
  {
    ChannelStep(s, t);
    TableStores(s, t, key);
    DoneStores(s, t, key);
    forall n | n in t.submitted ensures Somewhere(t.client, n) {
      if n in s.submitted && n !in hand { SomewhereStays(s.client, t.client, n); }
    }
  }

  lemma RequestStep(s: System, p: Packet)
    requires Inv(s) && (p.Subscribe? || p.Unsubscribe?) && p.msgId == s.client.current + 1 < ID_SPACE
    ensures Inv(s.(client := Fire(AddMessage(s.client.(current := p.msgId), Other(p)), p)))
  {
    hide DoneInv, MapsInv, Somewhere, Loose, SentOk;
    var t := s.(client := Fire(AddMessage(s.client.(current := p.msgId), Other(p)), p));
    LinkedByFreshKey(s, t);
    StoreStep(s, t, 0, {});
  }

  lemma LinkedByFreshKey(s: System, t: System)
    requires ChannelInv(s) && t.answered == s.answered
    requires forall k :: 0 < k < s.client.current ==> (k in s.client.table <==> k in t.client.table)
    ensures Linked(s, t)
  {
    forall r, name | Register(NO_TOPIC_ID, r, name) in s.client.fired
      ensures r !in t.answered <==> r - 1 in t.client.table
    {
      assert FiredOk(s, Register(NO_TOPIC_ID, r, name));
    }
  }

  lemma FreshIsLoose(s: System, n: int)
    requires TableInv(s) && DoneInv(s) && n !in s.submitted
    ensures Loose(s.client, n)
  {
  }

  /** The user hands over a message. */
  lemma SubmitStep(s: System, t: System, p: Outgoing)
    requires Inv(s) && p.origin == s.client.current + 1 < ID_SPACE
    requires t == s.(client := s.client.(current := p.origin), submitted := s.submitted[p.origin := p])
    ensures InvBut(t, {p.origin})
  {
    hide ChannelInv, DoneInv, MapsInv, Somewhere, Loose, FiredOk, SentOk, EntryOk;
    FreshIsLoose(s, p.origin);
    LinkedByFreshKey(s, t);
    ChannelStep(s, t);
    TableStays(s, t);
    DoneQuiet(s, t);
    OthersStay(s, t, {});
    MapsStay(s, t);
    LooseStays(s.client, t.client, p.origin);
  }

  ghost predicate Parks(s: System, t: System, p: Outgoing) {
    && p.origin == p.messageId == s.client.current + 1 < ID_SPACE - 1 && p.topicId == NO_TOPIC_ID
    && t.client == SendRegister(AddMessage(s.client.(current := p.origin), Parcel(p)), p.name)
    && t == s.(client := t.client, submitted := s.submitted[p.origin := p])
  }

  lemma ParkGrows(s: System, t: System, p: Outgoing)
    requires TableInv(s) && Parks(s, t, p)
    ensures Grows(s, t)
  {
  }

  lemma ParkStores(s: System, t: System, p: Outgoing)
    requires TableInv(s) && Parks(s, t, p) && Loose(s.client, p.origin)
    ensures Stores(s, t, p.origin)
  {
    var n := p.origin;
    assert t.client.table == s.client.table[n := Parcel(p)][0 := Other(Register(NO_TOPIC_ID, n + 1, p.name))];
    assert Parked(t.client, n);
  }

  lemma ParkFires(s: System, t: System, p: Outgoing)
    requires TableInv(s) && Parks(s, t, p)
    ensures forall q :: q in t.client.fired && q !in s.client.fired ==> FiredOk(t, q)
  {
    assert p.origin !in s.client.table && p.origin + 1 !in s.client.table;
  }

  /** A message whose topic has no id is parked and a REGISTER sent with the next id. */
  lemma ParkStep(s: System, t: System, p: Outgoing)
    requires Inv(s) && Parks(s, t, p)
    ensures Inv(t)
  {
    FreshIsLoose(s, p.origin);
    ParkGrows(s, t, p);
    ParkStores(s, t, p);
    ParkFires(s, t, p);
    LinkedByFreshKey(s, t);
    StoreStep(s, t, p.origin, {});
  }

  lemma FlightIsSomewhere(c: Client, n: int, k: int)
    requires InFlight(c, n, k)
    ensures Somewhere(c, n)
  {
  }

  /** A message in hand whose topic id is known is renumbered and stored. */
  lemma PublishStep(s: System, t: System, p: Outgoing)
    requires InvBut(s, {p.origin}) && s.client.current + 1 < ID_SPACE && p.qos != AT_MOST_ONCE
    requires Faithful(s, p) && p.topicId != NO_TOPIC_ID && Granted(s, p.name, p.topicId)
    requires t == s.(client := SendPublish(s.client, p))
    ensures Inv(t)
  {
    hide DoneInv, MapsInv, Somewhere, SentOk;
    var k := s.client.current + 1;
    var q := p.(messageId := k);
    assert Carries(t, Wire(q), t.submitted[p.origin]);
    LinkedByFreshKey(s, t);
    assert t.client.table == s.client.table[k := Parcel(q)];
    FlightIsSomewhere(t.client, p.origin, k);
    StoreStep(s, t, k, {p.origin});
  }

  /** With QoS 0 it is recorded at once. */
  lemma PublishOnceStep(s: System, t: System, p: Outgoing)
    requires InvBut(s, {p.origin}) && s.client.current + 1 < ID_SPACE && p.qos == AT_MOST_ONCE
    requires Faithful(s, p) && Granted(s, p.name, p.topicId)
    requires t == s.(client := SendPublish(s.client, p))
    ensures Inv(t)
  {
    hide DoneInv, MapsInv, Somewhere, SentOk;
    var k := s.client.current + 1;
    var q := p.(messageId := k);
    var u := s.(client := Fire(s.client.(current := k), Wire(q)));
    assert Carries(u, Wire(q), u.submitted[p.origin]);
    LinkedByFreshKey(s, u);
    MapsStay(s, u);
    QuietStep(s, u, {p.origin});
    assert t.client == u.client.(saved := u.client.saved + [q]);
    SaveStep(u, t, q);
  }

  lemma DoneSaves(s: System, t: System, p: Outgoing)
    requires DoneInv(s) && Loose(s.client, p.origin)
    requires Faithful(s, p) && Granted(s, p.name, p.topicId) && Wire(p) in s.client.fired
    requires p.qos != AT_MOST_ONCE ==> Decided(s, Wire(p))
    requires t == s.(client := s.client.(saved := s.client.saved + [p]))
    ensures DoneInv(t)
  {
  }

  /** A message in hand is recorded as sent. */
  lemma SaveStep(s: System, t: System, p: Outgoing)
    requires InvBut(s, {p.origin})
    requires Faithful(s, p) && Granted(s, p.name, p.topicId) && Wire(p) in s.client.fired
    requires p.qos != AT_MOST_ONCE ==> Decided(s, Wire(p))
    requires t == s.(client := s.client.(saved := s.client.saved + [p]))
    ensures Inv(t)
  {
    hide ChannelInv, TableInv, MapsInv, FiredOk, SentOk, EntryOk, DoneInv;
    LinkedByFreshKey(s, t);
    ChannelStep(s, t);
    TableStays(s, t);
    DoneSaves(s, t, p);
    assert At(t.client.saved, p.origin, |s.client.saved|);
    MapsStay(s, t);
    OthersStay(s, t, {p.origin});
  }

  lemma DoneGivesUp(s: System, t: System, p: Outgoing)
    requires DoneInv(s) && Loose(s.client, p.origin) && Faithful(s, p)
    requires t == s.(client := s.client.(dropped := s.client.dropped + [p]))
    ensures DoneInv(t)
  {
  }

  /** A message in hand is given up. */
  lemma GiveUpStep(s: System, t: System, p: Outgoing)
    requires InvBut(s, {p.origin}) && Faithful(s, p)
    requires t == s.(client := s.client.(dropped := s.client.dropped + [p]))
    ensures Inv(t)
  {
    hide ChannelInv, TableInv, MapsInv, FiredOk, SentOk, EntryOk, DoneInv;
    LinkedByFreshKey(s, t);
    ChannelStep(s, t);
    TableStays(s, t);
    DoneGivesUp(s, t, p);
    assert At(t.client.dropped, p.origin, |s.client.dropped|);
    MapsStay(s, t);
    OthersStay(s, t, {p.origin});
  }

  /** The message stored under `k` is taken in hand.  If it was parked, its REGISTER
      becomes answered. */
  lemma TakeStep(s: System, t: System, k: int)
    requires Inv(s) && k in s.client.table && s.client.table[k].Parcel?
    requires t == s.(client := s.client.(table := s.client.table - {k}), answered := t.answered)
    requires t.answered == if Parked(s.client, k) then s.answered + {k + 1} else s.answered
    ensures InvBut(t, {s.client.table[k].pub.origin})
  {
    hide ChannelInv, DoneInv, MapsInv, Somewhere, Loose, FiredOk, SentOk;
    var n := s.client.table[k].pub.origin;
    assert EntryOk(s, k, s.client.table[k]);
    LinkedByTaking(s, t, k);
    ChannelStep(s, t);
    assert TableInv(t) by {
      forall l | l in t.client.table ensures EntryOk(t, l, t.client.table[l]) {
        EntryStays(s, t, l, s.client.table[l]);
      }
    }
    DoneTakes(s, t, k);
    MapsStay(s, t);
    forall m | m in t.submitted && m != n ensures Somewhere(t.client, m) {
      SomewhereStays(s.client, t.client, m);
    }
  }

  lemma LinkedByTaking(s: System, t: System, k: int)
    requires ChannelInv(s) && TableInv(s) && k in s.client.table && s.client.table[k].Parcel?
    requires t == s.(client := s.client.(table := s.client.table - {k}), answered := t.answered)
    requires t.answered == if Parked(s.client, k) then s.answered + {k + 1} else s.answered
    ensures Linked(s, t)
  {
    forall r, name | Register(NO_TOPIC_ID, r, name) in s.client.fired
      ensures r !in t.answered <==> r - 1 in t.client.table
    {
      assert FiredOk(s, Register(NO_TOPIC_ID, r, name));
    }
  }

  lemma DoneTakes(s: System, t: System, k: int)
    requires TableInv(s) && DoneInv(s) && k in s.client.table && s.client.table[k].Parcel?
    requires t == s.(client := s.client.(table := s.client.table - {k}), answered := t.answered)
    ensures DoneInv(t) && Loose(t.client, s.client.table[k].pub.origin)
  {
  }

  /** Changes to what no invariant speaks of. */
  lemma AsideStep(s: System, t: System)
    requires Inv(s) && t == s.(client := s.client.(delivered := t.client.delivered, faulted := t.client.faulted))
    ensures Inv(t)
  {
    hide TableInv, DoneInv, MapsInv, Somewhere, EntryOk;
    StaysLinked(s, t);
    MapsStay(s, t);
    QuietStep(s, t, {});
  }

  // ---- What the client receives ----

  /** A REGACK finds the message its REGISTER was sent for, or nothing. */
  lemma RegackFinds(s: System, p: Packet)
    requires Inv(s) && p in s.toClient && p.Regack?
    ensures ParkedKey(p.msgId) == p.msgId - 1 && Sound(s.client, p) && p.msgId !in s.client.table
    ensures p.msgId - 1 in s.client.table <==> p.msgId !in s.answered
    ensures p.msgId - 1 in s.client.table ==>
      && Parked(s.client, p.msgId - 1) && Faithful(s, s.client.table[p.msgId - 1].pub)
      && 0 < p.msgId <= s.client.current
      && (p.accepted ==> Granted(s, s.client.table[p.msgId - 1].pub.name, p.topicId))
  {
    hide DoneInv, MapsInv, Somewhere, Loose;
    assert SentOk(s, p);
    var name :| Register(NO_TOPIC_ID, p.msgId, name) in s.client.fired && (p.accepted ==> Granted(s, name, p.topicId));
    assert FiredOk(s, Register(NO_TOPIC_ID, p.msgId, name));
    if p.msgId - 1 in s.client.table {
      assert EntryOk(s, p.msgId - 1, s.client.table[p.msgId - 1]);
    }
  }

  lemma RegackStep(s: System, p: Packet)
    requires Inv(s) && p in s.toClient && p.Regack?
    requires Receive(s.client, p).current < ID_SPACE
    ensures Inv(s.(client := Receive(s.client, p), answered := s.answered + {p.msgId}))
  {
    hide InvBut, Faithful, SendPublish, Learn;
    RegackFinds(s, p);
    var key := p.msgId - 1;
    if key !in s.client.table {
      assert s.answered + {p.msgId} == s.answered;
    } else {
      RegackFound(s, p, s.client.table[key].pub);
    }
  }

  lemma RegackFound(s: System, p: Packet, m: Outgoing)
    requires Inv(s) && p.Regack? && Sound(s.client, p) && OnRegack(s.client, p.topicId, p.msgId, p.accepted).current < ID_SPACE
    requires ParkedKey(p.msgId) == p.msgId - 1 && p.msgId - 1 in s.client.table && s.client.table[p.msgId - 1] == Parcel(m)
    requires Parked(s.client, p.msgId - 1) && p.msgId !in s.client.table && 0 < p.msgId <= s.client.current
    requires Faithful(s, m) && (p.accepted ==> Granted(s, m.name, p.topicId))
    ensures Inv(s.(client := OnRegack(s.client, p.topicId, p.msgId, p.accepted), answered := s.answered + {p.msgId}))
  {
    hide InvBut, Sound;
    var t := s.(client := OnRegack(s.client, p.topicId, p.msgId, p.accepted), answered := s.answered + {p.msgId});
    var u := s.(client := s.client.(table := s.client.table - {p.msgId - 1}), answered := s.answered + {p.msgId});
    TakeStep(s, u, p.msgId - 1);
    if p.accepted {
      RegackAccepted(s.client, p.topicId, p.msgId, m);
      LearnStep(u, m.name, p.topicId, {m.origin});
      PublishAnyStep(u.(client := Learn(u.client, m.name, p.topicId)), t, m.(topicId := p.topicId));
    } else {
      RegackRefused(s.client, p.topicId, p.msgId, m);
      GiveUpStep(u, t, m);
    }
  }

  lemma PublishAnyStep(s: System, t: System, p: Outgoing)
    requires InvBut(s, {p.origin}) && s.client.current + 1 < ID_SPACE
    requires Faithful(s, p) && Granted(s, p.name, p.topicId)
    requires t == s.(client := SendPublish(s.client, p))
    ensures Inv(t)
  {
    if p.qos == AT_MOST_ONCE {
      PublishOnceStep(s, t, p);
    } else {
      assert MapsInv(s);
      PublishStep(s, t, p);
    }
  }

  lemma BothKeysGone<T>(table: map<int, T>, key: int, entry: T, parked: int, register: int)
    requires register !in table && key != parked && key != register
    ensures table[key := entry] - {parked} - {register} == (table - {parked})[key := entry]
    ensures table - {parked} - {register} == table - {parked}
  {
  }

  lemma StoreThenTake(c: Client, p: Outgoing, id: int)
    requires id !in c.table && 0 < id && p.messageId != id && p.messageId != id - 1
    ensures var d := AddMessage(c, Parcel(p));
      d.(table := d.table - {id - 1} - {id}) == AddMessage(c.(table := c.table - {id - 1}), Parcel(p))
  {
    BothKeysGone(c.table, p.messageId, Parcel(p), id - 1, id);
  }

  lemma PublishThenTake(c: Client, p: Outgoing, id: int)
    requires id !in c.table && 0 < id <= c.current < ID_SPACE - 1
    ensures var d := SendPublish(c, p);
      d.(table := d.table - {id - 1} - {id}) == SendPublish(c.(table := c.table - {id - 1}), p)
  {
    hide Wire, AddMessage;
    var q := p.(messageId := c.current + 1);
    if p.qos == AT_MOST_ONCE {
      BothKeysGone(c.table, q.messageId, Parcel(q), id - 1, id);
    } else {
      StoreThenTake(Fire(c.(current := c.current + 1), Wire(q)), q, id);
    }
  }

  lemma LearnThenTake(c: Client, name: string, topicId: int, key: int)
    ensures var d := Learn(c, name, topicId);
      d.(table := d.table - {key}) == Learn(c.(table := c.table - {key}), name, topicId)
  {
  }

  /** Removing the parked entry after publishing is as good as before. */
  lemma RegackAccepted(c: Client, topicId: int, id: int, m: Outgoing)
    requires Sound(c, Regack(topicId, id, true))
    requires ParkedKey(id) in c.table && c.table[ParkedKey(id)] == Parcel(m)
    requires id !in c.table && 0 < id <= c.current < ID_SPACE - 1
    ensures OnRegack(c, topicId, id, true) ==
      SendPublish(Learn(c.(table := c.table - {id - 1}), m.name, topicId), m.(topicId := topicId))
  {
    hide Sound;
    var p := m.(topicId := topicId);
    PublishThenTake(Learn(c, m.name, topicId), p, id);
    LearnThenTake(c, m.name, topicId, id - 1);
    hide SendPublish, Learn;
  }

  /** A refused message is given up; so is what an answered REGISTER waited for. */
  lemma RegackRefused(c: Client, topicId: int, id: int, m: Outgoing)
    requires Sound(c, Regack(topicId, id, false))
    requires ParkedKey(id) in c.table && c.table[ParkedKey(id)] == Parcel(m)
    requires id !in c.table && 0 < id <= c.current < ID_SPACE
    ensures OnRegack(c, topicId, id, false) == c.(table := c.table - {id - 1}, dropped := c.dropped + [m])
  {
    hide Sound;
    BothKeysGone(c.table, 0 - 1, Parcel(m), id - 1, id);
  }

  /** A publish that was sent, if its id is still in the table, is what is stored there. */
  lemma FiredFinds(s: System, w: Packet)
    requires Inv(s) && w in s.client.fired && w.Publish? && w.msgId in s.client.table
    ensures s.client.table[w.msgId].Parcel? && !Parked(s.client, w.msgId)
    ensures var m := s.client.table[w.msgId].pub;
      m.messageId == w.msgId && Wire(m) == w && Faithful(s, m) && Granted(s, m.name, m.topicId)
  {
    var id := w.msgId;
    assert FiredOk(s, w);
    var n :| n in s.submitted && Carries(s, w, s.submitted[n]);
    assert EntryOk(s, id, s.client.table[id]);
    assert MapsInv(s);
  }

  /** A packet that records the message it finds. */
  predicate Records(p: Packet) {
    p.Puback? || p.Pubcomp?
  }

  predicate Accepts(p: Packet) {
    p.Puback? ==> p.accepted
  }

  /** What a PUBACK or PUBCOMP finds is a publish the gateway has decided on, as the
      packet says. */
  lemma AckFinds(s: System, p: Packet)
    requires Inv(s) && p in s.toClient && Records(p) && p.msgId in s.client.table
    ensures s.client.table[p.msgId].Parcel? && !Parked(s.client, p.msgId)
    ensures var m := s.client.table[p.msgId].pub;
      && m.messageId == p.msgId && Wire(m) in s.client.fired
      && Wire(m) in (if Accepts(p) then s.accepted else s.refused)
      && Faithful(s, m) && Granted(s, m.name, m.topicId)
  {
    assert SentOk(s, p);
    var id := p.msgId;
    if p.Pubcomp? {
      var w :| w in s.accepted && w in s.client.fired && w.Publish? && w.msgId == id && w.qos == EXACTLY_ONCE;
      FiredFinds(s, w);
    } else if p.accepted {
      var w :| w in s.accepted && w in s.client.fired && w.Publish? && w.msgId == id && w.qos == AT_LEAST_ONCE;
      FiredFinds(s, w);
    } else {
      var w :| w in s.refused && w in s.client.fired && w.Publish? && w.msgId == id;
      FiredFinds(s, w);
    }
  }

  lemma AckStep(s: System, p: Packet)
    requires Inv(s) && p in s.toClient && Records(p) && p.msgId in s.client.table && s.client.table[p.msgId].Parcel?
    ensures Inv(s.(client := Retire(s.client, p.msgId).(table := s.client.table - {p.msgId})))
  {
    hide Inv, InvBut, SentOk, EntryOk;
    AckFinds(s, p);
    var m := s.client.table[p.msgId].pub;
    var u := s.(client := s.client.(table := s.client.table - {p.msgId}));
    TakeStep(s, u, p.msgId);
    SaveStep(u, s.(client := Retire(s.client, p.msgId).(table := s.client.table - {p.msgId})), m);
  }

  lemma SubackStep(s: System, p: Packet)
    requires Inv(s) && p in s.toClient && p.Suback? && Sound(s.client, p)
    ensures Inv(s.(client := Receive(s.client, p)))
  {
    if p.msgId in s.client.table {
      assert SentOk(s, p);
      var w :| w in s.client.fired && w.Subscribe? && w.msgId == p.msgId && (p.accepted && !w.byId ==> Granted(s, w.name, p.topicId));
      assert FiredOk(s, w);
      var u := s;
      if p.accepted && p.topicId !in s.client.nameOf {
        LearnStep(s, w.name, p.topicId, {});
        u := s.(client := Learn(s.client, w.name, p.topicId));
      }
      DropStep(u, p.msgId);
      assert s.(client := Receive(s.client, p)) == u.(client := u.client.(table := u.client.table - {p.msgId}));
    }
  }

  /** What finds an entry, finds one of the kind it is cast to. */
  lemma CastsAreRight(s: System, p: Packet)
    requires Inv(s) && p in s.toClient
    ensures match p
      case Regack(_, id, _) => ParkedKey(id) in s.client.table ==> s.client.table[ParkedKey(id)].Parcel?
      case Puback(_, id, _) => id in s.client.table ==> s.client.table[id].Parcel?
      case Pubcomp(id) => id in s.client.table ==> s.client.table[id].Parcel?
      case Suback(_, id, _) => id in s.client.table ==> s.client.table[id].Other? && s.client.table[id].packet.Subscribe?
      case Unsuback(id) => id in s.client.table ==> s.client.table[id].Other? && s.client.table[id].packet.Unsubscribe?
      case _ => true
  {
    hide DoneInv, MapsInv, TableInv, Somewhere, Loose, EntryOk;
    assert SentOk(s, p);
    match p {
      case Regack(_, _, _) => RegackFinds(s, p);
      case Puback(_, id, _) => if id in s.client.table { AckFinds(s, p); }
      case Pubcomp(id) => if id in s.client.table { AckFinds(s, p); }
      case Suback(t, id, ok) =>
        var w :| w in s.client.fired && w.Subscribe? && w.msgId == id && (ok && !w.byId ==> Granted(s, w.name, t));
        assert FiredOk(s, w);
      case Unsuback(id) =>
        var w :| w in s.client.fired && w.Unsubscribe? && w.msgId == id;
        assert FiredOk(s, w);
      case _ =>
    }
  }

  lemma ZeroIsOther(s: System)
    requires Inv(s)
    ensures 0 in s.client.table ==> s.client.table[0].Other?
  {
    if 0 in s.client.table { assert EntryOk(s, 0, s.client.table[0]); }
  }

  lemma RegisterFinds(s: System, p: Packet)
    requires Inv(s) && p in s.toClient && p.Register?
    ensures Granted(s, p.name, p.topicId)
  {
    assert SentOk(s, p);
  }

  lemma UnsubackFinds(s: System, p: Packet)
    requires Inv(s) && p in s.toClient && p.Unsuback? && Sound(s.client, p)
    ensures s.client.table[p.msgId].packet.msgId == p.msgId
  {
    assert SentOk(s, p);
    assert EntryOk(s, p.msgId, s.client.table[p.msgId]);
  }

  lemma ReceiveStep(s: System, a: Action)
    requires Inv(s) && Enabled(s, a) && a.ClientReceives? && Next(s, a).client.current < ID_SPACE
    ensures Inv(Next(s, a))
  {
    hide InvBut;
    var p, t := a.p, Next(s, a);
    if p.Regack? {
      RegackStep(s, p);
    } else if !Sound(s.client, p) {
      AsideStep(s, t);
    } else {
      match p {
        case Connack(ok) =>
          ZeroIsOther(s);
          DropStep(s, 0);
          if ok { ForgetStep(s.(client := s.client.(table := s.client.table - {0}))); }
        case Register(topicId, id, name) =>
          RegisterFinds(s, p);
          LearnStep(s, name, topicId, {});
          FireStep(s.(client := Learn(s.client, name, topicId)), Regack(topicId, id, true));
        case Publish(id, topicId, _, qos, _, _) =>
          var u := s.(client := s.client.(delivered := s.client.delivered + [p]));
          AsideStep(s, u);
          FireStep(u, if qos == AT_LEAST_ONCE then Puback(topicId, id, true) else Pubrec(id));
        case Puback(_, id, _) => if id in s.client.table { AckStep(s, p); }
        case Pubrec(id) => FireStep(s, Pubrel(id));
        case Pubrel(id) => FireStep(s, Pubcomp(id));
        case Pubcomp(id) => AckFinds(s, p); AckStep(s, p);
        case Suback(_, _, _) => SubackStep(s, p);
        case Unsuback(id) => UnsubackFinds(s, p); DropStep(s, id);
        case _ =>
      }
    }
  }

  // ---- Every state of every run ----

  /** A message without a topic id goes into the table, followed by a REGISTER. */
  lemma MessageParks(s: System, a: Action, p: Outgoing)
    requires Inv(s) && Enabled(s, a) && a.UserMessage? && TopicId(s.client, a.name) == NO_TOPIC_ID
    requires var n := s.client.current + 1; p == Outgoing(n, n, NO_TOPIC_ID, a.name, a.data, a.qos, a.retain, a.dup)
    requires Next(s, a).client.current < ID_SPACE
    ensures Parks(s, Next(s, a), p)
  {
    hide Inv, InvBut;
  }

  lemma KnownIsGranted(s: System, name: string)
    requires Inv(s) && name in s.client.idOf
    ensures Granted(s, name, s.client.idOf[name])
  {
    assert MapsInv(s);
  }

  lemma MessageStep(s: System, a: Action)
    requires Inv(s) && Enabled(s, a) && a.UserMessage? && Next(s, a).client.current < ID_SPACE
    ensures Inv(Next(s, a))
  {
    hide InvBut;
    var n := s.client.current + 1;
    var p := Outgoing(n, n, TopicId(s.client, a.name), a.name, a.data, a.qos, a.retain, a.dup);
    if p.topicId == NO_TOPIC_ID {
      MessageParks(s, a, p);
      ParkStep(s, Next(s, a), p);
    } else {
      hide Parks;
      var u := s.(client := s.client.(current := n), submitted := s.submitted[n := p]);
      SubmitStep(s, u, p);
      KnownIsGranted(s, a.name);
      PublishAnyStep(u, Next(s, a), p);
    }
  }

  lemma UserStep(s: System, a: Action)
    requires Inv(s) && Enabled(s, a) && Next(s, a).client.current < ID_SPACE
    requires a.UserMessage? || a.UserSubscribe? || a.UserUnsubscribe?
    ensures Inv(Next(s, a))
  {
    hide InvBut;
    match a {
      case UserSubscribe(name, qos) =>
        var topicId := TopicId(s.client, name);
        RequestStep(s, Subscribe(s.client.current + 1, topicId != NO_TOPIC_ID, topicId, name, qos));
      case UserUnsubscribe(name) =>
        var topicId := TopicId(s.client, name);
        RequestStep(s, Unsubscribe(s.client.current + 1, topicId != NO_TOPIC_ID, topicId, name));
      case UserMessage(_, _, _, _, _) => MessageStep(s, a);
      case _ =>
    }
  }

  lemma PubrelFollowsPubrec(s: System, id: int)
    requires Inv(s) && Pubrel(id) in s.client.fired
    ensures AcceptedAt(s, id, EXACTLY_ONCE)
  {
    hide DoneInv, MapsInv, TableInv, Somewhere, AcceptedAt;
    assert FiredOk(s, Pubrel(id));
    assert SentOk(s, Pubrec(id));
  }

  /** The gateway takes in a packet the client sent. */
  lemma AnswerStep(s: System, p: Packet)
    requires Inv(s) && p in s.client.fired
    ensures Inv(Answer(s, p))
  {
    hide InvBut;
    match p {
      case Publish(id, topicId, _, qos, _, _) =>
        if qos == AT_LEAST_ONCE || qos == EXACTLY_ONCE {
          AcceptStep(s, p);
          var u := s.(accepted := s.accepted + {p});
          assert AcceptedAt(u, id, qos);
          SendStep(u, if qos == AT_LEAST_ONCE then Puback(topicId, id, true) else Pubrec(id));
        }
      case Pubrel(id) =>
        PubrelFollowsPubrec(s, id);
        SendStep(s, Pubcomp(id));
      case Pubrec(id) => SendStep(s, Pubrel(id));
      case Unsubscribe(id, _, _, _) => SendStep(s, Unsuback(id));
      case _ =>
    }
  }

  lemma RefusalStep(s: System, p: Packet)
    requires Inv(s) && p in s.client.fired && p.Publish?
    ensures Inv(s.(refused := s.refused + {p}, toClient := s.toClient + {Puback(p.topicId, p.msgId, false)}))
  {
    hide InvBut;
    RefuseStep(s, p);
    var u := s.(refused := s.refused + {p});
    assert RefusedAt(u, p.msgId);
    SendStep(u, Puback(p.topicId, p.msgId, false));
  }

  lemma RegackSendStep(s: System, a: Action)
    requires Inv(s) && Enabled(s, a) && a.GatewayAnswersRegister?
    ensures Inv(Next(s, a))
  {
    assert FiredOk(s, a.p);
    hide InvBut;
    SendStep(s, Regack(if a.accepted then s.granted[a.p.name] else NO_TOPIC_ID, a.p.msgId, a.accepted));
  }

  lemma GatewayStep(s: System, a: Action)
    requires Inv(s) && Enabled(s, a)
    requires !a.UserMessage? && !a.UserSubscribe? && !a.UserUnsubscribe? && !a.ClientReceives?
    ensures Inv(Next(s, a))
  {
    hide InvBut, Answer;
    match a {
      case GatewayReceives(p) => AnswerStep(s, p);
      case GatewayRefuses(p) => RefusalStep(s, p);
      case GatewayConnects(ok) => SendStep(s, Connack(ok));
      case GatewayGrants(name, topicId) => GrantStep(s, name, topicId);
      case GatewayAnswersRegister(_, _) => RegackSendStep(s, a);
      case GatewayAnswersSubscribe(p, ok) =>
        SendStep(s, Suback(if p.byId then p.topicId else if ok then s.granted[p.name] else NO_TOPIC_ID, p.msgId, ok));
      case GatewayRegisters(name, id) => SendStep(s, Register(s.granted[name], id, name));
      case GatewayPublishes(p) => SendStep(s, p);
      case _ =>
    }
  }

  lemma InvStep(s: System, a: Action)
    requires Inv(s) && Enabled(s, a) && Next(s, a).client.current < ID_SPACE
    ensures Inv(Next(s, a))
  {
    match a {
      case UserMessage(_, _, _, _, _) => UserStep(s, a);
      case UserSubscribe(_, _) => UserStep(s, a);
      case UserUnsubscribe(_) => UserStep(s, a);
      case ClientReceives(_) => ReceiveStep(s, a);
      case _ => GatewayStep(s, a);
    }
  }

  lemma InitHolds()
    ensures Inv(Init())
  {
  }
}
