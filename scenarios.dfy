/** Whole-system runs of the user manager from concrete starting states:
    pairing on connect, relaying inside a room, re-queueing on disconnect and
    on "next". */
module Scenarios {
  import opened Wire
  import opened RoomSpec
  import opened UserSpec

  /** Two connects pair the second user (the queue tail) as user1 with the
      first; both get `send-offer` with the same room id. A third user then
      waits alone in the queue. */
  lemma ConnectPairsThenWaits(counter: nat, sent: seq<Message>, a: User, b: User, c: User)
    requires counter >= 1
    requires a.id != b.id
    ensures var h2 := AddUser(AddUser(Hub([], [], Registry([], counter, sent)), a.name, a.id), b.name, b.id);
      var key := Decimal(counter);
      && h2.queue == []
      && h2.reg.entries == [Entry(key, Room(b, a))]
      && h2.reg.counter == counter + 1
      && h2.reg.sent == sent + [Message(a.id, Lobby), Message(b.id, Lobby), Message(b.id, SendOffer(key)), Message(a.id, SendOffer(key))]
      && AddUser(h2, c.name, c.id).queue == [c.id]
      && AddUser(h2, c.name, c.id).reg == h2.reg.(sent := h2.reg.sent + [Message(c.id, Lobby)])
  {
    var h0 := Hub([], [], Registry([], counter, sent));
    AddUserWhileQueueEmpty(h0, a);
    var h1 := AddUser(h0, a.name, a.id);
    assert h1.users == [a];
    AddUserPairsWithWaiting(h1, b, a);
    var key := Decimal(counter);
    ConcatOneThree(sent, Message(a.id, Lobby), Message(b.id, Lobby), Message(b.id, SendOffer(key)), Message(a.id, SendOffer(key)));
    var h2 := AddUser(h1, b.name, b.id);
    AddUserWhileQueueEmpty(h2, c);
  }

  /** Regrouping one appended element and three more; a separate lemma so the
      solver settles it by extensionality in a small context. */
  lemma ConcatOneThree<T>(s: seq<T>, a: T, b: T, c: T, d: T)
    ensures s + [a] + [b, c, d] == s + [a, b, c, d]
  {
  }

  /** In a room of two distinct users an offer from one reaches the other
      with its sdp and room id, and an ICE candidate comes back tagged with
      its role; users, queue and rooms stay as they were. */
  lemma RelayWithinRoom(h: Hub, roomId: string, u1: User, u2: User, sdp: string, candidate: string, role: IceRole)
    requires Lookup(h.reg.entries, roomId) == Some(Room(u1, u2))
    requires u1.id != u2.id
    ensures var h1 := Handle(h, u1.id, OfferEvent(sdp, roomId));
      && h1.reg.sent == h.reg.sent + [Message(u2.id, Offer(sdp, roomId))]
      && var h2 := Handle(h1, u2.id, IceCandidateEvent(candidate, roomId, role));
      && h2.reg.sent == h.reg.sent + [Message(u2.id, Offer(sdp, roomId)), Message(u1.id, AddIceCandidate(candidate, role))]
      && h2.users == h.users && h2.queue == h.queue && h2.reg.entries == h.reg.entries
  {
    RelayTargets(h.reg, roomId, u1.id, Offer(sdp, roomId));
    var h1 := Handle(h, u1.id, OfferEvent(sdp, roomId));
    RelayTargets(h1.reg, roomId, u2.id, AddIceCandidate(candidate, role));
  }

  /** One member of a room disconnects: the partner gets `lobby` and waits in
      the queue, and the repeated `removeUser` changes nothing more. */
  lemma DisconnectRequeuesPartner(k: string, counter: nat, sent: seq<Message>, u1: User, u2: User)
    requires WellFormed(Registry([Entry(k, Room(u1, u2))], counter, sent))
    requires u1.id != u2.id && u2.id != ""
    ensures var h := Hub([u1, u2], [], Registry([Entry(k, Room(u1, u2))], counter, sent));
      var r := RemoveUser(h, u1.id);
      && r == Hub([u2], [u2.id], Registry([], counter, sent + [Message(u2.id, Lobby)]))
      && RemoveUser(r, u1.id) == r
  {
    var h := Hub([u1, u2], [], Registry([Entry(k, Room(u1, u2))], counter, sent));
    assert FindRoomByUser(h.reg.entries, u1.id) == Some(k);
    RemoveUserFromRoom(h, u1.id, k, Room(u1, u2), u2);
    assert RemoveUserId([u1, u2], u1.id) == [u2];
    assert Delete([Entry(k, Room(u1, u2))], k) == [];
    RemoveUserTwice(h, u1.id);
  }

  /** After that disconnect, the next user to connect is paired with the
      waiting partner in a room whose id differs from the old one. */
  lemma ReconnectGetsNewRoom(k: string, counter: nat, sent: seq<Message>, u1: User, u2: User, c: User)
    requires WellFormed(Registry([Entry(k, Room(u1, u2))], counter, sent))
    requires c.id != u2.id
    ensures var r := Hub([u2], [u2.id], Registry([], counter, sent + [Message(u2.id, Lobby)]));
      var key := Decimal(counter);
      && AddUser(r, c.name, c.id).queue == []
      && AddUser(r, c.name, c.id).reg.entries == [Entry(key, Room(c, u2))]
      && key != k
  {
    var r := Hub([u2], [u2.id], Registry([], counter, sent + [Message(u2.id, Lobby)]));
    AddUserPairsWithWaiting(r, c, u2);
    FreshKeyAbsent(Registry([Entry(k, Room(u1, u2))], counter, sent));
  }

  /** "next" from a room with an empty queue re-pairs the same two users,
      skipper as user1, under a room id different from the old one. */
  lemma NextRepairsSamePair(k: string, counter: nat, sent: seq<Message>, me: User, partner: User, room: Room)
    requires room == Room(me, partner) || room == Room(partner, me)
    requires WellFormed(Registry([Entry(k, room)], counter, sent))
    requires me.id != partner.id && partner.id != ""
    ensures var r := NextUser(Hub([me, partner], [], Registry([Entry(k, room)], counter, sent)), me.id);
      var key := Decimal(counter);
      && r.queue == []
      && r.reg.entries == [Entry(key, Room(me, partner))]
      && r.reg.counter == counter + 1
      && r.reg.sent == sent + [Message(partner.id, Lobby), Message(me.id, SendOffer(key)), Message(partner.id, SendOffer(key))]
      && key != k
  {
    var h := Hub([me, partner], [], Registry([Entry(k, room)], counter, sent));
    assert FindRoomByUser(h.reg.entries, me.id) == Some(k);
    assert Delete([Entry(k, room)], k) == [];
    NextUserFromRoom(h, me, k, room, partner);
    FreshKeyAbsent(h.reg);
  }

  /** "next" from a user who is still waiting alone queues its id a second
      time, and the pass then puts that user in a room with itself. */
  lemma NextWhileWaitingPairsWithSelf(users: seq<User>, g: Registry, u: User)
    requires WellFormed(g)
    requires FindUser(users, u.id) == Some(u)
    requires FindRoomByUser(g.entries, u.id).None?
    ensures var r := NextUser(Hub(users, [u.id], g), u.id);
      var key := Decimal(g.counter);
      && r.queue == []
      && r.reg.entries == g.entries + [Entry(key, Room(u, u))]
      && r.reg.sent == g.sent + [Message(u.id, SendOffer(key)), Message(u.id, SendOffer(key))]
  {
    PairLastTwo(Hub(users, [u.id, u.id], g));
  }

  /** Three users and a queue with an id "x" that has no user just below the
      tail. */
  predicate Stranded(ua: User, ub: User, uc: User, x: Id, z: Id) {
    && ua.id != ub.id && ua.id != uc.id && ub.id != uc.id
    && x != ua.id && x != ub.id && x != uc.id
    && z != ua.id && z != ub.id && z != uc.id && z != x
  }

  /** `removeUser` for an unknown id pops the tail and "x", drops both, and
      stops with two known ids still queued and no room made. */
  lemma PassStopsEarly(ua: User, ub: User, uc: User, x: Id, z: Id, g: Registry)
    requires Stranded(ua, ub, uc, x, z)
    ensures var h := Hub([ua, ub, uc], [ua.id, ub.id, x, uc.id], g);
      RemoveUser(h, z) == h.(queue := [ua.id, ub.id])
  {
    var h := Hub([ua, ub, uc], [ua.id, ub.id, x, uc.id], g);
    assert FindUser(h.users, z).None?;
    assert FindUser(h.users, x).None?;
    assert Without(h.queue, z) == h.queue;
    RemoveUnknownUser(h, z);
    ClearQueueStep(h);
  }

  /** So the second `removeUser` of the same disconnect does not end where
      the first did: it pairs the two ids the first pass left behind. */
  lemma SecondRemoveCanPair(ua: User, ub: User, uc: User, x: Id, z: Id, g: Registry)
    requires Stranded(ua, ub, uc, x, z) && WellFormed(g)
    ensures var r1 := RemoveUser(Hub([ua, ub, uc], [ua.id, ub.id, x, uc.id], g), z);
      var r2 := RemoveUser(r1, z);
      && r1.queue == [ua.id, ub.id] && r1.reg == g
      && r2.queue == [] && r2.reg.entries == g.entries + [Entry(Decimal(g.counter), Room(ub, ua))]
  {
    PassStopsEarly(ua, ub, uc, x, z, g);
    var r1 := Hub([ua, ub, uc], [ua.id, ub.id], g);
    assert FindUser(r1.users, z).None?;
    assert Without(r1.queue, z) == r1.queue;
    RemoveUnknownUser(r1, z);
    assert FindUser(r1.users, ub.id) == Some(ub);
    assert FindUser(r1.users, ua.id) == Some(ua);
    PairLastTwo(r1);
  }
}
