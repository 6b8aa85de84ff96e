/** The `RoomManager` class: its `rooms` Map and the room-id counter are
    fields updated in place, and every emit goes to the shared outbox. Each
    method is proved to move the state exactly as the matching function of
    RoomSpec does. */
module RoomManaging {
  import opened Wire
  import opened RoomSpec

  class RoomManager {
    /** The `rooms` Map, as its entries in insertion order. */
    var entries: seq<Entry>
    /** The room-id counter, `GLOBAL_ROOM_ID`: the next id to hand out. */
    var counter: nat
    /** The sockets, as one outbox. */
    const out: Outbox

    ghost function Abs(): Registry
      reads this, out
    {
      Registry(entries, counter, out.sent)
    }

    ghost predicate Valid()
      reads this, out
    {
      WellFormed(Abs())
    }

    constructor (out: Outbox)
      ensures Valid() && this.out == out
      ensures entries == [] && counter == 1
    {
      entries := [];
      counter := 1;
      this.out := out;
    }

    /** `generate()`: hands out the counter's value and post-increments it. */
    method Generate() returns (id: nat)
      modifies this
      ensures id == old(counter) && counter == old(counter) + 1
      ensures entries == old(entries)
    {
      id := counter;
      counter := counter + 1;
    }

    method CreateRoom(user1: User, user2: User)
      requires Valid()
      modifies this, out
      ensures Valid()
      ensures Abs() == RoomSpec.CreateRoom(old(Abs()), user1, user2)
    {
      var n := Generate();
      var roomId := Decimal(n);
      entries := Set(entries, roomId, Room(user1, user2));
      out.Emit(user1.id, SendOffer(roomId));
      out.Emit(user2.id, SendOffer(roomId));
      assert Abs() == RoomSpec.CreateRoom(old(Abs()), user1, user2);
    }

    method OnOffer(roomId: string, sdp: string, sender: Id)
      modifies out
      ensures Abs() == Relay(old(Abs()), roomId, sender, Offer(sdp, roomId))
    {
      var room := Lookup(entries, roomId);
      if room.None? {
        return;
      }
      var receiving := Other(room.value, sender);
      out.Emit(receiving.id, Offer(sdp, roomId));
    }

    method OnAnswer(roomId: string, sdp: string, sender: Id)
      modifies out
      ensures Abs() == Relay(old(Abs()), roomId, sender, Answer(sdp, roomId))
    {
      var room := Lookup(entries, roomId);
      if room.None? {
        return;
      }
      var receiving := Other(room.value, sender);
      out.Emit(receiving.id, Answer(sdp, roomId));
    }

    method OnIceCandidates(roomId: string, sender: Id, candidate: string, role: IceRole)
      modifies out
      ensures Abs() == Relay(old(Abs()), roomId, sender, AddIceCandidate(candidate, role))
    {
      var room := Lookup(entries, roomId);
      if room.None? {
        return;
      }
      var receiving := Other(room.value, sender);
      out.Emit(receiving.id, AddIceCandidate(candidate, role));
    }

    /** Walks the Map's entries in insertion order and stops at the first
        room that has `id` as a member. */
    method FindRoomByUser(id: Id) returns (r: Option<string>)
      ensures r == RoomSpec.FindRoomByUser(entries, id)
    {
      var i := 0;
      while i < |entries|
        invariant 0 <= i <= |entries|
        invariant RoomSpec.FindRoomByUser(entries[i..], id) == RoomSpec.FindRoomByUser(entries, id)
      {
        if HasMember(entries[i].room, id) {
          return Some(entries[i].roomId);
        }
        assert entries[i..][1..] == entries[i + 1..];
        i := i + 1;
      }
      return None;
    }

    method RemoveRoom(roomId: string, leaving: Id) returns (r: Option<Id>)
      requires Valid()
      modifies this, out
      ensures Valid()
      ensures (Abs(), r) == RoomSpec.RemoveRoom(old(Abs()), roomId, leaving)
    {
      var room := Lookup(entries, roomId);
      if room.None? {
        return None;
      }
      entries := Delete(entries, roomId);
      var remaining := Other(room.value, leaving);
      out.Emit(remaining.id, Lobby);
      return Some(remaining.id);
    }

    method SwitchUsers(roomId: string, leaving: Id)
      requires Valid()
      modifies this, out
      ensures Valid()
      ensures Abs() == RoomSpec.SwitchUsers(old(Abs()), roomId, leaving)
    {
      var room := Lookup(entries, roomId);
      if room.None? {
        return;
      }
      var otherId := Other(room.value, leaving).id;
      entries := Delete(entries, roomId);
      var otherUser := Other(room.value, leaving);
      out.Emit(otherUser.id, SwitchUser);
      var _ := RemoveRoom(roomId, leaving);
      var _ := RemoveRoom(roomId, otherId);
    }
  }
}
