/** The `UserManager` class: the `users` and `queue` arrays are fields it
    pushes to, pops from and reassigns, and it owns the one RoomManager.
    Each method is proved to move the state exactly as the matching function
    of UserSpec does. */
module UserManaging {
  import opened Wire
  import opened RoomSpec
  import opened RoomManaging
  import UserSpec

  class UserManager {
    var users: seq<User>
    /** The wait queue; `push` appends and `pop` takes from the end. */
    var queue: seq<Id>
    const rm: RoomManager
    /** The sockets, shared with the room manager. */
    const out: Outbox

    ghost function Abs(): UserSpec.Hub
      reads this, rm, out
    {
      UserSpec.Hub(users, queue, Registry(rm.entries, rm.counter, out.sent))
    }

    ghost predicate Valid()
      reads this, rm, out
    {
      rm.out == out && WellFormed(Abs().reg)
    }

    constructor (out: Outbox)
      ensures Valid() && fresh(rm) && this.out == out
      ensures users == [] && queue == [] && rm.entries == [] && rm.counter == 1
    {
      users := [];
      queue := [];
      this.out := out;
      rm := new RoomManager(out);
    }

    method AddUser(name: string, socketId: Id)
      requires Valid()
      modifies this, rm, out
      ensures Valid()
      ensures Abs() == UserSpec.AddUser(old(Abs()), name, socketId)
    {
      users := users + [User(socketId, name)];
      queue := queue + [socketId];
      out.Emit(socketId, Lobby);
      ClearQueue();
    }

    method RemoveUser(socketId: Id)
      requires Valid()
      modifies this, rm, out
      ensures Valid()
      ensures Abs() == UserSpec.RemoveUser(old(Abs()), socketId)
    {
      var user := UserSpec.FindUser(users, socketId);
      if user.Some? {
        var roomId := rm.FindRoomByUser(socketId);
        if UserSpec.Truthy(roomId) {
          var otherUserId := rm.RemoveRoom(roomId.value, socketId);
          if UserSpec.Truthy(otherUserId) {
            queue := queue + [otherUserId.value];
          }
        }
      }
      users := UserSpec.RemoveUserId(users, socketId);
      queue := UserSpec.Without(queue, socketId);
      ClearQueue();
    }

    method ClearQueue()
      requires Valid()
      modifies this, rm, out
      ensures Valid()
      ensures Abs() == UserSpec.ClearQueue(old(Abs()))
      decreases |queue|
    {
      if |queue| < 2 {
        return;
      }
      ghost var h := Abs();
      var id1 := queue[|queue| - 1];
      queue := queue[..|queue| - 1];
      var id2 := queue[|queue| - 1];
      queue := queue[..|queue| - 1];
      assert queue == h.queue[..|h.queue| - 2];
      var user1 := UserSpec.FindUser(users, id1);
      var user2 := UserSpec.FindUser(users, id2);
      if user1.None? || user2.None? {
        return;
      }
      rm.CreateRoom(user1.value, user2.value);
      ghost var h1 := Abs();
      assert h1 == UserSpec.Hub(h.users, h.queue[..|h.queue| - 2], RoomSpec.CreateRoom(h.reg, user1.value, user2.value));
      assert UserSpec.ClearQueue(h) == UserSpec.ClearQueue(h1);
      ClearQueue();
    }

    method NextUser(socketId: Id)
      requires Valid()
      modifies this, rm, out
      ensures Valid()
      ensures Abs() == UserSpec.NextUser(old(Abs()), socketId)
    {
      var roomId := rm.FindRoomByUser(socketId);
      if UserSpec.Truthy(roomId) {
        var otherUserId := rm.RemoveRoom(roomId.value, socketId);
        if UserSpec.Truthy(otherUserId) {
          queue := queue + [otherUserId.value];
        }
      }
      queue := queue + [socketId];
      ClearQueue();
    }

    /** One event arriving on the socket `socketId`, dispatched as
        `initHandlers` wires it. */
    method Handle(socketId: Id, e: UserSpec.Event)
      requires Valid()
      modifies this, rm, out
      ensures Valid()
      ensures Abs() == UserSpec.Handle(old(Abs()), socketId, e)
    {
      match e
      case OfferEvent(sdp, roomId) => rm.OnOffer(roomId, sdp, socketId);
      case AnswerEvent(sdp, roomId) => rm.OnAnswer(roomId, sdp, socketId);
      case IceCandidateEvent(candidate, roomId, role) => rm.OnIceCandidates(roomId, socketId, candidate, role);
      case Disconnect => RemoveUser(socketId);
      case Next => NextUser(socketId);
    }
  }
}
