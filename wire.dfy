/** What travels over the sockets: connection ids, users, the events the
    backend emits, and the outbox that stands for every socket's `emit`. */
module Wire {

  /** A socket id, assigned by the transport. */
  type Id = string

  datatype Option<T> = None | Some(value: T)

  /** A connected user; the socket reduces to its id. */
  datatype User = User(id: Id, name: string)

  /** The `type` tag of an ICE candidate: which local peer connection it is for. */
  datatype IceRole = Sender | Receiver

  /** The events the backend emits, with their payloads: `send-offer`,
      `offer`, `answer`, `add-ice-candidate`, `lobby` and `switch-user`, one
      constructor each. `sdp` and `candidate` are opaque to the backend and
      are forwarded as they came. */
  datatype Payload =
    | SendOffer(roomId: string)
    | Offer(sdp: string, roomId: string)
    | Answer(sdp: string, roomId: string)
    | AddIceCandidate(candidate: string, role: IceRole)
    | Lobby
    | SwitchUser

  /** One `socket.emit`: the recipient's id and what was sent. */
  datatype Message = Message(to: Id, payload: Payload)

  /** All sockets together: every emit appends one message, in order. */
  class Outbox {
    var sent: seq<Message>

    constructor ()
      ensures sent == []
    {
      sent := [];
    }

    method Emit(to: Id, payload: Payload)
      modifies this
      ensures sent == old(sent) + [Message(to, payload)]
    {
      sent := sent + [Message(to, payload)];
    }
  }

  /** Concatenation regroups freely; stated once so that proofs over
      message and queue sequences need not re-derive it by extensionality. */
  lemma ConcatAssoc<T>(a: seq<T>, b: seq<T>, c: seq<T>)
    ensures a + (b + c) == (a + b) + c
  {
  }

  function Digit(d: nat): (c: char)
    requires d < 10
    ensures '0' <= c <= '9'
  {
    ('0' as int + d) as char
  }

  /** `n.toString()` for a natural number: its decimal digits, most significant first. */
  function Decimal(n: nat): (s: string)
    ensures |s| >= 1
    ensures n >= 10 <==> |s| >= 2
    decreases n
  {
    if n < 10 then [Digit(n)] else Decimal(n / 10) + [Digit(n % 10)]
  }

  /** Distinct numbers render as distinct strings, so a room key is never
      issued twice. */
  lemma {:induction false} DecimalInjective(a: nat, b: nat)
    requires Decimal(a) == Decimal(b)
    ensures a == b
  {
    var s := Decimal(a);
    assert Digit(a % 10) == s[|s| - 1] == Digit(b % 10);
    assert Digit(a % 10) as int == '0' as int + a % 10;
    assert Digit(b % 10) as int == '0' as int + b % 10;
    if a >= 10 {
      assert Decimal(a / 10) == s[..|s| - 1] == Decimal(b / 10);
      DecimalInjective(a / 10, b / 10);
    }
  }
}
