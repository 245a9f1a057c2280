/**
 * The WebSocket message relay. One registry maps the user id a client
 * announces in a login frame to that client's connection; every chat
 * message frame is forwarded to every other registered id whose connection
 * is open, whatever the frame's `to` field says; a closing connection is
 * purged from the registry. Each event is handled to completion before the
 * next, so each handler is one atomic step here.
 */
module Relay {

  type UserId = string

  /** A transport connection, by an identity the transport assigns. */
  type ConnId = nat

  /** A connection's `readyState`; only `Open` connections are sent to. */
  datatype ReadyState = Connecting | Open | Closing | Closed

  /** A client frame after decoding; `Malformed` stands for one that does not parse. */
  datatype Frame =
    | Login(userId: UserId)
    | Message(from: UserId, to: UserId, message: string)
    | OtherType
    | Malformed

  /** The frame sent to a recipient: `{from, message}`. */
  datatype Delivery = Delivery(from: UserId, message: string)

  /** One `send`: the registry key it was made for, the connection it went to, and what was sent. */
  datatype Send = Send(recipient: UserId, conn: ConnId, frame: Delivery)

  /** A registry key that a message from `from` is forwarded to. */
  predicate Reaches(clients: map<UserId, ConnId>, readyState: map<ConnId, ReadyState>, from: UserId, key: UserId) {
    key in clients && key != from && clients[key] in readyState && readyState[clients[key]] == Open
  }

  /** The registry after closing `conn`: every entry for `conn` removed, every other entry kept. */
  function Purge(clients: map<UserId, ConnId>, conn: ConnId): (r: map<UserId, ConnId>)
    ensures forall k :: k in r <==> k in clients && clients[k] != conn
    ensures forall k :: k in r ==> r[k] == clients[k]
    ensures conn !in r.Values
  {
    map k | k in clients && clients[k] != conn :: clients[k]
  }

  class Relay {
    /** The `clients` object: user id to connection. */
    var clients: map<UserId, ConnId>
    /** The transport's view of every connection accepted so far. */
    var readyState: map<ConnId, ReadyState>

    /** Every registered connection is known to the transport and has not finished closing. */
    ghost predicate Valid()
      reads this
    {
      forall k :: k in clients ==> clients[k] in readyState && readyState[clients[k]] != Closed
    }

    constructor ()
      ensures Valid() && clients == map[] && readyState == map[]
    {
      clients := map[];
      readyState := map[];
    }

    /** The server's `connection` event: a new connection, open and not yet registered. */
    method Accept(conn: ConnId)
      requires Valid() && conn !in readyState
      modifies this
      ensures Valid()
      ensures clients == old(clients) && readyState == old(readyState)[conn := Open]
    {
      readyState := readyState[conn := Open];
    }

    /** The transport starting a closing handshake: the connection is no longer sent to, but stays registered. */
    method BeginClose(conn: ConnId)
      requires Valid() && conn in readyState && readyState[conn] == Open
      modifies this
      ensures Valid()
      ensures clients == old(clients) && readyState == old(readyState)[conn := Closing]
    {
      readyState := readyState[conn := Closing];
    }

    /** A login frame: `clients[userId] = ws`, replacing any earlier connection for that id. */
    method Login(userId: UserId, conn: ConnId)
      requires Valid() && conn in readyState && readyState[conn] != Closed
      modifies this
      ensures Valid()
      ensures clients == old(clients)[userId := conn] && readyState == old(readyState)
      ensures forall k :: k != userId ==> (k in clients <==> k in old(clients))
      ensures forall k :: k != userId && k in clients ==> clients[k] == old(clients)[k]
    {
      clients := clients[userId := conn];
    }

    /**
     * A message frame: one send of `{from, message}` for every registry key
     * other than `from` whose connection is open, and no other send.
     */
    method Route(from: UserId, message: string) returns (sends: seq<Send>)
      ensures forall i :: 0 <= i < |sends| ==>
        Reaches(clients, readyState, from, sends[i].recipient) &&
        sends[i].conn == clients[sends[i].recipient] && sends[i].frame == Delivery(from, message)
      ensures forall k :: Reaches(clients, readyState, from, k) ==> exists i :: 0 <= i < |sends| && sends[i].recipient == k
      ensures forall i, j :: 0 <= i < j < |sends| ==> sends[i].recipient != sends[j].recipient
    {
      sends := [];
      var pending := clients.Keys;
      while pending != {}
        invariant pending <= clients.Keys
        invariant forall i :: 0 <= i < |sends| ==>
          Reaches(clients, readyState, from, sends[i].recipient) && sends[i].recipient !in pending &&
          sends[i].conn == clients[sends[i].recipient] && sends[i].frame == Delivery(from, message)
        invariant forall k :: Reaches(clients, readyState, from, k) && k !in pending ==>
          exists i :: 0 <= i < |sends| && sends[i].recipient == k
        invariant forall i, j :: 0 <= i < j < |sends| ==> sends[i].recipient != sends[j].recipient
        decreases pending
      {
        var key :| key in pending;
        ghost var sent := sends;
        if key != from {
          var client := clients[key];
          if client in readyState && readyState[client] == Open {
            sends := sends + [Send(key, client, Delivery(from, message))];
            assert sends[|sends| - 1].recipient == key;
          }
        }
        assert forall i :: 0 <= i < |sent| ==> sends[i] == sent[i];
        pending := pending - {key};
      }
    }

    /** One frame on connection `conn`: login, message, a frame of another type, or one that fails to parse. */
    method OnFrame(conn: ConnId, frame: Frame) returns (sends: seq<Send>)
      requires Valid() && conn in readyState && readyState[conn] != Closed
      modifies this
      ensures Valid() && readyState == old(readyState)
      ensures clients == if frame.Login? then old(clients)[frame.userId := conn] else old(clients)
      ensures !frame.Message? ==> sends == []
      ensures frame.Message? ==>
        (forall i :: 0 <= i < |sends| ==>
          Reaches(clients, readyState, frame.from, sends[i].recipient) &&
          sends[i].conn == clients[sends[i].recipient] && sends[i].frame == Delivery(frame.from, frame.message)) &&
        (forall k :: Reaches(clients, readyState, frame.from, k) ==>
          exists i :: 0 <= i < |sends| && sends[i].recipient == k) &&
        (forall i, j :: 0 <= i < j < |sends| ==> sends[i].recipient != sends[j].recipient)
    {
      sends := [];
      match frame
      case Login(userId) =>
        Login(userId, conn);
      case Message(from, _, message) =>
        sends := Route(from, message);
      case OtherType =>
      case Malformed =>
    }

    /** The connection's `close` event: it is closed, and every registry entry for it is deleted. */
    method Close(conn: ConnId)
      requires Valid() && conn in readyState
      modifies this
      ensures Valid()
      ensures readyState == old(readyState)[conn := Closed]
      ensures clients == Purge(old(clients), conn)
    {
      var pending := clients.Keys;
      ghost var before := clients;
      while pending != {}
        invariant pending <= before.Keys && readyState == old(readyState)
        invariant forall k :: k in clients <==> k in before && (k in pending || before[k] != conn)
        invariant forall k :: k in clients ==> clients[k] == before[k]
        decreases pending
      {
        var userId :| userId in pending;
        if clients[userId] == conn {
          clients := clients - {userId};
        }
        pending := pending - {userId};
      }
      readyState := readyState[conn := Closed];
    }
  }

  /**
   * The relay's guarantees for a message, stated on the registry alone: the
   * sender never receives its own message, a closed or closing connection is
   * never sent to, and a sender alone in the registry reaches nobody.
   */
  lemma {:induction false} SelfExclusion(clients: map<UserId, ConnId>, readyState: map<ConnId, ReadyState>, from: UserId)
    ensures !Reaches(clients, readyState, from, from)
    ensures forall k :: k in clients && clients[k] in readyState && readyState[clients[k]] != Open ==>
      !Reaches(clients, readyState, from, k)
    ensures clients.Keys <= {from} ==> forall k :: !Reaches(clients, readyState, from, k)
  {
  }

  /** A sender that is not registered reaches every registered key whose connection is open. */
  lemma {:induction false} UnregisteredSenderReachesAll(clients: map<UserId, ConnId>, readyState: map<ConnId, ReadyState>, from: UserId)
    requires from !in clients
    ensures forall k :: k in clients && clients[k] in readyState && readyState[clients[k]] == Open ==>
      Reaches(clients, readyState, from, k)
  {
  }

  /** Three clients: a message from the first reaches the other two and only them. */
  method ScenarioFanOut() {
    var relay := new Relay();
    relay.Accept(1);
    relay.Accept(2);
    relay.Accept(3);
    var none := relay.OnFrame(1, Login("u1"));
    none := relay.OnFrame(2, Login("u2"));
    none := relay.OnFrame(3, Login("u3"));
    assert none == [];
    var sends := relay.OnFrame(1, Message("u1", "all", "yo"));
    assert Reaches(relay.clients, relay.readyState, "u1", "u2");
    assert Reaches(relay.clients, relay.readyState, "u1", "u3");
    assert exists i :: 0 <= i < |sends| && sends[i] == Send("u2", 2, Delivery("u1", "yo"));
    assert exists i :: 0 <= i < |sends| && sends[i] == Send("u3", 3, Delivery("u1", "yo"));
    assert forall s :: s in sends ==> s.conn != 1;
  }

  /** After "u1" disconnects nothing reaches it, until a new connection logs in as "u1". */
  method ScenarioReconnect() {
    var relay := new Relay();
    relay.Accept(1);
    relay.Accept(2);
    var sends := relay.OnFrame(1, Login("u1"));
    sends := relay.OnFrame(2, Login("u2"));
    relay.Close(1);
    assert "u1" !in relay.clients;
    sends := relay.OnFrame(2, Message("u2", "u1", "ping"));
    assert forall s :: s in sends ==> s.recipient != "u1" && s.conn != 1;
    relay.Accept(4);
    sends := relay.OnFrame(4, Login("u1"));
    sends := relay.OnFrame(2, Message("u2", "u1", "ping"));
    assert Reaches(relay.clients, relay.readyState, "u2", "u1");
    assert exists i :: 0 <= i < |sends| && sends[i] == Send("u1", 4, Delivery("u2", "ping"));
  }
}
