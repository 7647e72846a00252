/** The signalling server of backend/server.js as the object it is: three maps that the
    socket handlers update in place, plus the transport rooms socket.io keeps for each
    connection. Every handler is proved to leave the fields where the matching function in
    Signaling says, and to keep the invariant of Invariants. */
module Server {
  import opened Wrappers
  import opened OrderedMaps
  import opened JsStrings
  import opened Signaling
  import Invariants

  class SignalingServer {
    var emailToSocket: map<Email, SocketId>
    var socketToEmail: map<SocketId, Email>
    /** `socketToRoomMapping`, in insertion order. */
    var socketToRoom: seq<Entry>
    /** socket.io's own record of the transport rooms of each connected socket. */
    var transport: map<SocketId, set<string>>

    /** The fields as a value of the functional model. */
    function Snapshot(): State
      reads this
    {
      State(emailToSocket, socketToEmail, socketToRoom, transport)
    }

    ghost predicate Valid()
      reads this
    {
      Invariants.Valid(Snapshot())
    }

    /** Module load: the three `new Map()` and no connection yet. */
    constructor ()
      ensures Snapshot() == Initial
      ensures Valid()
    {
      emailToSocket := map[];
      socketToEmail := map[];
      socketToRoom := [];
      transport := map[];
    }

    /** `getRoomMembers(roomId, excludeSocketId)`: one pass over `socketToRoomMapping`,
        keeping the sockets in the room, other than the excluded one, that have a truthy
        email. */
    method RoomMembers(roomId: RoomId, exclude: Option<SocketId>) returns (members: seq<Member>)
      ensures members == MembersOf(socketToRoom, socketToEmail, roomId, exclude)
      ensures forall x :: x in members <==> IsMember(socketToRoom, socketToEmail, roomId, exclude, x)
    {
      members := [];
      var i := 0;
      while i < |socketToRoom|
        invariant 0 <= i <= |socketToRoom|
        invariant members + MembersOf(socketToRoom[i..], socketToEmail, roomId, exclude)
               == MembersOf(socketToRoom, socketToEmail, roomId, exclude)
      {
        var (sid, rid) := socketToRoom[i];
        assert socketToRoom[i..][1..] == socketToRoom[i + 1..];
        if rid == roomId && sid != "" && exclude != Some(sid) {
          var s: SocketId := sid;
          if s in socketToEmail && Truthy(socketToEmail[s]) {
            members := members + [Member(s, socketToEmail[s])];
          }
        }
        i := i + 1;
      }
      assert socketToRoom[i..] == [];
    }

    /** `io.on("connection")`: socket.io puts the new socket in the room of its own id. */
    method Connect(sid: SocketId)
      requires Valid() && sid !in transport
      modifies this
      ensures Snapshot() == OnConnection(old(Snapshot()), sid)
      ensures Valid()
    {
      Invariants.ConnectionPreservesValid(Snapshot(), sid);
      transport := transport[sid := {sid}];
    }

    /** The `join-room` handler, for a connected socket. */
    method JoinRoom(sid: SocketId, roomId: RoomId, emailId: Email) returns (out: seq<Emission>)
      requires Valid() && sid in transport
      modifies this
      ensures Step(Snapshot(), out) == OnJoinRoom(old(Snapshot()), sid, roomId, emailId)
      ensures Valid()
    {
      ghost var st := Snapshot();
      Invariants.JoinRoomPreservesValid(st, sid, roomId, emailId);
      var current := RoomMembers(roomId, None);
      if |current| >= MaxRoomSize {
        out := [Emission(Direct(sid), RoomFull(roomId))];
        return;
      }
      if emailId in emailToSocket && emailToSocket[emailId] != sid {
        var stale := emailToSocket[emailId];
        socketToEmail := socketToEmail - {stale};
        socketToRoom := Remove(socketToRoom, stale);
      }
      assert Snapshot() == EvictStale(st, sid, emailId);
      emailToSocket := emailToSocket[emailId := sid];
      socketToEmail := socketToEmail[sid := emailId];
      socketToRoom := Put(socketToRoom, sid, roomId);
      transport := transport[sid := TransportRooms(Snapshot(), sid) + {roomId}];
      var others := RoomMembers(roomId, Some(sid));
      out := [
        Emission(Direct(sid), AllUsers(Emails(others))),
        Emission(RoomExcept(roomId, sid), UserJoined(emailId)),
        Emission(Direct(sid), JoinedRoom(roomId))];
    }

    /** The `call-user` handler. */
    method CallUser(sid: SocketId, offer: Blob, emailId: Email) returns (out: seq<Emission>)
      ensures out == OnCallUser(Snapshot(), sid, offer, emailId)
    {
      var fromEmail := if sid in socketToEmail then Some(socketToEmail[sid]) else None;
      if emailId !in emailToSocket {
        return [];
      }
      var target := emailToSocket[emailId];
      out := [Emission(RoomExcept(target, sid), IncomingCall(fromEmail, offer))];
    }

    /** The `call-accepted` handler. */
    method CallAccepted(sid: SocketId, emailId: Email, answer: Blob) returns (out: seq<Emission>)
      ensures out == OnCallAccepted(Snapshot(), sid, emailId, answer)
    {
      if emailId !in emailToSocket {
        return [];
      }
      var target := emailToSocket[emailId];
      out := [Emission(RoomExcept(target, sid), Outbound.CallAccepted(answer))];
    }

    /** The `ice-candidate` handler. */
    method IceCandidate(sid: SocketId, emailId: Email, candidate: Blob) returns (out: seq<Emission>)
      ensures out == OnIceCandidate(Snapshot(), sid, emailId, candidate)
    {
      if emailId !in emailToSocket {
        return [];
      }
      var target := emailToSocket[emailId];
      out := [Emission(RoomExcept(target, sid), Outbound.IceCandidate(candidate))];
    }

    /** The `send-message` handler; `time` stands for the server clock's formatted time. */
    method SendMessage(sid: SocketId, message: string, time: Blob) returns (out: seq<Emission>)
      ensures out == OnSendMessage(Snapshot(), sid, message, time)
    {
      var roomId := Get(socketToRoom, sid);
      var sender := if sid in socketToEmail then Some(socketToEmail[sid]) else None;
      if roomId.None? || !Truthy(roomId.value) || !Truthy(Trim(message)) {
        return [];
      }
      out := [Emission(RoomExcept(roomId.value, sid), ReceiveMessage(sender, message, time))];
    }

    /** The `raise-hand` handler. */
    method RaiseHand(sid: SocketId, state: Blob) returns (out: seq<Emission>)
      ensures out == OnRaiseHand(Snapshot(), sid, state)
    {
      var roomId := Get(socketToRoom, sid);
      var sender := if sid in socketToEmail then Some(socketToEmail[sid]) else None;
      if roomId.None? || !Truthy(roomId.value) {
        return [];
      }
      out := [Emission(RoomExcept(roomId.value, sid), RemoteHand(sender, state))];
    }

    /** The `disconnect` handler; socket.io drops the socket's transport rooms. */
    method Disconnect(sid: SocketId) returns (out: seq<Emission>)
      requires Valid()
      modifies this
      ensures Step(Snapshot(), out) == OnDisconnect(old(Snapshot()), sid)
      ensures Valid()
    {
      Invariants.DisconnectPreservesValid(Snapshot(), sid);
      var emailId := if sid in socketToEmail then Some(socketToEmail[sid]) else None;
      var roomId := Get(socketToRoom, sid);
      if emailId.Some? && Truthy(emailId.value) {
        emailToSocket := emailToSocket - {emailId.value};
      }
      socketToEmail := socketToEmail - {sid};
      socketToRoom := Remove(socketToRoom, sid);
      transport := transport - {sid};
      out := if roomId.Some? && Truthy(roomId.value)
             then [Emission(RoomExcept(roomId.value, sid), UserDisconnected(emailId))]
             else [];
    }
  }
}
