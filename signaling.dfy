/** The signalling server's bookkeeping (backend/server.js) as values: the three
    in-memory maps, the transport rooms socket.io keeps for each connection, and one
    function per event handler giving the next state and the events sent out. The class
    in Server updates the same state in place and is proved against these functions. */
module Signaling {
  import opened Wrappers
  import opened OrderedMaps
  import opened JsStrings

  /** A socket.io connection id; socket.io never hands out an empty one. */
  type SocketId = s: string | s != "" witness "s"
  type Email = string
  type RoomId = string
  /** A payload the server passes on without looking inside it: an SDP offer or answer,
      an ICE candidate, the raised-hand value, the formatted time of a chat message. */
  type Blob = string

  /** `MAX_ROOM_SIZE`. */
  const MaxRoomSize: nat := 2

  datatype State = State(
    emailToSocket: map<Email, SocketId>,
    socketToEmail: map<SocketId, Email>,
    /** `socketToRoomMapping`, in insertion order: socket id to room id. */
    socketToRoom: seq<Entry>,
    /** For each connected socket, the transport rooms socket.io has it in: its own id
        from the moment it connects, and every room it has joined since. */
    transport: map<SocketId, set<string>>)

  const Initial := State(map[], map[], [], map[])

  /** Where a socket.io emit goes: `socket.emit` reaches the socket itself;
      `socket.to(name)` and `socket.broadcast.to(name)` reach every socket in the
      transport room `name` except the sender. */
  datatype Target = Direct(socket: SocketId) | RoomExcept(room: string, sender: SocketId)

  /** The outbound events, one constructor per event name, with their payloads. */
  datatype Outbound =
    | RoomFull(roomId: RoomId)
    | AllUsers(users: seq<Email>)
    | JoinedRoom(roomId: RoomId)
    | UserJoined(emailId: Email)
    | IncomingCall(from: Option<Email>, offer: Blob)
    | CallAccepted(answer: Blob)
    | IceCandidate(candidate: Blob)
    | ReceiveMessage(sender: Option<Email>, message: string, time: Blob)
    | RemoteHand(sender: Option<Email>, state: Blob)
    | UserDisconnected(email: Option<Email>)

  datatype Emission = Emission(to: Target, event: Outbound)

  /** The outcome of one handler run. */
  datatype Step = Step(st: State, out: seq<Emission>)

  /** The sockets an emission is delivered to. */
  function Recipients(transport: map<SocketId, set<string>>, to: Target): set<SocketId>
  {
    match to
    case Direct(s) => {s}
    case RoomExcept(room, sender) => set t | t in transport && room in transport[t] && t != sender
  }

  function EmailOf(st: State, sid: SocketId): Option<Email>
  {
    if sid in st.socketToEmail then Some(st.socketToEmail[sid]) else None
  }

  function RoomOf(st: State, sid: SocketId): Option<RoomId>
  {
    Get(st.socketToRoom, sid)
  }

  function TransportRooms(st: State, sid: SocketId): set<string>
  {
    if sid in st.transport then st.transport[sid] else {}
  }

  datatype Member = Member(socketId: string, emailId: Email)

  /** A room member as `getRoomMembers` reports it: the socket is mapped to `roomId`, has
      a truthy email, and is not the excluded socket. */
  predicate IsMember(entries: seq<Entry>, emails: map<SocketId, Email>, roomId: RoomId,
                     exclude: Option<SocketId>, x: Member)
  {
    && (x.socketId, roomId) in entries
    && x.socketId != ""
    && x.socketId in emails
    && emails[x.socketId] == x.emailId
    && Truthy(x.emailId)
    && exclude != Some(x.socketId)
  }

  /** `getRoomMembers(roomId, excludeSocketId)`: a scan of `socketToRoomMapping` in
      iteration order. */
  function MembersOf(entries: seq<Entry>, emails: map<SocketId, Email>, roomId: RoomId,
                     exclude: Option<SocketId>): (r: seq<Member>)
    ensures forall x :: x in r <==> IsMember(entries, emails, roomId, exclude, x)
  {
    if entries == [] then []
    else
      var (sid, rid) := entries[0];
      var rest := MembersOf(entries[1..], emails, roomId, exclude);
      assert forall x: Member :: (x.socketId, roomId) in entries <==>
        (x.socketId, roomId) == entries[0] || (x.socketId, roomId) in entries[1..];
      if rid == roomId && sid != "" && exclude != Some(sid) && sid in emails && Truthy(emails[sid])
      then [Member(sid, emails[sid])] + rest
      else rest
  }

  function Emails(ms: seq<Member>): (r: seq<Email>)
    ensures |r| == |ms| && forall i :: 0 <= i < |ms| ==> r[i] == ms[i].emailId
  {
    if ms == [] then [] else [ms[0].emailId] + Emails(ms[1..])
  }

  // ---- handlers ----

  /** `io.on("connection")`: socket.io puts the new socket in the room named by its id. */
  function OnConnection(st: State, sid: SocketId): State
  {
    st.(transport := st.transport[sid := {sid}])
  }

  /** The `join-room` handler. */
  function OnJoinRoom(st: State, sid: SocketId, roomId: RoomId, emailId: Email): (r: Step)
    // a full room: only `room-full` to the requester, nothing changes
    ensures |MembersOf(st.socketToRoom, st.socketToEmail, roomId, None)| >= MaxRoomSize ==>
      r == Step(st, [Emission(Direct(sid), RoomFull(roomId))])
    // otherwise: the three events, in order, and the joiner's transport rooms grow
    ensures |MembersOf(st.socketToRoom, st.socketToEmail, roomId, None)| < MaxRoomSize ==>
      && |r.out| == 3
      && r.out[0].to == Direct(sid) && r.out[0].event.AllUsers?
      && r.out[1] == Emission(RoomExcept(roomId, sid), UserJoined(emailId))
      && r.out[2] == Emission(Direct(sid), JoinedRoom(roomId))
      && r.st.emailToSocket == st.emailToSocket[emailId := sid]
      && r.st.transport == st.transport[sid := TransportRooms(st, sid) + {roomId}]
  {
    var current := MembersOf(st.socketToRoom, st.socketToEmail, roomId, None);
    if |current| >= MaxRoomSize then
      Step(st, [Emission(Direct(sid), RoomFull(roomId))])
    else
      var st2 := Register(EvictStale(st, sid, emailId), sid, roomId, emailId);
      var existing := Emails(MembersOf(st2.socketToRoom, st2.socketToEmail, roomId, Some(sid)));
      Step(st2, [
        Emission(Direct(sid), AllUsers(existing)),
        Emission(RoomExcept(roomId, sid), UserJoined(emailId)),
        Emission(Direct(sid), JoinedRoom(roomId))])
  }

  /** The eviction step of `join-room`: when `emailId` is registered to another socket,
      that socket loses its `socketToEmail` and `socketToRoom` entries (and nothing else). */
  function EvictStale(st: State, sid: SocketId, emailId: Email): State
  {
    if emailId in st.emailToSocket && st.emailToSocket[emailId] != sid then
      var stale := st.emailToSocket[emailId];
      st.(socketToEmail := st.socketToEmail - {stale}, socketToRoom := Remove(st.socketToRoom, stale))
    else st
  }

  /** The registration step of `join-room`: the three `set`s and `socket.join`. */
  function Register(st: State, sid: SocketId, roomId: RoomId, emailId: Email): State
  {
    State(
      st.emailToSocket[emailId := sid],
      st.socketToEmail[sid := emailId],
      Put(st.socketToRoom, sid, roomId),
      st.transport[sid := TransportRooms(st, sid) + {roomId}])
  }

  /** The target socket a relay looks up, when the email is registered. */
  function TargetOf(st: State, emailId: Email): Option<SocketId>
  {
    if emailId in st.emailToSocket then Some(st.emailToSocket[emailId]) else None
  }

  /** The `call-user` handler: the offer goes to the target with the sender's email. */
  function OnCallUser(st: State, sid: SocketId, offer: Blob, emailId: Email): seq<Emission>
  {
    match TargetOf(st, emailId)
    case None => []
    case Some(target) => [Emission(RoomExcept(target, sid), IncomingCall(EmailOf(st, sid), offer))]
  }

  /** The `call-accepted` handler. */
  function OnCallAccepted(st: State, sid: SocketId, emailId: Email, answer: Blob): seq<Emission>
  {
    match TargetOf(st, emailId)
    case None => []
    case Some(target) => [Emission(RoomExcept(target, sid), Outbound.CallAccepted(answer))]
  }

  /** The `ice-candidate` handler. */
  function OnIceCandidate(st: State, sid: SocketId, emailId: Email, candidate: Blob): seq<Emission>
  {
    match TargetOf(st, emailId)
    case None => []
    case Some(target) => [Emission(RoomExcept(target, sid), Outbound.IceCandidate(candidate))]
  }

  /** The `send-message` handler; `time` is the server clock's formatted time. */
  function OnSendMessage(st: State, sid: SocketId, message: string, time: Blob): seq<Emission>
  {
    var roomId := RoomOf(st, sid);
    var sender := EmailOf(st, sid);
    if roomId.None? || !Truthy(roomId.value) || !Truthy(Trim(message)) then []
    else [Emission(RoomExcept(roomId.value, sid), ReceiveMessage(sender, message, time))]
  }

  /** The `raise-hand` handler. */
  function OnRaiseHand(st: State, sid: SocketId, state: Blob): seq<Emission>
  {
    var roomId := RoomOf(st, sid);
    var sender := EmailOf(st, sid);
    if roomId.None? || !Truthy(roomId.value) then []
    else [Emission(RoomExcept(roomId.value, sid), RemoteHand(sender, state))]
  }

  /** The `disconnect` handler; socket.io has already taken the socket out of its rooms. */
  function OnDisconnect(st: State, sid: SocketId): (r: Step)
    ensures sid !in r.st.socketToEmail && sid !in r.st.transport
    ensures r.st.emailToSocket == match EmailOf(st, sid)
      case Some(e) => if Truthy(e) then st.emailToSocket - {e} else st.emailToSocket
      case None => st.emailToSocket
  {
    var emailId := EmailOf(st, sid);
    var roomId := RoomOf(st, sid);
    var e2s := if emailId.Some? && Truthy(emailId.value) then st.emailToSocket - {emailId.value}
               else st.emailToSocket;
    var st' := State(e2s, st.socketToEmail - {sid}, Remove(st.socketToRoom, sid), st.transport - {sid});
    Step(st', if roomId.Some? && Truthy(roomId.value)
              then [Emission(RoomExcept(roomId.value, sid), UserDisconnected(emailId))]
              else [])
  }
}
