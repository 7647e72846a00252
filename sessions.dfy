/** The server as a whole: the inbound events socket.io delivers, dispatched to their
    handlers, and what holds after any sequence of them. */
module Sessions {
  import opened Wrappers
  import opened OrderedMaps
  import opened JsStrings
  import opened Signaling
  import opened Invariants

  /** An inbound event, tagged with the socket it arrives on. */
  datatype Inbound =
    | Connection(socket: SocketId)
    | JoinRoom(socket: SocketId, roomId: RoomId, emailId: Email)
    | CallUser(socket: SocketId, offer: Blob, emailId: Email)
    | CallAccepted(socket: SocketId, emailId: Email, answer: Blob)
    | IceCandidate(socket: SocketId, emailId: Email, candidate: Blob)
    | SendMessage(socket: SocketId, message: string, time: Blob)
    | RaiseHand(socket: SocketId, state: Blob)
    | Disconnect(socket: SocketId)

  /** socket.io assigns every connection a fresh id and delivers a socket's events only
      while it is connected: an event outside that discipline changes nothing. */
  function Dispatch(st: State, ev: Inbound): Step
  {
    if ev.Connection? then
      if ev.socket in st.transport then Step(st, []) else Step(OnConnection(st, ev.socket), [])
    else if ev.socket !in st.transport then Step(st, [])
    else
      match ev
      case Connection(_) => Step(st, [])
      case JoinRoom(s, roomId, emailId) => OnJoinRoom(st, s, roomId, emailId)
      case CallUser(s, offer, emailId) => Step(st, OnCallUser(st, s, offer, emailId))
      case CallAccepted(s, emailId, answer) => Step(st, OnCallAccepted(st, s, emailId, answer))
      case IceCandidate(s, emailId, candidate) => Step(st, OnIceCandidate(st, s, emailId, candidate))
      case SendMessage(s, message, time) => Step(st, OnSendMessage(st, s, message, time))
      case RaiseHand(s, state) => Step(st, OnRaiseHand(st, s, state))
      case Disconnect(s) => OnDisconnect(st, s)
  }

  /** The events handled one after the other, and everything they sent. */
  function Run(st: State, evs: seq<Inbound>): Step
    decreases |evs|
  {
    if evs == [] then Step(st, [])
    else
      var first := Dispatch(st, evs[0]);
      var rest := Run(first.st, evs[1..]);
      Step(rest.st, first.out + rest.out)
  }

  lemma DispatchPreservesValid(st: State, ev: Inbound)
    requires Valid(st)
    ensures Valid(Dispatch(st, ev).st)
  {
    if ev.Connection? {
      if ev.socket !in st.transport { ConnectionPreservesValid(st, ev.socket); }
    } else if ev.socket in st.transport {
      match ev
      case JoinRoom(s, roomId, emailId) => JoinRoomPreservesValid(st, s, roomId, emailId);
      case Disconnect(s) => DisconnectPreservesValid(st, s);
      case _ =>
    }
  }

  lemma {:induction false} RunPreservesValid(st: State, evs: seq<Inbound>)
    requires Valid(st)
    ensures Valid(Run(st, evs).st)
    decreases |evs|
  {
    if evs != [] {
      DispatchPreservesValid(st, evs[0]);
      RunPreservesValid(Dispatch(st, evs[0]).st, evs[1..]);
    }
  }

  /** After any sequence of events no room has more than `MAX_ROOM_SIZE` members as
      `getRoomMembers` counts them, every socket with an email is the one registered for
      it, and the two socket maps have the same keys. */
  lemma CapacityAlwaysHolds(evs: seq<Inbound>)
    ensures var st := Run(Initial, evs).st;
      && (forall roomId :: |MembersOf(st.socketToRoom, st.socketToEmail, roomId, None)| <= MaxRoomSize)
      && (forall s :: s in st.socketToEmail ==> TargetOf(st, st.socketToEmail[s]) == Some(s))
      && (forall s: SocketId :: s in st.socketToEmail <==> RoomOf(st, s).Some?)
  {
    RunPreservesValid(Initial, evs);
    var st := Run(Initial, evs).st;
    forall roomId ensures |MembersOf(st.socketToRoom, st.socketToEmail, roomId, None)| <= MaxRoomSize {
      assert Count(st, roomId) <= MaxRoomSize;
    }
  }

  // ---- occupancy of socketToRoomMapping ----

  /** The sockets `socketToRoomMapping` maps to `roomId`, whatever their email. */
  function Occupants(st: State, roomId: RoomId): set<string>
  {
    set i | 0 <= i < |st.socketToRoom| && st.socketToRoom[i].1 == roomId :: st.socketToRoom[i].0
  }

  ghost predicate EmailsNonEmpty(st: State)
  {
    forall s :: s in st.socketToEmail ==> Truthy(st.socketToEmail[s])
  }

  /** With no empty email registered, every occupant is counted by `getRoomMembers`. */
  lemma OccupantsAreMembers(st: State, roomId: RoomId)
    requires Valid(st) && EmailsNonEmpty(st)
    ensures |Occupants(st, roomId)| <= MaxRoomSize
  {
    var ms := MembersOf(st.socketToRoom, st.socketToEmail, roomId, None);
    forall x | x in Occupants(st, roomId) ensures x in SocketsOf(ms) {
      var i :| 0 <= i < |st.socketToRoom| && st.socketToRoom[i] == (x, roomId);
      assert st.socketToRoom[i] in st.socketToRoom;
      var s: SocketId := x;
      assert s in Keys(st.socketToRoom);
      EntryIffGet(st.socketToRoom, s, roomId);
      MemberSocket(st.socketToRoom, st.socketToEmail, roomId, s);
    }
    MemberCount(st.socketToRoom, st.socketToEmail, roomId, None);
    CardMono(Occupants(st, roomId), SocketsOf(ms));
    assert Count(st, roomId) <= MaxRoomSize;
  }

  predicate JoinsWithEmail(evs: seq<Inbound>)
  {
    forall i :: 0 <= i < |evs| && evs[i].JoinRoom? ==> Truthy(evs[i].emailId)
  }

  lemma {:induction false} RunKeepsEmailsNonEmpty(st: State, evs: seq<Inbound>)
    requires EmailsNonEmpty(st) && JoinsWithEmail(evs)
    ensures EmailsNonEmpty(Run(st, evs).st)
    decreases |evs|
  {
    if evs != [] {
      assert evs[0].JoinRoom? ==> Truthy(evs[0].emailId);
      var st1 := Dispatch(st, evs[0]).st;
      assert EmailsNonEmpty(st1);
      assert JoinsWithEmail(evs[1..]) by {
        forall i | 0 <= i < |evs[1..]| && evs[1..][i].JoinRoom? ensures Truthy(evs[1..][i].emailId) {
          assert evs[1..][i] == evs[i + 1];
        }
      }
      RunKeepsEmailsNonEmpty(st1, evs[1..]);
    }
  }

  /** When every join carries a non-empty email (the client refuses to send an empty
      one), no room ever holds more than `MAX_ROOM_SIZE` sockets. */
  lemma RoomSizeBoundedWithEmails(evs: seq<Inbound>, roomId: RoomId)
    requires JoinsWithEmail(evs)
    ensures |Occupants(Run(Initial, evs).st, roomId)| <= MaxRoomSize
  {
    RunPreservesValid(Initial, evs);
    RunKeepsEmailsNonEmpty(Initial, evs);
    OccupantsAreMembers(Run(Initial, evs).st, roomId);
  }

  // ---- a room with three occupants ----

  lemma RunCons(st: State, ev: Inbound, evs: seq<Inbound>)
    ensures Run(st, [ev] + evs).st == Run(Dispatch(st, ev).st, evs).st
  {
    assert ([ev] + evs)[1..] == evs;
  }

  /** Sockets "a", "b" and "c" connected, nobody in a room. */
  const ThreeConnected := State(map[], map[], [], map["a" := {"a"}, "b" := {"b"}, "c" := {"c"}])
  /** Then "a" joined room "r" with the empty email. */
  const AfterEmptyJoin := State(map["" := "a"], map["a" := ""], [("a", "r")], map["a" := {"a", "r"}, "b" := {"b"}, "c" := {"c"}])
  /** Then "b" joined "r" with email "b": "a" was not counted, so "r" had room. */
  const AfterSecondJoin := State(map["" := "a", "b" := "b"], map["a" := "", "b" := "b"], [("a", "r"), ("b", "r")],
                    map["a" := {"a", "r"}, "b" := {"b", "r"}, "c" := {"c"}])

  lemma Connects(rest: seq<Inbound>)
    ensures Run(Initial, [Connection("a"), Connection("b"), Connection("c")] + rest).st == Run(ThreeConnected, rest).st
  {
    var s1 := State(map[], map[], [], map["a" := {"a"}]);
    var s2 := State(map[], map[], [], map["a" := {"a"}, "b" := {"b"}]);
    assert Dispatch(Initial, Connection("a")).st == s1;
    assert Dispatch(s1, Connection("b")).st == s2;
    assert Dispatch(s2, Connection("c")).st == ThreeConnected;
    assert [Connection("a"), Connection("b"), Connection("c")] + rest
      == [Connection("a")] + ([Connection("b")] + ([Connection("c")] + rest));
    RunCons(Initial, Connection("a"), [Connection("b")] + ([Connection("c")] + rest));
    RunCons(s1, Connection("b"), [Connection("c")] + rest);
    RunCons(s2, Connection("c"), rest);
  }

  lemma FirstJoin()
    ensures Dispatch(ThreeConnected, JoinRoom("a", "r", "")).st == AfterEmptyJoin
  {
    var j := JoinRoom("a", "r", "");
    assert MembersOf([], map[], "r", None) == [];
    assert EvictStale(ThreeConnected, "a", "") == ThreeConnected;
    assert Keys([]) == {};
    assert Put([], "a", "r") == [("a", "r")];
    assert TransportRooms(ThreeConnected, "a") + {"r"} == {"a", "r"};
    assert Put(ThreeConnected.socketToRoom, "a", "r") == AfterEmptyJoin.socketToRoom;
    assert ThreeConnected.transport["a" := {"a", "r"}] == AfterEmptyJoin.transport;
    assert ThreeConnected.emailToSocket["" := "a"] == AfterEmptyJoin.emailToSocket;
    assert ThreeConnected.socketToEmail["a" := ""] == AfterEmptyJoin.socketToEmail;
    assert Register(ThreeConnected, "a", "r", "") == AfterEmptyJoin;
    assert OnJoinRoom(ThreeConnected, "a", "r", "").st == AfterEmptyJoin;
  }

  lemma SecondJoin()
    ensures Dispatch(AfterEmptyJoin, JoinRoom("b", "r", "b")).st == AfterSecondJoin
  {
    assert AfterEmptyJoin.socketToRoom[1..] == [];
    assert MembersOf(AfterEmptyJoin.socketToRoom, AfterEmptyJoin.socketToEmail, "r", None) == [];
    assert Keys(AfterEmptyJoin.socketToRoom) == {"a"};
    assert EvictStale(AfterEmptyJoin, "b", "b") == AfterEmptyJoin;
    assert Put(AfterEmptyJoin.socketToRoom, "b", "r") == [("a", "r"), ("b", "r")];
    assert TransportRooms(AfterEmptyJoin, "b") + {"r"} == {"b", "r"};
    assert AfterEmptyJoin.transport["b" := {"b", "r"}] == AfterSecondJoin.transport;
    assert AfterEmptyJoin.emailToSocket["b" := "b"] == AfterSecondJoin.emailToSocket;
    assert AfterEmptyJoin.socketToEmail["b" := "b"] == AfterSecondJoin.socketToEmail;
    assert Register(AfterEmptyJoin, "b", "r", "b") == AfterSecondJoin;
    assert OnJoinRoom(AfterEmptyJoin, "b", "r", "b").st == AfterSecondJoin;
  }

  lemma ThirdJoin()
    ensures Dispatch(AfterSecondJoin, JoinRoom("c", "r", "c")).st.socketToRoom == [("a", "r"), ("b", "r"), ("c", "r")]
  {
    assert AfterSecondJoin.socketToRoom[1..] == [("b", "r")];
    assert [("b", "r")][1..] == [];
    assert MembersOf([("b", "r")], AfterSecondJoin.socketToEmail, "r", None) == [Member("b", "b")];
    assert MembersOf(AfterSecondJoin.socketToRoom, AfterSecondJoin.socketToEmail, "r", None) == [Member("b", "b")];
    assert Keys(AfterSecondJoin.socketToRoom) == {"a", "b"};
  }

  lemma Joins()
    ensures Run(ThreeConnected, [JoinRoom("a", "r", ""), JoinRoom("b", "r", "b"), JoinRoom("c", "r", "c")]).st.socketToRoom
      == [("a", "r"), ("b", "r"), ("c", "r")]
  {
    var j1, j2, j3 := JoinRoom("a", "r", ""), JoinRoom("b", "r", "b"), JoinRoom("c", "r", "c");
    FirstJoin();
    SecondJoin();
    ThirdJoin();
    RunCons(ThreeConnected, j1, [j2, j3]);
    RunCons(AfterEmptyJoin, j2, [j3]);
    RunCons(AfterSecondJoin, j3, []);
  }

  lemma ThreeOccupants(st: State)
    requires st.socketToRoom == [("a", "r"), ("b", "r"), ("c", "r")]
    ensures |Occupants(st, "r")| >= 3
  {
    assert {"a", "b", "c"} <= Occupants(st, "r") by {
      assert st.socketToRoom[0] == ("a", "r");
      assert st.socketToRoom[1] == ("b", "r");
      assert st.socketToRoom[2] == ("c", "r");
    }
    CardMono({"a", "b", "c"}, Occupants(st, "r"));
  }

  /** `getRoomMembers` does not count a socket with the empty email, so a client that
      joins with one takes no place: here three sockets end up in room "r". */
  lemma EmptyEmailOverfillsRoom()
    ensures |Occupants(Run(Initial, [Connection("a"), Connection("b"), Connection("c"),
        JoinRoom("a", "r", ""), JoinRoom("b", "r", "b"), JoinRoom("c", "r", "c")]).st, "r")| >= 3
  {
    var joins := [JoinRoom("a", "r", ""), JoinRoom("b", "r", "b"), JoinRoom("c", "r", "c")];
    Connects(joins);
    assert [Connection("a"), Connection("b"), Connection("c")] + joins
      == [Connection("a"), Connection("b"), Connection("c"),
          JoinRoom("a", "r", ""), JoinRoom("b", "r", "b"), JoinRoom("c", "r", "c")];
    Joins();
    ThreeOccupants(Run(ThreeConnected, joins).st);
  }
}
