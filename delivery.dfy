/** Who receives what the relay and broadcast handlers emit. */
module Delivery {
  import opened Wrappers
  import opened OrderedMaps
  import opened JsStrings
  import opened Signaling
  import opened Invariants

  /** The three point-to-point relays: nothing is sent for an unregistered email;
      otherwise one event goes to the registered socket (when it is still connected and is
      not the sender), never back to the sender, carrying the payload unchanged, and only
      `incoming-call` names the sender. */
  lemma RelayDelivery(st: State, sid: SocketId, emailId: Email, payload: Blob)
    requires Valid(st)
    ensures var call, answer, ice :=
        OnCallUser(st, sid, payload, emailId), OnCallAccepted(st, sid, emailId, payload), OnIceCandidate(st, sid, emailId, payload);
      && (TargetOf(st, emailId).None? <==> call == [])
      && (TargetOf(st, emailId).None? <==> answer == [])
      && (TargetOf(st, emailId).None? <==> ice == [])
      && (TargetOf(st, emailId).Some? ==>
            && |call| == 1 && |answer| == 1 && |ice| == 1
            && call[0].event == IncomingCall(EmailOf(st, sid), payload)
            && answer[0].event == Outbound.CallAccepted(payload)
            && ice[0].event == Outbound.IceCandidate(payload)
            && call[0].to == answer[0].to == ice[0].to
            && sid !in Recipients(st.transport, call[0].to)
            && var t := TargetOf(st, emailId).value;
               t in st.transport && t != sid ==> t in Recipients(st.transport, call[0].to))
  {
  }

  /** The two room broadcasts: `raise-hand` sends nothing when the sender has no room,
      `send-message` also nothing when the message is empty or only whitespace;
      otherwise the event reaches every other socket mapped to the sender's room and
      never the sender. */
  lemma BroadcastDelivery(st: State, sid: SocketId, message: string, time: Blob, state: Blob)
    requires Valid(st)
    ensures var msg, hand := OnSendMessage(st, sid, message, time), OnRaiseHand(st, sid, state);
      && (hand == [] <==> RoomOf(st, sid) == None || RoomOf(st, sid) == Some(""))
      && (msg == [] <==> hand == [] || AllWhitespace(message))
      && (hand != [] ==>
            && |hand| == 1
            && hand[0].event == RemoteHand(EmailOf(st, sid), state)
            && sid !in Recipients(st.transport, hand[0].to)
            && forall t: SocketId :: t != sid && RoomOf(st, t) == RoomOf(st, sid) ==>
                 t in Recipients(st.transport, hand[0].to))
      && (msg != [] ==>
            msg == [Emission(hand[0].to, ReceiveMessage(EmailOf(st, sid), message, time))])
  {
    TrimEmpty(message);
    forall t: SocketId | RoomOf(st, t) == RoomOf(st, sid) && RoomOf(st, sid).Some?
      ensures t in st.transport && RoomOf(st, sid).value in st.transport[t]
    {
      assert (t, RoomOf(st, t).value) in st.socketToRoom;
    }
  }

  /** The transport room is never left: a socket evicted by a newer join under its email
      loses its email and room entries but still receives what is broadcast to its old
      room. */
  lemma EvictedSocketStillListens(st: State, sid: SocketId, roomId: RoomId, emailId: Email, other: SocketId)
    requires Valid(st) && sid in st.transport
    requires Count(st, roomId) < MaxRoomSize
    requires TargetOf(st, emailId).Some? && TargetOf(st, emailId).value != sid
    requires RoomOf(st, TargetOf(st, emailId).value).Some?
    requires other != TargetOf(st, emailId).value
    ensures var stale, st' := TargetOf(st, emailId).value, OnJoinRoom(st, sid, roomId, emailId).st;
      && EmailOf(st', stale) == None && RoomOf(st', stale) == None
      && stale in Recipients(st'.transport, RoomExcept(RoomOf(st, stale).value, other))
  {
    var stale := TargetOf(st, emailId).value;
    var room := RoomOf(st, stale).value;
    JoinRoomRegisters(st, sid, roomId, emailId);
    assert (stale, room) in st.socketToRoom;
    assert stale in st.transport && room in st.transport[stale];
    var st' := OnJoinRoom(st, sid, roomId, emailId).st;
    assert st'.transport == st.transport[sid := TransportRooms(st, sid) + {roomId}];
    assert st'.transport[stale] == st.transport[stale];
  }
}
