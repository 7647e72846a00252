/** The invariants the signalling server's handlers keep, and the properties of single
    handler runs that rest on them. */
module Invariants {
  import opened Wrappers
  import opened OrderedMaps
  import opened JsStrings
  import opened Signaling

  // ---- counting members ----

  function SocketsOf(ms: seq<Member>): set<string>
  {
    set i | 0 <= i < |ms| :: ms[i].socketId
  }

  predicate DistinctSockets(ms: seq<Member>)
  {
    forall i, j :: 0 <= i < j < |ms| ==> ms[i].socketId != ms[j].socketId
  }

  lemma {:induction false} DistinctCount(ms: seq<Member>)
    requires DistinctSockets(ms)
    ensures |SocketsOf(ms)| == |ms|
  {
    if ms != [] {
      var t := ms[1..];
      DistinctCount(t);
      assert SocketsOf(ms) == {ms[0].socketId} + SocketsOf(t) by {
        forall x | x in SocketsOf(ms) ensures x in {ms[0].socketId} + SocketsOf(t) {
          var i :| 0 <= i < |ms| && ms[i].socketId == x;
          if i > 0 { assert t[i - 1].socketId == x; }
        }
      }
      assert ms[0].socketId !in SocketsOf(t) by {
        forall i | 0 <= i < |t| ensures t[i].socketId != ms[0].socketId {
          assert t[i] == ms[i + 1];
        }
      }
    }
  }

  /** A socket appears at most once in `getRoomMembers`. */
  lemma {:induction false} MembersDistinct(entries: seq<Entry>, emails: map<SocketId, Email>,
                                           roomId: RoomId, exclude: Option<SocketId>)
    requires DistinctKeys(entries)
    ensures DistinctSockets(MembersOf(entries, emails, roomId, exclude))
  {
    if entries != [] {
      var t := entries[1..];
      MembersDistinct(t, emails, roomId, exclude);
      var rest := MembersOf(t, emails, roomId, exclude);
      forall x | x in rest ensures x.socketId != entries[0].0 {
        var i :| 0 <= i < |t| && t[i] == (x.socketId, roomId);
        assert entries[i + 1] == t[i];
      }
    }
  }

  /** The number `getRoomMembers` reports is the number of distinct member sockets. */
  lemma MemberCount(entries: seq<Entry>, emails: map<SocketId, Email>, roomId: RoomId,
                    exclude: Option<SocketId>)
    requires DistinctKeys(entries)
    ensures |MembersOf(entries, emails, roomId, exclude)| == |SocketsOf(MembersOf(entries, emails, roomId, exclude))|
  {
    MembersDistinct(entries, emails, roomId, exclude);
    DistinctCount(MembersOf(entries, emails, roomId, exclude));
  }

  /** Without repeated keys, a key of the tail is not the head's, and its first index
      is one past its index in the tail. */
  lemma KeyInTail(entries: seq<Entry>, k: string)
    requires DistinctKeys(entries) && entries != [] && k in Keys(entries[1..])
    ensures k in Keys(entries) && k != entries[0].0 && IndexOf(entries, k) == 1 + IndexOf(entries[1..], k)
  {
    var i :| 0 <= i < |entries[1..]| && entries[1..][i].0 == k;
    assert entries[i + 1].0 == k;
  }

  /** The members' sockets occur in `entries` in the order the members are listed. */
  predicate InIterationOrder(entries: seq<Entry>, ms: seq<Member>)
  {
    forall i, j :: 0 <= i < j < |ms| ==>
      ms[i].socketId in Keys(entries) && ms[j].socketId in Keys(entries) &&
      IndexOf(entries, ms[i].socketId) < IndexOf(entries, ms[j].socketId)
  }

  lemma OrderShift(entries: seq<Entry>, ms: seq<Member>)
    requires DistinctKeys(entries) && entries != []
    requires forall x :: x in ms ==> x.socketId in Keys(entries[1..])
    requires InIterationOrder(entries[1..], ms)
    ensures InIterationOrder(entries, ms)
    ensures forall x :: x in ms ==> x.socketId in Keys(entries) && IndexOf(entries, x.socketId) >= 1
  {
    forall x | x in ms ensures x.socketId in Keys(entries) && IndexOf(entries, x.socketId) == 1 + IndexOf(entries[1..], x.socketId) {
      KeyInTail(entries, x.socketId);
    }
    forall i, j | 0 <= i < j < |ms|
      ensures ms[i].socketId in Keys(entries) && ms[j].socketId in Keys(entries) &&
              IndexOf(entries, ms[i].socketId) < IndexOf(entries, ms[j].socketId)
    {
      assert ms[i] in ms && ms[j] in ms;
    }
  }

  lemma OrderCons(entries: seq<Entry>, m: Member, ms: seq<Member>)
    requires DistinctKeys(entries) && entries != [] && m.socketId == entries[0].0
    requires InIterationOrder(entries, ms)
    requires forall x :: x in ms ==> x.socketId in Keys(entries) && IndexOf(entries, x.socketId) >= 1
    ensures InIterationOrder(entries, [m] + ms)
  {
    var r := [m] + ms;
    assert m.socketId in Keys(entries);
    forall i, j | 0 <= i < j < |r|
      ensures r[i].socketId in Keys(entries) && r[j].socketId in Keys(entries) &&
              IndexOf(entries, r[i].socketId) < IndexOf(entries, r[j].socketId)
    {
      assert r[j] == ms[j - 1] && ms[j - 1] in ms;
      if i > 0 {
        assert r[i] == ms[i - 1];
      }
    }
  }

  /** `getRoomMembers` lists the members in the iteration order of
      `socketToRoomMapping`. */
  lemma {:induction false} MembersInOrder(entries: seq<Entry>, emails: map<SocketId, Email>,
                                          roomId: RoomId, exclude: Option<SocketId>)
    requires DistinctKeys(entries)
    ensures InIterationOrder(entries, MembersOf(entries, emails, roomId, exclude))
  {
    if entries != [] {
      var rest := entries[1..];
      var rr := MembersOf(rest, emails, roomId, exclude);
      MembersInOrder(rest, emails, roomId, exclude);
      forall x | x in rr ensures x.socketId in Keys(rest) {
        var i :| 0 <= i < |rest| && rest[i] == (x.socketId, roomId);
        assert rest[i].0 == x.socketId;
      }
      OrderShift(entries, rr);
      var r := MembersOf(entries, emails, roomId, exclude);
      if r != rr {
        OrderCons(entries, Member(entries[0].0, emails[entries[0].0]), rr);
      }
    }
  }

  /** A counted socket, as a set element. */
  lemma MemberSocket(e: seq<Entry>, m: map<SocketId, Email>, roomId: RoomId, s: SocketId)
    requires DistinctKeys(e)
    requires Get(e, s) == Some(roomId) && s in m && Truthy(m[s])
    ensures s in SocketsOf(MembersOf(e, m, roomId, None))
  {
    EntryIffGet(e, s, roomId);
    var a := MembersOf(e, m, roomId, None);
    assert IsMember(e, m, roomId, None, Member(s, m[s]));
    var k :| 0 <= k < |a| && a[k] == Member(s, m[s]);
  }

  /** A member socket, read back from the maps. */
  lemma SocketMember(e: seq<Entry>, m: map<SocketId, Email>, roomId: RoomId, ex: Option<SocketId>, x: string)
    requires DistinctKeys(e)
    requires x in SocketsOf(MembersOf(e, m, roomId, ex))
    ensures x != "" && x in m && Get(e, x) == Some(roomId) && Truthy(m[x]) && ex != Some(x)
  {
    var b := MembersOf(e, m, roomId, ex);
    var i :| 0 <= i < |b| && b[i].socketId == x;
    assert b[i] in b;
    assert IsMember(e, m, roomId, ex, b[i]);
    EntryIffGet(e, x, roomId);
  }

  /** If every counted socket of the new maps was a counted socket of the old maps or is
      in `extra`, the new member sockets are among the old ones and `extra`. */
  lemma MembersWithin(e: seq<Entry>, m: map<SocketId, Email>, e': seq<Entry>, m': map<SocketId, Email>,
                      roomId: RoomId, ex': Option<SocketId>, extra: set<string>)
    requires DistinctKeys(e) && DistinctKeys(e')
    requires forall s: SocketId :: Get(e', s) == Some(roomId) && s in m' && Truthy(m'[s]) && s !in extra && ex' != Some(s) ==>
      Get(e, s) == Some(roomId) && s in m && Truthy(m[s])
    ensures SocketsOf(MembersOf(e', m', roomId, ex')) <= SocketsOf(MembersOf(e, m, roomId, None)) + extra
  {
    forall x | x in SocketsOf(MembersOf(e', m', roomId, ex')) && x !in extra
      ensures x in SocketsOf(MembersOf(e, m, roomId, None))
    {
      SocketMember(e', m', roomId, ex', x);
      MemberSocket(e, m, roomId, x);
    }
  }

  lemma CardMono(a: set<string>, b: set<string>)
    requires a <= b
    ensures |a| <= |b|
  {
    assert b == a + (b - a);
  }

  // ---- the invariant ----

  function Count(st: State, roomId: RoomId): nat
  {
    |MembersOf(st.socketToRoom, st.socketToEmail, roomId, None)|
  }

  /** `socketToEmailMapping` and `socketToRoomMapping` have the same keys. */
  ghost predicate SameKeys(st: State)
  {
    forall s: SocketId :: s in st.socketToEmail <==> s in Keys(st.socketToRoom)
  }

  /** Every socket with an email is the socket registered for that email. */
  ghost predicate EmailsPointBack(st: State)
  {
    forall s :: s in st.socketToEmail ==> TargetOf(st, st.socketToEmail[s]) == Some(s)
  }

  /** No room has more than `MAX_ROOM_SIZE` members as `getRoomMembers` counts them. */
  ghost predicate WithinCapacity(st: State)
  {
    forall roomId :: Count(st, roomId) <= MaxRoomSize
  }

  /** Every connected socket is in its own transport room, and every socket with a room
      is connected and in that room's transport room. */
  ghost predicate TransportConsistent(st: State)
  {
    && (forall s :: s in st.transport ==> s in st.transport[s])
    && (forall p :: p in st.socketToRoom ==>
          p.0 != "" && p.0 in st.transport && p.1 in st.transport[p.0])
  }

  ghost predicate Valid(st: State)
  {
    && DistinctKeys(st.socketToRoom)
    && SameKeys(st)
    && EmailsPointBack(st)
    && WithinCapacity(st)
    && TransportConsistent(st)
  }

  // ---- join-room ----

  lemma EvictCount(st: State, sid: SocketId, emailId: Email, r: RoomId)
    requires DistinctKeys(st.socketToRoom)
    ensures Count(EvictStale(st, sid, emailId), r) <= Count(st, r)
  {
    var st1 := EvictStale(st, sid, emailId);
    var e, e1 := st.socketToRoom, st1.socketToRoom;
    var m, m1 := st.socketToEmail, st1.socketToEmail;
    if emailId in st.emailToSocket && st.emailToSocket[emailId] != sid {
      RemoveSpec(e, st.emailToSocket[emailId]);
      forall s: SocketId | Get(e1, s) == Some(r) && s in m1 && Truthy(m1[s]) && None != Some(s)
        ensures Get(e, s) == Some(r) && s in m && Truthy(m[s])
      {
      }
      MembersWithin(e, m, e1, m1, r, None, {});
      MemberCount(e, m, r, None);
      MemberCount(e1, m1, r, None);
      CardMono(SocketsOf(MembersOf(e1, m1, r, None)), SocketsOf(MembersOf(e, m, r, None)));
    }
  }

  /** Eviction keeps the invariant, never adds a member, and leaves no socket other than
      the joiner holding the email. */
  lemma EvictStaleSpec(st: State, sid: SocketId, emailId: Email)
    requires Valid(st)
    ensures var st1 := EvictStale(st, sid, emailId);
      && Valid(st1)
      && st1.emailToSocket == st.emailToSocket && st1.transport == st.transport
      && (forall roomId :: Count(st1, roomId) <= Count(st, roomId))
      && (forall s: SocketId :: s in st1.socketToEmail && s != sid ==> st1.socketToEmail[s] != emailId)
      && (sid in st1.socketToEmail <==> sid in st.socketToEmail)
  {
    var st1 := EvictStale(st, sid, emailId);
    forall roomId ensures Count(st1, roomId) <= Count(st, roomId) {
      EvictCount(st, sid, emailId, roomId);
    }
    if emailId in st.emailToSocket && st.emailToSocket[emailId] != sid {
      RemoveSpec(st.socketToRoom, st.emailToSocket[emailId]);
      assert SameKeys(st1);
      assert TransportConsistent(st1);
    }
    forall s: SocketId | s in st1.socketToEmail && s != sid ensures st1.socketToEmail[s] != emailId {
      assert TargetOf(st, st.socketToEmail[s]) == Some(s);
    }
  }

  lemma CardAddOne(a: set<string>, x: string)
    ensures |a + {x}| <= |a| + 1
  {
    if x !in a { assert |a + {x}| == |a| + 1; }
  }

  /** Registration adds at most the joiner to the target room and nobody elsewhere. */
  lemma RegisterCount(st: State, sid: SocketId, roomId: RoomId, emailId: Email, r: RoomId)
    requires DistinctKeys(st.socketToRoom)
    ensures Count(Register(st, sid, roomId, emailId), r) <= Count(st, r) + (if r == roomId then 1 else 0)
  {
    var st2 := Register(st, sid, roomId, emailId);
    var e, e2 := st.socketToRoom, st2.socketToRoom;
    var m, m2 := st.socketToEmail, st2.socketToEmail;
    PutSpec(e, sid, roomId);
    MemberCount(e, m, r, None);
    MemberCount(e2, m2, r, None);
    var a := SocketsOf(MembersOf(e, m, r, None));
    var b := SocketsOf(MembersOf(e2, m2, r, None));
    var extra: set<string> := if r == roomId then {sid} else {};
    forall s: SocketId | Get(e2, s) == Some(r) && s in m2 && Truthy(m2[s]) && s !in extra
      ensures Get(e, s) == Some(r) && s in m && Truthy(m[s])
    {
      assert s != sid;
    }
    MembersWithin(e, m, e2, m2, r, None, extra);
    CardMono(b, a + extra);
    CardAddOne(a, sid);
  }

  lemma RegisterCapacity(st: State, sid: SocketId, roomId: RoomId, emailId: Email)
    requires Valid(st)
    requires Count(st, roomId) < MaxRoomSize
    ensures WithinCapacity(Register(st, sid, roomId, emailId))
  {
    forall r ensures Count(Register(st, sid, roomId, emailId), r) <= MaxRoomSize {
      RegisterCount(st, sid, roomId, emailId, r);
    }
  }

  lemma RegisterTransport(st: State, sid: SocketId, roomId: RoomId, emailId: Email)
    requires Valid(st)
    requires sid in st.transport
    ensures TransportConsistent(Register(st, sid, roomId, emailId))
  {
    PutSpec(st.socketToRoom, sid, roomId);
  }

  lemma RegisterPointBack(st: State, sid: SocketId, roomId: RoomId, emailId: Email)
    requires Valid(st)
    requires forall s: SocketId :: s in st.socketToEmail && s != sid ==> st.socketToEmail[s] != emailId
    ensures EmailsPointBack(Register(st, sid, roomId, emailId))
  {
  }

  /** Registration keeps the invariant when the room has a free place and no other
      socket holds the email. */
  lemma RegisterSpec(st: State, sid: SocketId, roomId: RoomId, emailId: Email)
    requires Valid(st)
    requires sid in st.transport
    requires Count(st, roomId) < MaxRoomSize
    requires forall s: SocketId :: s in st.socketToEmail && s != sid ==> st.socketToEmail[s] != emailId
    ensures Valid(Register(st, sid, roomId, emailId))
  {
    PutSpec(st.socketToRoom, sid, roomId);
    RegisterCapacity(st, sid, roomId, emailId);
    RegisterTransport(st, sid, roomId, emailId);
    RegisterPointBack(st, sid, roomId, emailId);
  }

  /** `join-room` keeps the invariant (for a connected socket, the only kind socket.io
      delivers events from). */
  lemma JoinRoomPreservesValid(st: State, sid: SocketId, roomId: RoomId, emailId: Email)
    requires Valid(st) && sid in st.transport
    ensures Valid(OnJoinRoom(st, sid, roomId, emailId).st)
  {
    if Count(st, roomId) < MaxRoomSize {
      EvictStaleSpec(st, sid, emailId);
      RegisterSpec(EvictStale(st, sid, emailId), sid, roomId, emailId);
    }
  }

  lemma EvictStaleEffect(st: State, sid: SocketId, emailId: Email)
    requires DistinctKeys(st.socketToRoom)
    ensures var st1 := EvictStale(st, sid, emailId);
      && DistinctKeys(st1.socketToRoom)
      && st1.emailToSocket == st.emailToSocket
      && (match TargetOf(st, emailId)
          case Some(stale) => stale != sid ==> EmailOf(st1, stale) == None && RoomOf(st1, stale) == None
          case None => true)
      && (forall t: SocketId :: TargetOf(st, emailId) != Some(t) || t == sid ==>
            EmailOf(st1, t) == EmailOf(st, t) && RoomOf(st1, t) == RoomOf(st, t))
  {
    if emailId in st.emailToSocket && st.emailToSocket[emailId] != sid {
      RemoveSpec(st.socketToRoom, st.emailToSocket[emailId]);
    }
  }

  lemma RegisterEffect(st: State, sid: SocketId, roomId: RoomId, emailId: Email)
    requires DistinctKeys(st.socketToRoom)
    ensures var st2 := Register(st, sid, roomId, emailId);
      && TargetOf(st2, emailId) == Some(sid)
      && EmailOf(st2, sid) == Some(emailId)
      && RoomOf(st2, sid) == Some(roomId)
      && (forall t: SocketId :: t != sid ==> EmailOf(st2, t) == EmailOf(st, t) && RoomOf(st2, t) == RoomOf(st, t))
  {
    PutSpec(st.socketToRoom, sid, roomId);
  }

  /** An accepted `join-room` registers the joiner under its email and room, takes the
      stale socket of that email (if another) out of both socket maps, and leaves every
      other socket's email and room as they were. */
  lemma JoinRoomRegisters(st: State, sid: SocketId, roomId: RoomId, emailId: Email)
    requires Valid(st)
    requires Count(st, roomId) < MaxRoomSize
    ensures var st' := OnJoinRoom(st, sid, roomId, emailId).st;
      && TargetOf(st', emailId) == Some(sid)
      && EmailOf(st', sid) == Some(emailId)
      && RoomOf(st', sid) == Some(roomId)
      && (match TargetOf(st, emailId)
          case Some(stale) => stale != sid ==> EmailOf(st', stale) == None && RoomOf(st', stale) == None
          case None => true)
      && (forall t: SocketId :: t != sid && TargetOf(st, emailId) != Some(t) ==>
            EmailOf(st', t) == EmailOf(st, t) && RoomOf(st', t) == RoomOf(st, t))
  {
    var st1 := EvictStale(st, sid, emailId);
    assert OnJoinRoom(st, sid, roomId, emailId).st == Register(st1, sid, roomId, emailId);
    EvictStaleEffect(st, sid, emailId);
    RegisterEffect(st1, sid, roomId, emailId);
  }

  /** Once an email is registered to `sid`, no other member of any room carries it. */
  lemma OthersLackEmail(st: State, sid: SocketId, roomId: RoomId, emailId: Email)
    requires EmailsPointBack(st) && TargetOf(st, emailId) == Some(sid)
    ensures emailId !in Emails(MembersOf(st.socketToRoom, st.socketToEmail, roomId, Some(sid)))
  {
    var ms := MembersOf(st.socketToRoom, st.socketToEmail, roomId, Some(sid));
    forall i | 0 <= i < |ms| ensures ms[i].emailId != emailId {
      assert ms[i] in ms;
      var t: SocketId := ms[i].socketId;
      assert TargetOf(st, st.socketToEmail[t]) == Some(t);
    }
  }

  /** Registration adds nobody but the joiner to the room. */
  lemma OthersWereCounted(st: State, sid: SocketId, roomId: RoomId, emailId: Email)
    requires DistinctKeys(st.socketToRoom)
    ensures var st2 := Register(st, sid, roomId, emailId);
      |MembersOf(st2.socketToRoom, st2.socketToEmail, roomId, Some(sid))| <= Count(st, roomId)
  {
    var st2 := Register(st, sid, roomId, emailId);
    var e1, e2 := st.socketToRoom, st2.socketToRoom;
    PutSpec(e1, sid, roomId);
    forall s: SocketId | Get(e2, s) == Some(roomId) && s in st2.socketToEmail && Truthy(st2.socketToEmail[s]) && Some(sid) != Some(s)
      ensures Get(e1, s) == Some(roomId) && s in st.socketToEmail && Truthy(st.socketToEmail[s])
    {
    }
    MembersWithin(e1, st.socketToEmail, e2, st2.socketToEmail, roomId, Some(sid), {});
    MemberCount(e1, st.socketToEmail, roomId, None);
    MemberCount(e2, st2.socketToEmail, roomId, Some(sid));
    CardMono(SocketsOf(MembersOf(e2, st2.socketToEmail, roomId, Some(sid))), SocketsOf(MembersOf(e1, st.socketToEmail, roomId, None)));
  }

  /** The `all-users` list a joiner receives names neither the joiner's socket nor its
      email, and holds at most one other participant. */
  lemma JoinRoomAllUsers(st: State, sid: SocketId, roomId: RoomId, emailId: Email)
    requires Valid(st) && sid in st.transport
    requires Count(st, roomId) < MaxRoomSize
    ensures var r := OnJoinRoom(st, sid, roomId, emailId);
      && r.out[0].event.users == Emails(MembersOf(r.st.socketToRoom, r.st.socketToEmail, roomId, Some(sid)))
      && (forall x :: x in MembersOf(r.st.socketToRoom, r.st.socketToEmail, roomId, Some(sid)) ==> x.socketId != sid)
      && emailId !in r.out[0].event.users
      && |r.out[0].event.users| <= MaxRoomSize - 1
  {
    var st1 := EvictStale(st, sid, emailId);
    var st2 := Register(st1, sid, roomId, emailId);
    assert OnJoinRoom(st, sid, roomId, emailId).st == st2;
    EvictStaleSpec(st, sid, emailId);
    RegisterSpec(st1, sid, roomId, emailId);
    RegisterEffect(st1, sid, roomId, emailId);
    OthersLackEmail(st2, sid, roomId, emailId);
    OthersWereCounted(st1, sid, roomId, emailId);
  }

  // ---- connection and disconnect ----

  lemma ConnectionPreservesValid(st: State, sid: SocketId)
    requires Valid(st) && sid !in st.transport
    ensures Valid(OnConnection(st, sid))
  {
    var st' := OnConnection(st, sid);
    forall r ensures Count(st', r) <= MaxRoomSize {
      assert Count(st', r) == Count(st, r);
    }
  }

  lemma DisconnectCount(st: State, sid: SocketId, r: RoomId)
    requires Valid(st)
    ensures Count(OnDisconnect(st, sid).st, r) <= Count(st, r)
  {
    var st' := OnDisconnect(st, sid).st;
    var e, e' := st.socketToRoom, st'.socketToRoom;
    RemoveSpec(e, sid);
    forall s: SocketId | Get(e', s) == Some(r) && s in st'.socketToEmail && Truthy(st'.socketToEmail[s]) && None != Some(s)
      ensures Get(e, s) == Some(r) && s in st.socketToEmail && Truthy(st.socketToEmail[s])
    {
    }
    MembersWithin(e, st.socketToEmail, e', st'.socketToEmail, r, None, {});
    MemberCount(e, st.socketToEmail, r, None);
    MemberCount(e', st'.socketToEmail, r, None);
    CardMono(SocketsOf(MembersOf(e', st'.socketToEmail, r, None)), SocketsOf(MembersOf(e, st.socketToEmail, r, None)));
  }

  lemma DisconnectPreservesValid(st: State, sid: SocketId)
    requires Valid(st)
    ensures Valid(OnDisconnect(st, sid).st)
  {
    var st' := OnDisconnect(st, sid).st;
    RemoveSpec(st.socketToRoom, sid);
    forall r ensures Count(st', r) <= MaxRoomSize {
      DisconnectCount(st, sid, r);
    }
    assert EmailsPointBack(st') by {
      forall s | s in st'.socketToEmail ensures TargetOf(st', st'.socketToEmail[s]) == Some(s) {
        assert TargetOf(st, st.socketToEmail[s]) == Some(s);
        if sid in st.socketToEmail {
          assert TargetOf(st, st.socketToEmail[sid]) == Some(sid);
        }
      }
    }
    assert TransportConsistent(st') by {
      forall p | p in st'.socketToRoom ensures p.0 != "" && p.0 in st'.transport && p.1 in st'.transport[p.0] {
        assert p.0 in Keys(st'.socketToRoom);
      }
    }
  }

  /** After `disconnect` the socket has no email and no room, and no room lists it;
      every other socket keeps its email and its room. */
  lemma DisconnectForgetsSocket(st: State, sid: SocketId)
    requires Valid(st)
    ensures var st' := OnDisconnect(st, sid).st;
      && EmailOf(st', sid) == None && RoomOf(st', sid) == None
      && (forall roomId, x :: x in MembersOf(st'.socketToRoom, st'.socketToEmail, roomId, None) ==> x.socketId != sid)
      && (forall t: SocketId :: t != sid ==> EmailOf(st', t) == EmailOf(st, t) && RoomOf(st', t) == RoomOf(st, t))
  {
    RemoveSpec(st.socketToRoom, sid);
  }

  /** `disconnect` notifies the room exactly when the socket had a (truthy) room, and
      the notification names the socket's email. */
  lemma DisconnectNotifies(st: State, sid: SocketId)
    requires Valid(st)
    ensures var out := OnDisconnect(st, sid).out;
      && (out != [] <==> sid in st.socketToEmail && Truthy(RoomOf(st, sid).value))
      && (out != [] ==> out == [Emission(RoomExcept(RoomOf(st, sid).value, sid), UserDisconnected(EmailOf(st, sid)))]
                        && EmailOf(st, sid).Some?)
  {
  }

  /** A socket already evicted by a newer join under its email disconnects without
      touching the newer registration and without notifying anybody. */
  lemma StaleDisconnectIsQuiet(st: State, sid: SocketId)
    requires Valid(st)
    requires sid !in st.socketToEmail
    ensures var r := OnDisconnect(st, sid);
      && r.out == []
      && r.st.emailToSocket == st.emailToSocket
      && r.st.socketToEmail == st.socketToEmail
      && r.st.socketToRoom == st.socketToRoom
  {
  }
}
