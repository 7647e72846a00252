/** The pieces of the meeting page (frontend/vite-project/src/pages/Room.jsx) that are
    bookkeeping rather than media or rendering: the call-duration label, the chat's
    unread counter and the badge that shows it, and the queue of emails waiting for the
    local camera stream before an offer can be sent to them. */
module Room {
  import opened Wrappers
  import opened JsStrings

  type Email = string

  // ---- formatDuration ----

  /** `formatDuration(s)`: whole minutes, a colon, then the remaining seconds, each
      left-padded with "0" to at least two characters. */
  function FormatDuration(s: nat): string
  {
    PadStart(NatToString(s / 60), 2, '0') + ":" + PadStart(NatToString(s % 60), 2, '0')
  }

  /** Reads a `MM:SS` label back: at least two minute digits, a colon, and exactly two
      second digits below 60. */
  function ParseDuration(t: string): (r: Option<nat>)
    ensures r.Some? ==> |t| >= 5 && t[|t| - 3] == ':'
  {
    if |t| >= 5 && t[|t| - 3] == ':' && AllDigits(t[..|t| - 3]) && AllDigits(t[|t| - 2..])
       && ParseDecimal(t[|t| - 2..]) < 60
    then Some(60 * ParseDecimal(t[..|t| - 3]) + ParseDecimal(t[|t| - 2..]))
    else None
  }

  lemma PadTwo(n: nat)
    ensures AllDigits(PadStart(NatToString(n), 2, '0'))
    ensures ParseDecimal(PadStart(NatToString(n), 2, '0')) == n
    ensures |PadStart(NatToString(n), 2, '0')| >= 2
    ensures n < 100 ==> |PadStart(NatToString(n), 2, '0')| == 2
  {
    NatToStringSpec(n);
    PadStartZeros(NatToString(n), 2);
  }

  /** The label's shape: a minutes field worth `s / 60`, a colon, and a seconds field of
      exactly two digits worth `s % 60`; below 100 minutes the label is five characters. */
  lemma FormatDurationShape(s: nat)
    ensures var t := FormatDuration(s);
      && |t| >= 5 && t[|t| - 3] == ':'
      && AllDigits(t[..|t| - 3]) && ParseDecimal(t[..|t| - 3]) == s / 60
      && AllDigits(t[|t| - 2..]) && ParseDecimal(t[|t| - 2..]) == s % 60 < 60
      && (s < 6000 ==> |t| == 5)
  {
    PadTwo(s / 60);
    PadTwo(s % 60);
    var m := PadStart(NatToString(s / 60), 2, '0');
    var c := PadStart(NatToString(s % 60), 2, '0');
    var t := FormatDuration(s);
    assert t == m + ":" + c;
    assert t[..|t| - 3] == m;
    assert t[|t| - 2..] == c;
  }

  /** Parsing a formatted duration gives the seconds back. */
  lemma DurationRoundTrip(s: nat)
    ensures ParseDuration(FormatDuration(s)) == Some(s)
  {
    FormatDurationShape(s);
  }

  /** Hence different durations never share a label. */
  lemma FormatDurationInjective(s1: nat, s2: nat)
    requires FormatDuration(s1) == FormatDuration(s2)
    ensures s1 == s2
  {
    DurationRoundTrip(s1);
    DurationRoundTrip(s2);
  }

  // ---- the unread badge ----

  /** The badge over the chat button: present only while there are unread messages and
      the chat panel is closed, reading "9+" beyond nine. */
  function BadgeLabel(unread: nat, chatOpen: bool): Option<string>
  {
    if unread > 0 && !chatOpen then Some(if unread > 9 then "9+" else NatToString(unread))
    else None
  }

  lemma BadgeLabelSpec(unread: nat, chatOpen: bool)
    ensures BadgeLabel(unread, chatOpen).Some? <==> unread > 0 && !chatOpen
    ensures BadgeLabel(unread, chatOpen) == Some("9+") <==> unread > 9 && !chatOpen
    ensures BadgeLabel(unread, chatOpen).Some? && unread <= 9 ==>
      var l := BadgeLabel(unread, chatOpen).value;
      |l| == 1 && AllDigits(l) && ParseDecimal(l) == unread
  {
    NatToStringSpec(unread);
    if unread > 0 && unread <= 9 && !chatOpen {
      assert BadgeLabel(unread, chatOpen).value[0] != '9' || unread == 9;
    }
  }

  /** What the page reacts to: a chat message added to `messages` (sent or received), or
      `setChatOpen` with a new value (the chat button toggles, the panel's close button and
      the info button close). */
  datatype UiEvent = MessageAdded | SetChatOpen(open: bool)

  datatype Badge = Badge(unread: nat, chatOpen: bool)

  /** The effect on `messages.length`: count one more while the chat is closed. */
  function MessagesLengthEffect(b: Badge): Badge
  {
    if !b.chatOpen then b.(unread := b.unread + 1) else b
  }

  /** The effect on `chatOpen`: opening the chat clears the count. */
  function ChatOpenEffect(b: Badge): Badge
  {
    if b.chatOpen then b.(unread := 0) else b
  }

  /** One event and the effects it triggers; setting `chatOpen` to the value it already
      has changes no dependency, so no effect runs. */
  function Apply(b: Badge, e: UiEvent): Badge
  {
    match e
    case MessageAdded => MessagesLengthEffect(b)
    case SetChatOpen(o) => if o == b.chatOpen then b else ChatOpenEffect(b.(chatOpen := o))
  }

  function Replay(b: Badge, evs: seq<UiEvent>): Badge
  {
    if evs == [] then b else Apply(Replay(b, evs[..|evs| - 1]), evs[|evs| - 1])
  }

  /** The state after the first render: both effects run once on mount, and the
      `messages.length` one counts although no message exists. */
  const Mounted: Badge := ChatOpenEffect(MessagesLengthEffect(Badge(0, false)))

  /** The state the counter evidently means to start from: nothing unread. */
  const Fresh: Badge := Badge(0, false)

  /** Whether the chat panel is open after the events (it starts closed). */
  function OpenAfter(evs: seq<UiEvent>): bool
  {
    if evs == [] then false
    else match evs[|evs| - 1]
      case MessageAdded => OpenAfter(evs[..|evs| - 1])
      case SetChatOpen(o) => o
  }

  function EverOpened(evs: seq<UiEvent>): bool
  {
    exists i :: 0 <= i < |evs| && evs[i] == SetChatOpen(true)
  }

  /** Messages the user has not seen: those added since the chat panel was last open
      (all of them, if it never was), and none while it is open. */
  function Unseen(evs: seq<UiEvent>): nat
  {
    if evs == [] then 0
    else
      var p := evs[..|evs| - 1];
      match evs[|evs| - 1]
      case MessageAdded => if OpenAfter(p) then 0 else Unseen(p) + 1
      case SetChatOpen(o) => if o then 0 else Unseen(p)
  }

  lemma {:induction false} OpenMeansSeen(evs: seq<UiEvent>)
    ensures OpenAfter(evs) ==> Unseen(evs) == 0
  {
    if evs != [] {
      OpenMeansSeen(evs[..|evs| - 1]);
    }
  }

  lemma {:induction false} ClosedUntilOpened(evs: seq<UiEvent>)
    ensures !EverOpened(evs) ==> !OpenAfter(evs)
  {
    if evs != [] {
      var p := evs[..|evs| - 1];
      ClosedUntilOpened(p);
      EverOpenedStep(evs);
    }
  }

  lemma EverOpenedStep(evs: seq<UiEvent>)
    requires evs != []
    ensures EverOpened(evs) <==> EverOpened(evs[..|evs| - 1]) || evs[|evs| - 1] == SetChatOpen(true)
  {
    var p := evs[..|evs| - 1];
    if EverOpened(evs) && evs[|evs| - 1] != SetChatOpen(true) {
      var i :| 0 <= i < |evs| && evs[i] == SetChatOpen(true);
      assert p[i] == SetChatOpen(true);
    }
    if EverOpened(p) {
      var i :| 0 <= i < |p| && p[i] == SetChatOpen(true);
      assert evs[i] == SetChatOpen(true);
    }
  }

  /** As written, the counter is one too high until the chat is first opened: the mount
      run of the `messages.length` effect counts a message that does not exist. */
  lemma {:induction false} ReplayFromMount(evs: seq<UiEvent>)
    ensures Replay(Mounted, evs) ==
      Badge(Unseen(evs) + (if EverOpened(evs) then 0 else 1), OpenAfter(evs))
  {
    if evs != [] {
      var p := evs[..|evs| - 1];
      ReplayFromMount(p);
      OpenMeansSeen(p);
      ClosedUntilOpened(p);
      EverOpenedStep(evs);
    }
  }

  /** The smallest case: on entering the room, with no message at all, the badge reads
      "1". */
  lemma MountShowsPhantomUnread()
    ensures Unseen([]) == 0
    ensures BadgeLabel(Replay(Mounted, []).unread, Replay(Mounted, []).chatOpen) == Some("1")
  {
    assert NatToString(1) == "1";
  }

  /** Starting from nothing unread, the counter is exactly the number of unseen messages,
      so the badge appears precisely when some message is unseen and the chat is closed. */
  lemma {:induction false} ReplayFromFresh(evs: seq<UiEvent>)
    ensures Replay(Fresh, evs) == Badge(Unseen(evs), OpenAfter(evs))
    ensures BadgeLabel(Replay(Fresh, evs).unread, Replay(Fresh, evs).chatOpen).Some? <==> Unseen(evs) > 0
  {
    OpenMeansSeen(evs);
    if evs != [] {
      var p := evs[..|evs| - 1];
      ReplayFromFresh(p);
      OpenMeansSeen(p);
    }
  }

  /** The unread counter as the page keeps it: React state updated by the two effects. */
  class UnreadCounter {
    var unreadCount: nat
    var chatOpen: bool
    /** The events seen so far. */
    ghost var events: seq<UiEvent>

    ghost predicate Valid()
      reads this
    {
      Badge(unreadCount, chatOpen) == Replay(Mounted, events)
    }

    /** `useState(0)`, `useState(false)`, and the mount run of both effects. */
    constructor ()
      ensures unreadCount == 1 && !chatOpen && events == []
      ensures Valid()
    {
      unreadCount := Mounted.unread;
      chatOpen := Mounted.chatOpen;
      events := [];
    }

    /** A message is added to `messages`. */
    method OnMessageAdded()
      requires Valid()
      modifies this
      ensures chatOpen == old(chatOpen)
      ensures unreadCount == if chatOpen then old(unreadCount) else old(unreadCount) + 1
      ensures events == old(events) + [MessageAdded]
      ensures Valid()
    {
      events := events + [MessageAdded];
      assert events[..|events| - 1] == old(events);
      if !chatOpen {
        unreadCount := unreadCount + 1;
      }
    }

    /** `setChatOpen(open)`. */
    method SetOpen(open: bool)
      requires Valid()
      modifies this
      ensures chatOpen == open
      ensures unreadCount == if open && !old(chatOpen) then 0 else old(unreadCount)
      ensures events == old(events) + [SetChatOpen(open)]
      ensures Valid()
    {
      events := events + [SetChatOpen(open)];
      assert events[..|events| - 1] == old(events);
      if open != chatOpen {
        chatOpen := open;
        if chatOpen {
          unreadCount := 0;
        }
      }
    }
  }

  // ---- the pending-offer queue ----

  /** The emails, in order, whose flag in `ready` is set. */
  function Ready(users: seq<Email>, ready: seq<bool>): (r: seq<Email>)
    requires |users| == |ready|
    ensures |r| <= |users|
  {
    if users == [] then []
    else Ready(users[..|users| - 1], ready[..|ready| - 1])
         + (if ready[|ready| - 1] then [users[|users| - 1]] else [])
  }

  /** The emails, in order, whose flag in `ready` is clear. */
  function Unready(users: seq<Email>, ready: seq<bool>): (r: seq<Email>)
    requires |users| == |ready|
    ensures |r| <= |users|
  {
    if users == [] then []
    else Unready(users[..|users| - 1], ready[..|ready| - 1])
         + (if ready[|ready| - 1] then [] else [users[|users| - 1]])
  }

  lemma ReadyStep(users: seq<Email>, ready: seq<bool>, i: nat)
    requires |users| == |ready| && i < |users|
    ensures Ready(users[..i + 1], ready[..i + 1]) ==
      Ready(users[..i], ready[..i]) + (if ready[i] then [users[i]] else [])
    ensures Unready(users[..i + 1], ready[..i + 1]) ==
      Unready(users[..i], ready[..i]) + (if ready[i] then [] else [users[i]])
  {
    assert users[..i + 1][..i] == users[..i] && ready[..i + 1][..i] == ready[..i];
  }

  /** Every email is either offered or queued, exactly once. */
  lemma {:induction false} ReadySplit(users: seq<Email>, ready: seq<bool>)
    requires |users| == |ready|
    ensures multiset(Ready(users, ready)) + multiset(Unready(users, ready)) == multiset(users)
  {
    if users != [] {
      var u, r := users[..|users| - 1], ready[..|ready| - 1];
      var x := users[|users| - 1];
      ReadySplit(u, r);
      assert users == u + [x];
      assert multiset(users) == multiset(u) + multiset{x};
      if ready[|ready| - 1] {
        assert Ready(users, ready) == Ready(u, r) + [x];
        assert Unready(users, ready) == Unready(u, r);
      } else {
        assert Ready(users, ready) == Ready(u, r);
        assert Unready(users, ready) == Unready(u, r) + [x];
      }
    }
  }

  /** With the stream there throughout, everyone is offered to; without it, everyone is
      queued. */
  lemma {:induction false} ReadyUniform(users: seq<Email>, ready: seq<bool>)
    requires |users| == |ready|
    ensures (forall i :: 0 <= i < |ready| ==> ready[i]) ==> Ready(users, ready) == users && Unready(users, ready) == []
    ensures (forall i :: 0 <= i < |ready| ==> !ready[i]) ==> Unready(users, ready) == users && Ready(users, ready) == []
  {
    if users != [] {
      var u, r := users[..|users| - 1], ready[..|ready| - 1];
      ReadyUniform(u, r);
      assert users == u + [users[|users| - 1]];
    }
  }

  /** `pendingOfferEmailsRef.current`, with ghost records of what went in and out. */
  class PendingOffers {
    var queue: seq<Email>
    /** Every email ever queued, every email handed out by a flush, every email dropped
        by a disconnect. */
    ghost var queued: seq<Email>
    ghost var flushed: seq<Email>
    ghost var dropped: seq<Email>

    /** Each queued email is flushed at most once: it is still waiting, was flushed once,
        or was dropped. */
    ghost predicate Valid()
      reads this
    {
      multiset(queued) == multiset(flushed) + multiset(dropped) + multiset(queue)
    }

    /** `useRef([])`. */
    constructor ()
      ensures queue == [] && queued == [] && flushed == [] && dropped == []
      ensures Valid()
    {
      queue := [];
      queued := [];
      flushed := [];
      dropped := [];
    }

    /** The loop of `handleExistingUsers` over the `all-users` list: an email is queued
        when there is no local stream yet, and offered to otherwise. The stream is looked
        up afresh for each email (the loop waits between offers), so `ready[i]` says
        whether it existed when `users[i]` came up. */
    method OnExistingUsers(users: seq<Email>, ready: seq<bool>) returns (offered: seq<Email>)
      requires |users| == |ready|
      requires Valid()
      modifies this
      ensures offered == Ready(users, ready)
      ensures queue == old(queue) + Unready(users, ready)
      ensures queued == old(queued) + Unready(users, ready)
      ensures flushed == old(flushed) && dropped == old(dropped)
      ensures Valid()
    {
      offered := [];
      var i := 0;
      while i < |users|
        invariant 0 <= i <= |users|
        invariant offered == Ready(users[..i], ready[..i])
        invariant queue == old(queue) + Unready(users[..i], ready[..i])
        invariant queued == old(queued) && flushed == old(flushed) && dropped == old(dropped)
      {
        ReadyStep(users, ready, i);
        if !ready[i] {
          queue := queue + [users[i]];
        } else {
          offered := offered + [users[i]];
        }
        i := i + 1;
      }
      assert users[..i] == users && ready[..i] == ready;
      queued := queued + Unready(users, ready);
    }

    /** `handleNewUserJoined`: queue the newcomer when there is no local stream yet,
        offer to them otherwise. */
    method OnUserJoined(emailId: Email, ready: bool) returns (offered: Option<Email>)
      requires Valid()
      modifies this
      ensures ready ==> offered == Some(emailId) && queue == old(queue) && queued == old(queued)
      ensures !ready ==> offered == None && queue == old(queue) + [emailId]
                         && queued == old(queued) + [emailId]
      ensures flushed == old(flushed) && dropped == old(dropped)
      ensures Valid()
    {
      if !ready {
        queue := queue + [emailId];
        queued := queued + [emailId];
        return None;
      }
      offered := Some(emailId);
    }

    /** The stream effect: copy the queue and empty it before any offer goes out. */
    method Flush() returns (pending: seq<Email>)
      requires Valid()
      modifies this
      ensures pending == old(queue) && queue == []
      ensures flushed == old(flushed) + pending
      ensures queued == old(queued) && dropped == old(dropped)
      ensures Valid()
    {
      pending := queue;
      queue := [];
      flushed := flushed + pending;
    }

    /** `handleUserDisconnected`: forget every waiting email. */
    method OnUserDisconnected()
      requires Valid()
      modifies this
      ensures queue == []
      ensures dropped == old(dropped) + old(queue)
      ensures queued == old(queued) && flushed == old(flushed)
      ensures Valid()
    {
      dropped := dropped + queue;
      queue := [];
    }
  }
}
