/** Notification rooms: the unread counter that shadows a list, and reference-counted channel subscriptions. */
module Notifications {
  import opened Text

  // ---------------------------------------------------------------------------
  // The unread counter
  // ---------------------------------------------------------------------------

  datatype Notification = Notification(id: string, isRead: bool, readAt: string)

  datatype Message = Created(item: Notification) | Read(id: string, timestamp: string) | AllRead(timestamp: string) | Unrelated

  datatype Room = Room(data: seq<Notification>, count: nat)

  function MarkRead(data: seq<Notification>, id: string, timestamp: string): (r: seq<Notification>)
    ensures |r| == |data|
  {
    seq(|data|, k requires 0 <= k < |data| =>
      if data[k].id == id then data[k].(isRead := true, readAt := timestamp) else data[k])
  }

  function MarkAllRead(data: seq<Notification>, timestamp: string): (r: seq<Notification>)
    ensures |r| == |data|
  {
    seq(|data|, k requires 0 <= k < |data| => data[k].(isRead := true, readAt := timestamp))
  }

  function Apply(r: Room, m: Message): Room {
    match m
    case Created(item) => Room([item] + r.data, r.count + 1)
    case Read(id, timestamp) => Room(MarkRead(r.data, id, timestamp), if r.count > 0 then r.count - 1 else 0)
    case AllRead(timestamp) => Room(MarkAllRead(r.data, timestamp), 0)
    case Unrelated => r
  }

  function ApplyAll(r: Room, messages: seq<Message>): Room
    decreases messages
  {
    if messages == [] then r else ApplyAll(Apply(r, messages[0]), messages[1..])
  }

  function Unread(data: seq<Notification>): nat {
    if data == [] then 0 else (if data[0].isRead then 0 else 1) + Unread(data[1..])
  }

  /** The two shared maps of a room's document. */
  class RoomMaps {
    var data: seq<Notification>
    var count: nat

    constructor (r: Room)
      ensures State() == r
    {
      data, count := r.data, r.count;
    }

    function State(): Room
      reads this
    {
      Room(data, count)
    }

    /** The message takes effect, and the gap between list and counter changes as `GapAfter` says. */
    method OnMessage(m: Message)
      modifies this
      ensures State() == Apply(old(State()), m)
      ensures TakesEffect(old(data), old(count), m, data, count)
      ensures UniqueIds(old(data)) && Proper(old(State()), m) ==>
                UniqueIds(data) && Unread(data) - count == GapAfter(old(State()), m)
    {
      hide UniqueIds, Proper, GapAfter, TakesEffect, Unread;
      if UniqueIds(data) && Proper(State(), m) {
        GapStep(State(), m);
      }
      EffectExact(State(), m, Apply(State(), m));
      match m
      case Created(item) =>
        data := [item] + data;
        count := count + 1;
      case Read(id, timestamp) =>
        data := MarkRead(data, id, timestamp);
        count := if count - 1 > 0 then count - 1 else 0;
      case AllRead(timestamp) =>
        data := MarkAllRead(data, timestamp);
        count := 0;
      case Unrelated =>
    }
  }

  /** `item` as a read event at this time leaves it. */
  predicate ReadSince(item: Notification, before: Notification, timestamp: string) {
    item.id == before.id && item.isRead && item.readAt == timestamp
  }

  /** List and counter after a message, in terms of those before it. */
  predicate TakesEffect(before: seq<Notification>, count: nat, m: Message, after: seq<Notification>, next: nat) {
    match m
    case Created(item) => |after| == |before| + 1 && after[0] == item && after[1..] == before && next == count + 1
    case Read(id, timestamp) =>
      && |after| == |before| && (if count == 0 then next == 0 else next + 1 == count)
      && forall k :: 0 <= k < |before| ==>
           if before[k].id == id then ReadSince(after[k], before[k], timestamp) else after[k] == before[k]
    case AllRead(timestamp) =>
      |after| == |before| && next == 0 && forall k :: 0 <= k < |before| ==> ReadSince(after[k], before[k], timestamp)
    case Unrelated => after == before && next == count
  }

  /** There is one way only to take effect: the function and the description determine each other. */
  lemma EffectExact(r: Room, m: Message, next: Room)
    ensures TakesEffect(r.data, r.count, m, next.data, next.count) <==> next == Apply(r, m)
  {
    if TakesEffect(r.data, r.count, m, next.data, next.count) {
      match m
      case Created(item) => assert next.data == [item] + r.data;
      case Read(id, timestamp) => assert next.data == MarkRead(r.data, id, timestamp);
      case AllRead(timestamp) => assert next.data == MarkAllRead(r.data, timestamp);
      case Unrelated =>
    }
  }

  ghost predicate UniqueIds(data: seq<Notification>) {
    forall j, k :: 0 <= j < k < |data| ==> data[j].id != data[k].id
  }

  /** The message names a listed notification that is still unread. */
  predicate NamesUnread(data: seq<Notification>, id: string) {
    exists k :: 0 <= k < |data| && data[k].id == id && !data[k].isRead
  }

  /** A created notification is unread and has a fresh id. */
  predicate Proper(r: Room, m: Message) {
    m.Created? ==> !m.item.isRead && forall k :: 0 <= k < |r.data| ==> r.data[k].id != m.item.id
  }

  ghost predicate ProperRun(r: Room, messages: seq<Message>)
    decreases messages
  {
    messages == [] || (Proper(r, messages[0]) && ProperRun(Apply(r, messages[0]), messages[1..]))
  }

  /** Every read event of the run names a listed unread notification. */
  ghost predicate FaithfulRun(r: Room, messages: seq<Message>)
    decreases messages
  {
    || messages == []
    || ((messages[0].Read? ==> NamesUnread(r.data, messages[0].id)) && FaithfulRun(Apply(r, messages[0]), messages[1..]))
  }

  lemma {:induction false} AbsentIdChangesNothing(data: seq<Notification>, id: string, timestamp: string)
    requires forall k :: 0 <= k < |data| ==> data[k].id != id
    ensures MarkRead(data, id, timestamp) == data
  {
  }

  /** Reading one of several distinct ids takes one notification from the unread ones, when it was among them. */
  lemma {:induction false} UnreadAfterRead(data: seq<Notification>, id: string, timestamp: string)
    requires UniqueIds(data)
    ensures Unread(MarkRead(data, id, timestamp)) == Unread(data) - if NamesUnread(data, id) then 1 else 0
  {
    if data != [] {
      var rest := data[1..];
      assert MarkRead(data, id, timestamp)[1..] == MarkRead(rest, id, timestamp);
      assert forall k :: 0 <= k < |rest| ==> rest[k] == data[k + 1];
      if data[0].id == id {
        AbsentIdChangesNothing(rest, id, timestamp);
        assert NamesUnread(data, id) <==> !data[0].isRead;
      } else {
        UnreadAfterRead(rest, id, timestamp);
        if NamesUnread(data, id) {
          var k :| 0 <= k < |data| && data[k].id == id && !data[k].isRead;
          assert rest[k - 1] == data[k];
        }
        assert NamesUnread(rest, id) ==> NamesUnread(data, id);
      }
    }
  }

  lemma {:induction false} NothingUnread(data: seq<Notification>)
    requires forall k :: 0 <= k < |data| ==> data[k].isRead
    ensures Unread(data) == 0
  {
    if data != [] {
      NothingUnread(data[1..]);
    }
  }

  /** What a message leaves of the gap between the unread notifications and the counter. */
  function GapAfter(r: Room, m: Message): int {
    var gap := Unread(r.data) - r.count;
    match m
    case Created(_) => gap
    case Read(id, _) => gap + (if r.count > 0 then 1 else 0) - (if NamesUnread(r.data, id) then 1 else 0)
    case AllRead(_) => 0
    case Unrelated => gap
  }

  /**
   * The exact effect of one message on the gap between the list and the counter: creation and unrelated messages keep
   * it, reading everything closes it, and a read event widens it when it counts down without reading anything and
   * narrows it when it reads something without counting down.
   */
  lemma GapStep(r: Room, m: Message)
    requires UniqueIds(r.data) && Proper(r, m)
    ensures UniqueIds(Apply(r, m).data)
    ensures var next := Apply(r, m); Unread(next.data) - next.count == GapAfter(r, m)
  {
    match m
    case Created(item) => assert ([item] + r.data)[1..] == r.data;
    case Read(id, timestamp) => UnreadAfterRead(r.data, id, timestamp);
    case AllRead(timestamp) => NothingUnread(MarkAllRead(r.data, timestamp));
    case Unrelated =>
  }

  lemma {:induction false} UnreadIsPositive(data: seq<Notification>, id: string)
    requires NamesUnread(data, id)
    ensures Unread(data) > 0
  {
    var k :| 0 <= k < |data| && data[k].id == id && !data[k].isRead;
    if k > 0 {
      assert data[1..][k - 1] == data[k];
      UnreadIsPositive(data[1..], id);
    }
  }

  /**
   * Unread agreement: over every run of messages with fresh, unread creations, the counter never exceeds the number of
   * unread notifications; and it equals that number along every run whose read events each name an unread one.
   */
  lemma {:induction false} UnreadAgreement(r: Room, messages: seq<Message>)
    requires UniqueIds(r.data) && r.count <= Unread(r.data) && ProperRun(r, messages)
    ensures ApplyAll(r, messages).count <= Unread(ApplyAll(r, messages).data)
    ensures r.count == Unread(r.data) && FaithfulRun(r, messages) ==>
              ApplyAll(r, messages).count == Unread(ApplyAll(r, messages).data)
    decreases messages
  {
    if messages != [] {
      var m := messages[0];
      GapStep(r, m);
      if m.Read? && NamesUnread(r.data, m.id) {
        UnreadIsPositive(r.data, m.id);
      }
      UnreadAgreement(Apply(r, m), messages[1..]);
    }
  }

  /** When they agree, a read event keeps them so exactly when it names an unread notification or the counter is at 0. */
  lemma ReadKeepsAgreementExact(r: Room, id: string, timestamp: string)
    requires UniqueIds(r.data) && r.count == Unread(r.data)
    ensures var next := Apply(r, Read(id, timestamp));
            next.count == Unread(next.data) <==> NamesUnread(r.data, id) || r.count == 0
  {
    GapStep(r, Read(id, timestamp));
    if NamesUnread(r.data, id) {
      UnreadIsPositive(r.data, id);
    }
  }

  /** A read event for a notification that is already read counts down all the same. */
  lemma RepeatedReadMiscounts()
    ensures var r := Room([Notification("a", false, ""), Notification("b", true, "t")], 1);
            && UniqueIds(r.data) && Unread(r.data) == r.count
            && var next := Apply(r, Read("b", "t")); next.count == 0 && Unread(next.data) == 1
  {
    var data := [Notification("a", false, ""), Notification("b", true, "t")];
    assert MarkRead(data, "b", "t") == data;
    assert data[1..] == [Notification("b", true, "t")] && data[1..][1..] == [];
  }

  // ---------------------------------------------------------------------------
  // Channels
  // ---------------------------------------------------------------------------

  const ROOM_PREFIX := "notifications:"

  predicate Accepted(room: string) {
    StartsWith(room, ROOM_PREFIX) && |Split(room, ':')| == 3
  }

  function Channel(prefix: string, room: string): string
    requires Accepted(room)
  {
    var parts := Split(room, ':');
    prefix + "internal-notifications:" + (parts[1] + ":" + parts[2])
  }

  /** An accepted room is the fixed word, the tenant and the user, none of them containing a colon. */
  lemma AcceptedParts(room: string)
    requires Accepted(room)
    ensures var parts := Split(room, ':');
            parts[0] == "notifications" && Clean(parts, ':') && room == "notifications:" + (parts[1] + ":" + parts[2])
  {
    hide Split;
    SplitIsClean(room, ':');
    JoinSplit(room, ':');
    FirstPart(room);
    AcceptedLength(room);
    var parts := Split(room, ':');
    assert parts == [parts[0], parts[1], parts[2]];
    JoinThree(parts[0], parts[1], parts[2]);
  }

  /** A room of a tenant and a user. */
  ghost predicate RoomOf(room: string, tenant: string, user: string) {
    ':' !in tenant && ':' !in user && room == "notifications:" + tenant + ":" + user
  }

  /** Which rooms are accepted, and the channel of each, exactly. */
  lemma ChannelExact(prefix: string, room: string)
    ensures Accepted(room) <==> exists tenant, user :: RoomOf(room, tenant, user)
    ensures forall tenant, user :: RoomOf(room, tenant, user) ==>
              Accepted(room) && Channel(prefix, room) == prefix + "internal-notifications:" + tenant + ":" + user
  {
    hide Split, Accepted, Channel;
    if Accepted(room) {
      AcceptedParts(room);
      AcceptedLength(room);
      var parts := Split(room, ':');
      CleanPair(parts);
      JoinThree("notifications", parts[1], parts[2]);
      assert RoomOf(room, parts[1], parts[2]);
    }
    forall tenant, user | RoomOf(room, tenant, user)
      ensures Accepted(room) && Channel(prefix, room) == prefix + "internal-notifications:" + tenant + ":" + user
    {
      RoomChannel(prefix, room, tenant, user);
    }
  }

  lemma AcceptedLength(room: string)
    ensures Accepted(room) ==> |Split(room, ':')| == 3
  {
  }

  lemma CleanPair(parts: seq<string>)
    requires Clean(parts, ':') && |parts| == 3
    ensures ':' !in parts[1] && ':' !in parts[2]
  {
  }

  lemma RoomChannel(prefix: string, room: string, tenant: string, user: string)
    requires RoomOf(room, tenant, user)
    ensures Accepted(room) && Channel(prefix, room) == prefix + "internal-notifications:" + tenant + ":" + user
  {
    hide Split, Join;
    var parts := ["notifications", tenant, user];
    JoinThree("notifications", tenant, user);
    assert "notifications" + ":" == "notifications:";
    assert Join(parts, ":") == room;
    SplitJoin(parts, ':');
    assert room[..14] == "notifications:";
    var head := prefix + "internal-notifications:";
    ConcatAssociates(head, tenant + ":", user);
    ConcatAssociates(head, tenant, ":");
  }

  /** Hooks of rooms that are not accepted change nothing. */
  lemma OtherRoomsAreIgnored(prefix: string, t: Table, id: nat, h: Hook)
    requires forall tenant, user :: !RoomOf(h.room, tenant, user)
    ensures BeginHook(prefix, t, id, h) == t
  {
    hide Accepted, Channel, RoomOf;
    ChannelExact(prefix, h.room);
  }

  lemma FirstPart(room: string)
    requires StartsWith(room, ROOM_PREFIX)
    ensures Split(room, ':')[0] == "notifications"
  {
    var rest := room[|ROOM_PREFIX|..];
    assert room == "notifications" + [':'] + rest;
    SplitWithout("notifications", ':');
    SplitConcat("notifications", ':', rest);
  }

  /** Distinct accepted rooms never share a channel. */
  lemma ChannelsAreDistinct(prefix: string, a: string, b: string)
    requires Accepted(a) && Accepted(b) && Channel(prefix, a) == Channel(prefix, b)
    ensures a == b
  {
    hide Split;
    AcceptedParts(a);
    AcceptedParts(b);
    var x, y := Split(a, ':'), Split(b, ':');
    var head := prefix + "internal-notifications:";
    var u, v := x[1] + ":" + x[2], y[1] + ":" + y[2];
    assert (head + u)[|head|..] == u && (head + v)[|head|..] == v;
  }

  // ---------------------------------------------------------------------------
  // Subscriptions
  // ---------------------------------------------------------------------------

  /** Connections counted for each channel, and the channels that the broker delivers to this process. */
  datatype Subs = Subs(counts: map<string, int>, live: set<string>)

  const NO_SUBS := Subs(map[], {})

  datatype Hook = Connect(room: string) | Disconnect(room: string)

  /** A hook that waits for the broker: a connect for its new subscription, a disconnect for the end of one. */
  datatype Wait = Subscribing(room: string) | Unsubscribing(room: string)

  datatype Table = Table(subs: Subs, waits: map<nat, Wait>)

  /** A hook runs up to its `await` or its end, or goes on after the `await`; `id` names the running hook. */
  datatype Event = Begin(id: nat, hook: Hook) | End(id: nat)

  /** The part of a hook before its `await`; rooms that are not accepted are ignored. */
  function BeginHook(prefix: string, t: Table, id: nat, h: Hook): Table {
    if !Accepted(h.room) then t
    else
      var s, channel := t.subs, Channel(prefix, h.room);
      match h
      case Connect(room) =>
        if channel in s.counts then t.(subs := s.(counts := s.counts[channel := s.counts[channel] + 1]))
        else Table(s.(live := s.live + {channel}), t.waits[id := Subscribing(room)])
      case Disconnect(room) =>
        if channel !in s.counts then t
        else
          var left := s.counts[channel] - 1;
          if left <= 0 then
            Table(Subs(s.counts[channel := left], s.live - {channel}), t.waits[id := Unsubscribing(room)])
          else t.(subs := s.(counts := s.counts[channel := left]))
  }

  /** The part after the `await`. */
  function EndHook(prefix: string, t: Table, id: nat): Table {
    if id !in t.waits || !Accepted(t.waits[id].room) then t
    else
      var s, channel := t.subs, Channel(prefix, t.waits[id].room);
      match t.waits[id]
      case Subscribing(_) => Table(s.(counts := s.counts[channel := 1]), t.waits - {id})
      case Unsubscribing(_) => Table(s.(counts := s.counts - {channel}), t.waits - {id})
  }

  function RunEvent(prefix: string, t: Table, e: Event): Table {
    match e
    case Begin(id, hook) => BeginHook(prefix, t, id, hook)
    case End(id) => EndHook(prefix, t, id)
  }

  function RunEvents(prefix: string, t: Table, events: seq<Event>): Table
    decreases events
  {
    if events == [] then t else RunEvents(prefix, RunEvent(prefix, t, events[0]), events[1..])
  }

  /** One hook from beginning to end, with nothing in between. */
  function RunHook(prefix: string, s: Subs, h: Hook): Subs {
    EndHook(prefix, BeginHook(prefix, Table(s, map[]), 0, h), 0).subs
  }

  function RunHooks(prefix: string, s: Subs, hooks: seq<Hook>): Subs
    decreases hooks
  {
    if hooks == [] then s else RunHooks(prefix, RunHook(prefix, s, hooks[0]), hooks[1..])
  }

  /** Connections of a room open after one more hook; a close without an open is ignored. */
  function OpenNext(n: nat, h: Hook, room: string): nat {
    if h.room != room then n else if h.Connect? then n + 1 else if n > 0 then n - 1 else 0
  }

  function OpenAfter(n: nat, hooks: seq<Hook>, room: string): nat
    decreases hooks
  {
    if hooks == [] then n else OpenAfter(OpenNext(n, hooks[0], room), hooks[1..], room)
  }

  /** The table shows `n` for a channel: absent and not delivered at 0, counted and delivered otherwise. */
  predicate Shows(s: Subs, channel: string, n: nat) {
    if n == 0 then channel !in s.counts && channel !in s.live
    else channel in s.counts && s.counts[channel] == n && channel in s.live
  }

  class SubscriptionTable {
    var subscriptions: map<string, int>
    var live: set<string>

    constructor ()
      ensures State() == NO_SUBS
    {
      subscriptions, live := map[], {};
    }

    function State(): Subs
      reads this
    {
      Subs(subscriptions, live)
    }

    /** Every room keeps its count, and the room that connects is counted once more. */
    method ConnectRoom(prefix: string, room: string)
      modifies this
      ensures State() == RunHook(prefix, old(State()), Connect(room))
      ensures forall r, n: nat :: Accepted(r) && Shows(old(State()), Channel(prefix, r), n) ==>
                Shows(State(), Channel(prefix, r), if r == room then n + 1 else n)
    {
      ghost var before := State();
      forall r, n: nat | Accepted(r) && Shows(before, Channel(prefix, r), n)
        ensures Shows(RunHook(prefix, before, Connect(room)), Channel(prefix, r), if r == room then n + 1 else n)
      {
        HookKeepsShown(prefix, before, Connect(room), r, n);
      }
      if !StartsWith(room, ROOM_PREFIX) {
        return;
      }
      if |Split(room, ':')| != 3 {
        return;
      }
      var channel := Channel(prefix, room);
      if channel in subscriptions {
        subscriptions := subscriptions[channel := subscriptions[channel] + 1];
        return;
      }
      live := live + {channel};
      subscriptions := subscriptions[channel := 1];
    }

    /** Every room keeps its count, and the room that disconnects is counted once less, never below 0. */
    method DisconnectRoom(prefix: string, room: string)
      modifies this
      ensures State() == RunHook(prefix, old(State()), Disconnect(room))
      ensures forall r, n: nat :: Accepted(r) && Shows(old(State()), Channel(prefix, r), n) ==>
                Shows(State(), Channel(prefix, r), if r == room && n > 0 then n - 1 else n)
    {
      ghost var before := State();
      forall r, n: nat | Accepted(r) && Shows(before, Channel(prefix, r), n)
        ensures Shows(RunHook(prefix, before, Disconnect(room)), Channel(prefix, r), if r == room && n > 0 then n - 1 else n)
      {
        HookKeepsShown(prefix, before, Disconnect(room), r, n);
      }
      if !StartsWith(room, ROOM_PREFIX) {
        return;
      }
      if |Split(room, ':')| != 3 {
        return;
      }
      var channel := Channel(prefix, room);
      if channel !in subscriptions {
        return;
      }
      subscriptions := subscriptions[channel := subscriptions[channel] - 1];
      if subscriptions[channel] <= 0 {
        live := live - {channel};
        subscriptions := subscriptions - {channel};
      }
    }
  }

  // ---------------------------------------------------------------------------
  // Hooks that overlap
  // ---------------------------------------------------------------------------

  predicate WaitsFor(t: Table, id: nat, room: string) {
    id in t.waits && t.waits[id].room == room
  }

  ghost predicate Waiting(t: Table, room: string) {
    exists id :: WaitsFor(t, id, room)
  }

  /** At the begin of a hook its name is free and no hook of the same room waits; hooks of other rooms may. */
  ghost predicate RoomsTakeTurns(prefix: string, t: Table, events: seq<Event>)
    decreases events
  {
    || events == []
    || ((events[0].Begin? ==> events[0].id !in t.waits && !Waiting(t, events[0].hook.room))
        && RoomsTakeTurns(prefix, RunEvent(prefix, t, events[0]), events[1..]))
  }

  function HooksOf(events: seq<Event>): seq<Hook> {
    if events == [] then [] else (if events[0].Begin? then [events[0].hook] else []) + HooksOf(events[1..])
  }

  /**
   * The table shows `n` open connections for a room: as in `Shows` when no hook of the room waits; a waiting connect is
   * the first connection, not yet counted; a waiting disconnect was the last one, counted down and not yet removed. In
   * every case the channel is delivered exactly when `n` is positive, and one hook of the room waits at most.
   */
  ghost predicate Agrees(t: Table, channel: string, room: string, n: nat) {
    && (!Waiting(t, room) ==> Shows(t.subs, channel, n))
    && (forall id :: WaitsFor(t, id, room) ==>
          if t.waits[id].Subscribing? then n == 1 && channel !in t.subs.counts && channel in t.subs.live
          else n == 0 && channel in t.subs.counts && channel !in t.subs.live)
    && (forall i, j :: WaitsFor(t, i, room) && WaitsFor(t, j, room) ==> i == j)
  }

  /** An event of another room leaves the agreement alone. */
  lemma OtherRoomsAgree(prefix: string, t: Table, e: Event, room: string, n: nat)
    requires Accepted(room) && Agrees(t, Channel(prefix, room), room, n)
    requires match e
             case Begin(id, hook) => hook.room != room && id !in t.waits
             case End(id) => id in t.waits && t.waits[id].room != room
    ensures Agrees(RunEvent(prefix, t, e), Channel(prefix, room), room, n)
  {
    hide Accepted, Channel;
    var other := if e.Begin? then e.hook.room else t.waits[e.id].room;
    if Accepted(other) && Channel(prefix, other) == Channel(prefix, room) {
      ChannelsAreDistinct(prefix, other, room);
    }
    var after := RunEvent(prefix, t, e);
    assert forall id :: WaitsFor(after, id, room) <==> WaitsFor(t, id, room);
  }

  lemma OwnBeginAgrees(prefix: string, t: Table, id: nat, h: Hook, n: nat)
    requires Accepted(h.room) && Agrees(t, Channel(prefix, h.room), h.room, n)
    requires id !in t.waits && !Waiting(t, h.room)
    ensures Agrees(BeginHook(prefix, t, id, h), Channel(prefix, h.room), h.room, OpenNext(n, h, h.room))
  {
    hide Accepted, Channel;
    var after := BeginHook(prefix, t, id, h);
    assert forall i :: i != id ==> !WaitsFor(t, i, h.room);
    assert forall i :: WaitsFor(after, i, h.room) ==> i == id;
    if id in after.waits {
      assert WaitsFor(after, id, h.room);
    }
  }

  lemma OwnEndAgrees(prefix: string, t: Table, id: nat, room: string, n: nat)
    requires Accepted(room) && Agrees(t, Channel(prefix, room), room, n) && WaitsFor(t, id, room)
    ensures Agrees(EndHook(prefix, t, id), Channel(prefix, room), room, n)
  {
    hide Accepted, Channel;
    var after := EndHook(prefix, t, id);
    assert forall i :: WaitsFor(after, i, room) ==> WaitsFor(t, i, room) && i != id;
  }

  lemma EventAgrees(prefix: string, t: Table, e: Event, room: string, n: nat)
    requires Accepted(room) && Agrees(t, Channel(prefix, room), room, n)
    requires e.Begin? ==> e.id !in t.waits && !Waiting(t, e.hook.room)
    ensures var m := if e.Begin? then OpenNext(n, e.hook, room) else n;
            Agrees(RunEvent(prefix, t, e), Channel(prefix, room), room, m)
  {
    hide Accepted, Channel, Agrees, Waiting, BeginHook;
    match e
    case Begin(id, hook) =>
      if hook.room == room {
        OwnBeginAgrees(prefix, t, id, hook, n);
      } else {
        OtherRoomsAgree(prefix, t, e, room, n);
      }
    case End(id) =>
      if WaitsFor(t, id, room) {
        OwnEndAgrees(prefix, t, id, room, n);
      } else if id in t.waits {
        OtherRoomsAgree(prefix, t, e, room, n);
      }
  }

  /**
   * Subscription counting: over every sequence of hook beginnings and ends in which the hooks of one room take turns,
   * while those of different rooms overlap freely, the table agrees with the number of open connections of each accepted
   * room at every point; when no hook of the room waits, its channel is counted exactly that often.
   */
  lemma {:induction false} SubscriptionsCount(prefix: string, t: Table, events: seq<Event>, room: string, n: nat)
    requires Accepted(room) && Agrees(t, Channel(prefix, room), room, n) && RoomsTakeTurns(prefix, t, events)
    ensures var last, open := RunEvents(prefix, t, events), OpenAfter(n, HooksOf(events), room);
            && Agrees(last, Channel(prefix, room), room, open)
            && (!Waiting(last, room) ==> Shows(last.subs, Channel(prefix, room), open))
            && (Channel(prefix, room) in last.subs.live <==> open > 0)
    decreases events
  {
    hide Accepted, Channel, RunEvent, OpenNext;
    if events == [] {
      AgreesOnLive(t, Channel(prefix, room), room, n);
    } else {
      hide Agrees, Waiting;
      EventAgrees(prefix, t, events[0], room, n);
      var m := if events[0].Begin? then OpenNext(n, events[0].hook, room) else n;
      SubscriptionsCount(prefix, RunEvent(prefix, t, events[0]), events[1..], room, m);
      FirstHook(events, n, room);
    }
  }

  lemma AgreesOnLive(t: Table, channel: string, room: string, n: nat)
    requires Agrees(t, channel, room, n)
    ensures channel in t.subs.live <==> n > 0
  {
    if Waiting(t, room) {
      var id :| WaitsFor(t, id, room);
    }
  }

  lemma FirstHook(events: seq<Event>, n: nat, room: string)
    requires events != []
    ensures var m := if events[0].Begin? then OpenNext(n, events[0].hook, room) else n;
            OpenAfter(n, HooksOf(events), room) == OpenAfter(m, HooksOf(events[1..]), room)
  {
    hide OpenNext;
    var rest := HooksOf(events[1..]);
    if events[0].Begin? {
      assert ([events[0].hook] + rest)[1..] == rest;
    } else {
      assert [] + rest == rest;
    }
  }

  /** A hook that runs to completion is a begin and an end with nothing in between. */
  lemma HookKeepsShown(prefix: string, s: Subs, h: Hook, room: string, n: nat)
    requires Accepted(room) && Shows(s, Channel(prefix, room), n)
    ensures Shows(RunHook(prefix, s, h), Channel(prefix, room), OpenNext(n, h, room))
  {
    hide Accepted, Channel, BeginHook, EndHook, OpenNext;
    var t := Table(s, map[]);
    EventAgrees(prefix, t, Begin(0, h), room, n);
    var begun := BeginHook(prefix, t, 0, h);
    EventAgrees(prefix, begun, End(0), room, OpenNext(n, h, room));
    NothingWaits(prefix, t, h);
    assert !Waiting(EndHook(prefix, begun, 0), room);
  }

  lemma NothingWaits(prefix: string, t: Table, h: Hook)
    requires t.waits == map[]
    ensures EndHook(prefix, BeginHook(prefix, t, 0, h), 0).waits == map[]
  {
    hide Channel;
  }

  /** The same for hooks that all run to completion, one after the other. */
  lemma {:induction false} CompletedHooksCount(prefix: string, s: Subs, hooks: seq<Hook>, room: string, n: nat)
    requires Accepted(room) && Shows(s, Channel(prefix, room), n)
    ensures Shows(RunHooks(prefix, s, hooks), Channel(prefix, room), OpenAfter(n, hooks, room))
    decreases hooks
  {
    hide Accepted, Channel, RunHook, Shows, OpenNext;
    if hooks != [] {
      HookKeepsShown(prefix, s, hooks[0], room, n);
      CompletedHooksCount(prefix, RunHook(prefix, s, hooks[0]), hooks[1..], room, OpenNext(n, hooks[0], room));
    }
  }

  /** No further hook of the room begins; names of new hooks are free. */
  ghost predicate LeftAlone(prefix: string, t: Table, events: seq<Event>, room: string)
    decreases events
  {
    || events == []
    || ((events[0].Begin? ==> events[0].hook.room != room && events[0].id !in t.waits)
        && LeftAlone(prefix, RunEvent(prefix, t, events[0]), events[1..], room))
  }

  /** An overlap leaves the table wrong about `n` open connections, and nothing that follows on its own mends it. */
  ghost predicate Miscounted(t: Table, channel: string, room: string, n: nat) {
    || (n == 0 && channel in t.subs.live)
    || (n == 1 && channel !in t.subs.live)
    || (n == 2 && (channel in t.subs.counts ==> t.subs.counts[channel] == 1)
        && forall id :: WaitsFor(t, id, room) ==> t.waits[id].Subscribing?)
  }

  lemma MiscountedShowsNot(t: Table, channel: string, room: string, n: nat)
    requires Miscounted(t, channel, room, n)
    ensures !Shows(t.subs, channel, n)
  {
  }

  /** A hook that begins while another one of its room waits. */
  lemma OverlapMiscounts(prefix: string, t: Table, id: nat, h: Hook, n: nat)
    requires Accepted(h.room) && Agrees(t, Channel(prefix, h.room), h.room, n) && Waiting(t, h.room)
    requires id !in t.waits && (h.Disconnect? ==> n > 0)
    ensures Miscounted(BeginHook(prefix, t, id, h), Channel(prefix, h.room), h.room, OpenNext(n, h, h.room))
  {
    hide Accepted, Channel;
    var w :| WaitsFor(t, w, h.room);
    var after := BeginHook(prefix, t, id, h);
    assert forall i :: WaitsFor(after, i, h.room) ==> i == id || WaitsFor(t, i, h.room);
  }

  lemma StaysMiscounted(prefix: string, t: Table, e: Event, room: string, n: nat)
    requires Accepted(room) && Miscounted(t, Channel(prefix, room), room, n)
    requires e.Begin? ==> e.hook.room != room && e.id !in t.waits
    ensures Miscounted(RunEvent(prefix, t, e), Channel(prefix, room), room, n)
  {
    if e.Begin? && Accepted(e.hook.room) && Channel(prefix, e.hook.room) == Channel(prefix, room) {
      ChannelsAreDistinct(prefix, e.hook.room, room);
    }
    if e.End? && e.id in t.waits && Accepted(t.waits[e.id].room) {
      if Channel(prefix, t.waits[e.id].room) == Channel(prefix, room) {
        ChannelsAreDistinct(prefix, t.waits[e.id].room, room);
        assert WaitsFor(t, e.id, room);
      }
    }
    hide Accepted, Channel;
    var after := RunEvent(prefix, t, e);
    assert forall i :: WaitsFor(after, i, room) ==> WaitsFor(t, i, room);
  }

  lemma {:induction false} RunStaysMiscounted(prefix: string, t: Table, events: seq<Event>, room: string, n: nat)
    requires Accepted(room) && Miscounted(t, Channel(prefix, room), room, n) && LeftAlone(prefix, t, events, room)
    ensures Miscounted(RunEvents(prefix, t, events), Channel(prefix, room), room, n)
    decreases events
  {
    hide Accepted, Channel, Miscounted, RunEvent;
    if events != [] {
      StaysMiscounted(prefix, t, events[0], room, n);
      RunStaysMiscounted(prefix, RunEvent(prefix, t, events[0]), events[1..], room, n);
    }
  }

  lemma {:induction false} RunStaysAgreed(prefix: string, t: Table, events: seq<Event>, room: string, n: nat)
    requires Accepted(room) && Agrees(t, Channel(prefix, room), room, n) && LeftAlone(prefix, t, events, room)
    ensures Agrees(RunEvents(prefix, t, events), Channel(prefix, room), room, n)
    decreases events
  {
    hide Accepted, Channel, Agrees, RunEvent;
    if events != [] {
      var e := events[0];
      if e.End? && WaitsFor(t, e.id, room) {
        OwnEndAgrees(prefix, t, e.id, room, n);
        EndIsRun(prefix, t, e.id);
      } else if e.Begin? || e.id in t.waits {
        OtherRoomsAgree(prefix, t, e, room, n);
      } else {
        EndIsRun(prefix, t, e.id);
      }
      RunStaysAgreed(prefix, RunEvent(prefix, t, e), events[1..], room, n);
    }
  }

  lemma EndIsRun(prefix: string, t: Table, id: nat)
    ensures RunEvent(prefix, t, End(id)) == EndHook(prefix, t, id)
    ensures id !in t.waits ==> RunEvent(prefix, t, End(id)) == t
  {
  }

  /**
   * Taking turns, exactly. From a table that agrees with the open connections of a room, let a hook of the room begin
   * that closes only what was opened. However things go on, as long as no further hook of the room begins: once none of
   * its hooks waits any more, the table shows the right count if and only if none was waiting when the hook began.
   */
  lemma TurnsExact(prefix: string, t: Table, id: nat, h: Hook, n: nat, later: seq<Event>)
    requires Accepted(h.room) && Agrees(t, Channel(prefix, h.room), h.room, n)
    requires id !in t.waits && (h.Disconnect? ==> n > 0)
    requires LeftAlone(prefix, BeginHook(prefix, t, id, h), later, h.room)
    ensures var last := RunEvents(prefix, BeginHook(prefix, t, id, h), later);
            !Waiting(last, h.room) ==>
              (Shows(last.subs, Channel(prefix, h.room), OpenNext(n, h, h.room)) <==> !Waiting(t, h.room))
  {
    hide Accepted, Channel, BeginHook, OpenNext, RunEvents, LeftAlone, Miscounted, Shows;
    var begun, m := BeginHook(prefix, t, id, h), OpenNext(n, h, h.room);
    if Waiting(t, h.room) {
      OverlapMiscounts(prefix, t, id, h, n);
      RunStaysMiscounted(prefix, begun, later, h.room, m);
      MiscountedShowsNot(RunEvents(prefix, begun, later), Channel(prefix, h.room), h.room, m);
    } else {
      OwnBeginAgrees(prefix, t, id, h, n);
      RunStaysAgreed(prefix, begun, later, h.room, m);
    }
  }

  /** Such a continuation exists: when the waiting hook and the new one end, in this order or the other, none waits. */
  lemma BothEnd(prefix: string, t: Table, w: nat, id: nat, h: Hook, n: nat)
    requires Accepted(h.room) && Agrees(t, Channel(prefix, h.room), h.room, n) && WaitsFor(t, w, h.room) && id !in t.waits
    ensures var begun := BeginHook(prefix, t, id, h);
            forall ends | ends in [[End(w), End(id)], [End(id), End(w)]] ::
              LeftAlone(prefix, begun, ends, h.room) && !Waiting(RunEvents(prefix, begun, ends), h.room)
  {
    hide Channel;
    var begun := BeginHook(prefix, t, id, h);
    assert forall i :: WaitsFor(begun, i, h.room) ==> i == id || WaitsFor(t, i, h.room);
    RunTwoEnds(prefix, begun, w, id, h.room);
    RunTwoEnds(prefix, begun, id, w, h.room);
  }

  lemma RunTwoEnds(prefix: string, t: Table, i: nat, j: nat, room: string)
    requires Accepted(room) && forall k :: WaitsFor(t, k, room) ==> k == i || k == j
    ensures LeftAlone(prefix, t, [End(i), End(j)], room) && !Waiting(RunEvents(prefix, t, [End(i), End(j)]), room)
  {
    hide Accepted, Channel;
    var one := EndHook(prefix, t, i);
    assert [End(i), End(j)][1..] == [End(j)] && [End(j)][1..] == [];
    assert RunEvents(prefix, RunEvent(prefix, one, End(j)), []) == EndHook(prefix, one, j);
    assert LeftAlone(prefix, RunEvent(prefix, one, End(j)), [], room);
    assert LeftAlone(prefix, one, [End(j)], room);
    assert forall k :: WaitsFor(one, k, room) ==> WaitsFor(t, k, room) && k != i;
    assert forall k :: WaitsFor(EndHook(prefix, one, j), k, room) ==> WaitsFor(one, k, room) && k != j;
  }

  lemma RunThree(prefix: string, t: Table, a: Event, b: Event, c: Event)
    ensures RunEvents(prefix, t, [a, b, c]) == RunEvent(prefix, RunEvent(prefix, RunEvent(prefix, t, a), b), c)
  {
    hide RunEvent;
    assert [a, b, c][1..] == [b, c] && [b, c][1..] == [c] && [c][1..] == [];
    var one := RunEvent(prefix, t, a);
    assert RunEvents(prefix, one, [b, c]) == RunEvents(prefix, RunEvent(prefix, one, b), [c]);
  }

  /**
   * Taking turns is needed. Two connects of one room that overlap at the `await` are counted once, so the first
   * disconnect unsubscribes the channel although a connection is still open.
   */
  lemma OverlappingConnectsMiscount(prefix: string, room: string)
    requires Accepted(room)
    ensures var channel := Channel(prefix, room);
            var two := RunEvents(prefix, Table(NO_SUBS, map[]), [Begin(0, Connect(room)), Begin(1, Connect(room)), End(0)]);
            var both := EndHook(prefix, two, 1);
            && both.subs == Subs(map[channel := 1], {channel}) && both.waits == map[]
            && channel !in RunHook(prefix, both.subs, Disconnect(room)).live
            && OpenAfter(0, [Connect(room), Connect(room), Disconnect(room)], room) == 1
  {
    hide Accepted, Channel, RunEvents, OpenAfter;
    RunThree(prefix, Table(NO_SUBS, map[]), Begin(0, Connect(room)), Begin(1, Connect(room)), End(0));
    OpenAfterThree(Connect(room), Connect(room), Disconnect(room), 0, room);
  }

  lemma OpenAfterThree(a: Hook, b: Hook, c: Hook, n: nat, room: string)
    ensures OpenAfter(n, [a, b, c], room) == OpenNext(OpenNext(OpenNext(n, a, room), b, room), c, room)
    ensures OpenAfter(n, [a, b], room) == OpenNext(OpenNext(n, a, room), b, room)
  {
    hide OpenNext;
    assert [a, b, c][1..] == [b, c] && [b, c][1..] == [c] && [c][1..] == [] && [a, b][1..] == [b] && [b][1..] == [];
    var m := OpenNext(n, a, room);
    assert OpenAfter(m, [b, c], room) == OpenAfter(OpenNext(m, b, room), [c], room);
    assert OpenAfter(m, [b], room) == OpenNext(m, b, room);
  }

  /** A connect that begins while the last disconnect waits is counted on the old entry and then removed with it. */
  lemma ConnectDuringDisconnectIsLost(prefix: string, room: string)
    requires Accepted(room)
    ensures var channel := Channel(prefix, room);
            var one := Table(Subs(map[channel := 1], {channel}), map[]);
            var last := RunEvents(prefix, one, [Begin(0, Disconnect(room)), Begin(1, Connect(room)), End(0)]);
            && last == Table(NO_SUBS, map[])
            && OpenAfter(1, [Disconnect(room), Connect(room)], room) == 1
  {
    hide Accepted, Channel, RunEvents, OpenAfter;
    var channel := Channel(prefix, room);
    var one := Table(Subs(map[channel := 1], {channel}), map[]);
    RunThree(prefix, one, Begin(0, Disconnect(room)), Begin(1, Connect(room)), End(0));
    OpenAfterThree(Disconnect(room), Connect(room), Connect(room), 1, room);
  }

  /** A disconnect that begins while the first connect waits finds no entry: the room stays subscribed with no connection. */
  lemma DisconnectDuringConnectIsIgnored(prefix: string, room: string)
    requires Accepted(room)
    ensures var channel := Channel(prefix, room);
            var last := RunEvents(prefix, Table(NO_SUBS, map[]), [Begin(0, Connect(room)), Begin(1, Disconnect(room)), End(0)]);
            && last == Table(Subs(map[channel := 1], {channel}), map[])
            && OpenAfter(0, [Connect(room), Disconnect(room)], room) == 0
  {
    hide Accepted, Channel, RunEvents, OpenAfter;
    RunThree(prefix, Table(NO_SUBS, map[]), Begin(0, Connect(room)), Begin(1, Disconnect(room)), End(0));
    OpenAfterThree(Connect(room), Disconnect(room), Disconnect(room), 0, room);
  }
}
