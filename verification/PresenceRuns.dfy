/** Runs of the presence protocol: server handlers, deliveries and client subscriptions in any interleaving. */
module PresenceRuns {
  import opened Wrappers
  import opened Text
  import opened Presence
  import opened PresenceHub

  /**
   * `views` are the clients' rooms, per socket and channel. `synced` is history: the pairs for which the server
   * has answered a `join_presence` that the client has neither left nor subscribed anew since.
   */
  datatype System = System(hub: Hub, views: map<string, map<string, Presences>>, synced: set<(string, string)>)

  datatype Event =
    | Connect(socket: string, carried: map<string, Presences>)
    | Join(socket: string, channel: string)
    | Track(socket: string, channel: string, user: string, status: string, time: nat)
    | Leave(socket: string, channel: string)
    | Disconnect(socket: string)
    | Receive(socket: string)
    | Subscribe(socket: string, channel: string)
    | Unsubscribe(socket: string, channel: string)

  function Initial(): System {
    System(Hub(map[], map[], map[], map[]), map[], {})
  }

  function ViewsOf(sys: System, socket: string): map<string, Presences> {
    if socket in sys.views then sys.views[socket] else map[]
  }

  function ReceivedAll(views: map<string, Presences>, packet: Packet): map<string, Presences> {
    map c | c in views :: Received(views[c], packet, c)
  }

  function Delivered(h: Hub, socket: string): Hub
    requires socket in h.inbox && h.inbox[socket] != []
  {
    h.(inbox := h.inbox[socket := h.inbox[socket][1..]])
  }

  /** A socket belongs to the project its client was made for. Events of sockets that are not connected do nothing. */
  function Step(sys: System, event: Event, project: string -> string): System {
    var h, s := sys.hub, event.socket;
    if event.Connect? then
      if s in h.members || ':' in s || ':' in project(s) then sys
      else sys.(hub := Connected(h, s), views := sys.views[s := event.carried])
    else if s !in h.members || s !in h.inbox then sys
    else match event
      case Connect(_, _) => sys
      case Join(_, c) => sys.(hub := Joined(h, s, project(s), c), synced := sys.synced + {(s, c)})
      case Track(_, c, user, status, time) =>
        sys.(hub := Tracked(h, s, project(s), c, user, Meta(PhxRef(s, c, time), user, status, time)))
      case Leave(_, c) => sys.(hub := LeftRoom(h, s, project(s), c), synced := sys.synced - {(s, c)})
      case Disconnect(_) =>
        System(Disconnected(h, s), sys.views - {s}, set pair | pair in sys.synced && pair.0 != s)
      case Receive(_) =>
        if h.inbox[s] == [] then sys
        else sys.(hub := Delivered(h, s), views := sys.views[s := ReceivedAll(ViewsOf(sys, s), h.inbox[s][0])])
      case Subscribe(_, c) =>
        if c in ViewsOf(sys, s) then sys
        else sys.(views := sys.views[s := ViewsOf(sys, s)[c := map[]]], synced := sys.synced - {(s, c)})
      case Unsubscribe(_, c) => sys.(views := sys.views[s := ViewsOf(sys, s) - {c}])
  }

  function Run(events: seq<Event>, project: string -> string): System {
    if events == [] then Initial()
    else Step(Run(events[..|events| - 1], project), events[|events| - 1], project)
  }

  ghost predicate IsServed(h: Hub, project: string -> string, socket: string, channel: string,
                           views: map<string, Presences>)
  {
    && RoomName(project(socket), channel) in RoomsOf(h, socket)
    && (channel in views ==> Agrees(h, project, socket, channel, views[channel]))
  }

  ghost predicate AreServed(sys: System, project: string -> string) {
    forall s, c {:trigger IsServed(sys.hub, project, s, c, ViewsOf(sys, s))} {:trigger (s, c) in sys.synced} ::
      (s, c) in sys.synced ==> IsServed(sys.hub, project, s, c, ViewsOf(sys, s))
  }

  ghost predicate AreSockets(h: Hub, project: string -> string) {
    forall s :: s in h.members ==> ':' !in s && ':' !in project(s)
  }

  ghost predicate Invariant(sys: System, project: string -> string) {
    && IsConsistent(sys.hub, project) && IsTidy(sys.hub) && AreSockets(sys.hub, project) && AreServed(sys, project)
  }

  lemma ServedByChange(h: Hub, project: string -> string, p: string, c: string, room: RoomState, joins: Presences,
                       leaves: Presences, s: string, channel: string, views: map<string, Presences>)
    requires AreMatched(h) && AreNamed(h, project) && ':' !in p
    requires Applied(RoomView(RoomAt(h, RoomName(p, c))), joins, leaves) == RoomView(room)
    requires s in h.members && IsServed(h, project, s, channel, views)
    ensures IsServed(Changed(h, RoomName(p, c), room, Diff(c, joins, leaves)), project, s, channel, views)
  {
    assert RoomsOf(Changed(h, RoomName(p, c), room, Diff(c, joins, leaves)), s) == RoomsOf(h, s);
    if channel in views {
      ChangeAgrees(h, project, p, c, room, joins, leaves, s, channel, views[channel]);
    }
  }

  lemma ServedByRemoval(h: Hub, project: string -> string, socket: string, p: string, c: string,
                        s: string, channel: string, views: map<string, Presences>)
    requires IsConsistent(h, project) && ':' !in p
    requires s in h.members && IsServed(h, project, s, channel, views)
    ensures IsServed(Removed(h, socket, RoomName(p, c), c), project, s, channel, views)
  {
    var room := RoomAt(h, RoomName(p, c));
    RoomAtIsRoom(h, RoomName(p, c));
    DepartureAgrees(room, socket);
    if Departures(room, socket) != map[] {
      ServedByChange(h, project, p, c, WithoutSocket(room, socket), map[], Departures(room, socket), s, channel, views);
    }
  }

  lemma {:induction false} ServedByRemovals(h: Hub, project: string -> string, socket: string, names: seq<string>,
                                            s: string, channel: string, views: map<string, Presences>)
    requires IsConsistent(h, project) && s in h.members && IsServed(h, project, s, channel, views)
    requires forall i :: 0 <= i < |names| ==> names[i] in TrackedBy(h, socket)
    ensures IsServed(RemovedFromAll(h, socket, names), project, s, channel, views)
    decreases |names|
  {
    if names != [] {
      var c := ChannelOf(names[0]);
      assert names[0] in TrackedBy(h, socket);
      var next := Removed(h, socket, names[0], c);
      ServedByRemoval(h, project, socket, project(socket), c, s, channel, views);
      RemovedConsistent(h, project, socket, names[0], c);
      RemovedIsOut(h, socket, names[0], c);
      ServedByRemovals(next, project, socket, names[1..], s, channel, views);
    }
  }

  lemma ServedByEntry(h: Hub, project: string -> string, socket: string, name: string,
                      s: string, channel: string, views: map<string, Presences>)
    requires socket in h.members && IsServed(h, project, s, channel, views)
    ensures IsServed(Entered(h, socket, name), project, s, channel, views)
  {
    EnteredRecords(h, socket, name);
    assert RoomAt(Entered(h, socket, name), RoomName(project(s), channel)) == RoomAt(h, RoomName(project(s), channel));
  }

  lemma ServedBySnapshot(h: Hub, project: string -> string, socket: string, c: string, s: string, channel: string,
                         views: map<string, Presences>)
    requires socket in h.inbox && h.inbox.Keys == h.members.Keys
    requires
      || (s == socket && channel == c && RoomName(project(s), c) in RoomsOf(h, s))
      || IsServed(h, project, s, channel, views)
    ensures IsServed(Pushed(h, socket, Snapshot(c, RoomView(RoomAt(h, RoomName(project(socket), c))))), project, s,
                     channel, views)
  {
    var packet := Snapshot(c, RoomView(RoomAt(h, RoomName(project(socket), c))));
    var next := Pushed(h, socket, packet);
    assert RoomAt(next, RoomName(project(s), channel)) == RoomAt(h, RoomName(project(s), channel));
    assert RoomsOf(next, s) == RoomsOf(h, s);
    if channel in views && s == socket {
      DrainedSnoc(views[channel], h.inbox[s], packet, channel);
    }
  }

  lemma ServedByExit(h: Hub, project: string -> string, socket: string, c: string, s: string, channel: string,
                     views: map<string, Presences>)
    requires socket in h.members && IsServed(h, project, s, channel, views)
    requires ':' !in project(socket) && (s != socket || channel != c)
    ensures IsServed(Exited(h, socket, RoomName(project(socket), c)), project, s, channel, views)
  {
    var name := RoomName(project(socket), c);
    ExitedRecords(h, socket, name);
    if s == socket && RoomName(project(s), channel) == name {
      RoomNameInjective(project(s), channel, project(s), c);
    }
    assert RoomAt(Exited(h, socket, name), RoomName(project(s), channel)) == RoomAt(h, RoomName(project(s), channel));
  }

  lemma ServedByDelivery(h: Hub, project: string -> string, socket: string, s: string, channel: string,
                         views: map<string, Presences>)
    requires socket in h.inbox && h.inbox[socket] != [] && IsServed(h, project, s, channel, views)
    ensures IsServed(Delivered(h, socket), project, s, channel,
                     if s == socket then ReceivedAll(views, h.inbox[socket][0]) else views)
  {
    var next := Delivered(h, socket);
    assert RoomAt(next, RoomName(project(s), channel)) == RoomAt(h, RoomName(project(s), channel));
    assert RoomsOf(next, s) == RoomsOf(h, s);
    if s == socket && channel in views {
      DrainedCons(views[channel], h.inbox[s], channel);
    }
  }

  lemma ServedNow(sys: System, project: string -> string, s: string, c: string)
    requires AreServed(sys, project) && AreMatched(sys.hub) && (s, c) in sys.synced
    ensures IsServed(sys.hub, project, s, c, ViewsOf(sys, s)) && s in sys.hub.members
  {
    assert RoomName(project(s), c) in RoomsOf(sys.hub, s);
  }

  lemma ConnectKeeps(sys: System, project: string -> string, socket: string, carried: map<string, Presences>)
    requires Invariant(sys, project)
    ensures Invariant(Step(sys, Connect(socket, carried), project), project)
  {
    var next := Step(sys, Connect(socket, carried), project);
    if next != sys {
      assert TrackedBy(sys.hub, socket) == [];
      SameRooms(sys.hub, next.hub);
      assert forall s :: TrackedBy(next.hub, s) == TrackedBy(sys.hub, s);
      assert forall s :: RoomsOf(next.hub, s) == RoomsOf(sys.hub, s);
      assert IsCovered(next.hub) by {
        assert forall s, n {:trigger IsIn(next.hub, s, n)} :: IsIn(next.hub, s, n) ==> IsIn(sys.hub, s, n);
      }
      forall s, c | (s, c) in sys.synced
        ensures IsServed(next.hub, project, s, c, ViewsOf(next, s))
      {
        ServedNow(sys, project, s, c);
        assert s != socket;
        assert RoomAt(next.hub, RoomName(project(s), c)) == RoomAt(sys.hub, RoomName(project(s), c));
      }
    }
  }

  lemma JoinKeeps(sys: System, project: string -> string, socket: string, channel: string)
    requires Invariant(sys, project) && socket in sys.hub.members
    ensures Invariant(Step(sys, Join(socket, channel), project), project)
  {
    var next, name := Step(sys, Join(socket, channel), project), RoomName(project(socket), channel);
    var entered := Entered(sys.hub, socket, name);
    EnteredConsistent(sys.hub, project, socket, channel);
    PushedConsistent(entered, project, socket, Snapshot(channel, RoomView(RoomAt(sys.hub, name))));
    EnteredRecords(sys.hub, socket, name);
    assert RoomAt(entered, name) == RoomAt(sys.hub, name);
    forall s, c | (s, c) in next.synced
      ensures IsServed(next.hub, project, s, c, ViewsOf(next, s))
    {
      assert ViewsOf(next, s) == ViewsOf(sys, s);
      if s != socket || c != channel {
        ServedNow(sys, project, s, c);
        ServedByEntry(sys.hub, project, socket, name, s, c, ViewsOf(sys, s));
      }
      ServedBySnapshot(entered, project, socket, channel, s, c, ViewsOf(sys, s));
    }
  }

  lemma PushedConsistent(h: Hub, project: string -> string, socket: string, packet: Packet)
    requires IsConsistent(h, project) && socket in h.inbox
    ensures IsConsistent(Pushed(h, socket, packet), project)
  {
    InboxOnly(h, Pushed(h, socket, packet), project);
  }

  /** Nothing but the inboxes differs. */
  lemma InboxOnly(h: Hub, next: Hub, project: string -> string)
    requires IsConsistent(h, project) && next.rooms == h.rooms && next.members == h.members && next.tracked == h.tracked
    requires next.inbox.Keys == h.inbox.Keys
    ensures IsConsistent(next, project)
  {
    SameRooms(h, next);
    assert forall s :: TrackedBy(next, s) == TrackedBy(h, s) && RoomsOf(next, s) == RoomsOf(h, s);
    assert IsCovered(next) by {
      assert forall s, n {:trigger IsIn(next, s, n)} :: IsIn(next, s, n) ==> IsIn(h, s, n);
    }
  }

  /** The hub once the socket is in the room, and the room's change is one its views can follow. */
  lemma TrackEnters(sys: System, project: string -> string, socket: string, channel: string, user: string, meta: Meta)
    requires Invariant(sys, project) && socket in sys.hub.members && SocketOf(meta.ref) == socket
    ensures
      var name := RoomName(project(socket), channel);
      var entered, room := Entered(sys.hub, socket, name), RoomAt(sys.hub, name);
      && IsConsistent(entered, project) && RoomAt(entered, name) == room && IsRoom(Upserted(room, socket, user, meta))
      && name in TrackedBy(entered, socket) && entered.members.Keys == sys.hub.members.Keys
      && Applied(RoomView(room), map[user := {meta}], Replaced(room, socket, user)) ==
           RoomView(Upserted(room, socket, user, meta))
  {
    var name := RoomName(project(socket), channel);
    var room := RoomAt(sys.hub, name);
    EnteredConsistent(sys.hub, project, socket, channel);
    EnteredRecords(sys.hub, socket, name);
    RoomAtIsRoom(sys.hub, name);
    UpsertIsRoom(room, socket, user, meta);
    UpsertAgrees(room, socket, user, meta);
  }

  lemma TrackServes(sys: System, project: string -> string, socket: string, channel: string, user: string, meta: Meta,
                    s: string, c: string)
    requires Invariant(sys, project) && socket in sys.hub.members && SocketOf(meta.ref) == socket
    requires (s, c) in sys.synced
    ensures IsServed(Tracked(sys.hub, socket, project(socket), channel, user, meta), project, s, c, ViewsOf(sys, s))
  {
    var name := RoomName(project(socket), channel);
    var entered, room := Entered(sys.hub, socket, name), RoomAt(sys.hub, name);
    TrackEnters(sys, project, socket, channel, user, meta);
    ServedNow(sys, project, s, c);
    ServedByEntry(sys.hub, project, socket, name, s, c, ViewsOf(sys, s));
    ServedByChange(entered, project, project(socket), channel, Upserted(room, socket, user, meta), map[user := {meta}],
                   Replaced(room, socket, user), s, c, ViewsOf(sys, s));
  }

  lemma TrackKeeps(sys: System, project: string -> string, socket: string, channel: string, user: string,
                   status: string, time: nat)
    requires Invariant(sys, project) && socket in sys.hub.members
    ensures Invariant(Step(sys, Track(socket, channel, user, status, time), project), project)
  {
    var next := Step(sys, Track(socket, channel, user, status, time), project);
    var name, meta := RoomName(project(socket), channel), Meta(PhxRef(socket, channel, time), user, status, time);
    var entered, room := Entered(sys.hub, socket, name), RoomAt(sys.hub, name);
    RefNamesSocket(socket, channel, time);
    TrackEnters(sys, project, socket, channel, user, meta);
    UpsertMayHold(entered, name, socket, user, meta);
    ChangedConsistent(entered, project, name, Upserted(room, socket, user, meta),
                      Diff(channel, map[user := {meta}], Replaced(room, socket, user)));
    forall s, c | (s, c) in next.synced
      ensures IsServed(next.hub, project, s, c, ViewsOf(next, s))
    {
      TrackServes(sys, project, socket, channel, user, meta, s, c);
    }
  }

  lemma LeaveKeeps(sys: System, project: string -> string, socket: string, channel: string)
    requires Invariant(sys, project) && socket in sys.hub.members
    ensures Invariant(Step(sys, Leave(socket, channel), project), project)
  {
    var next, name := Step(sys, Leave(socket, channel), project), RoomName(project(socket), channel);
    var removed := Removed(sys.hub, socket, name, channel);
    RemovedConsistent(sys.hub, project, socket, name, channel);
    RemovedIsOut(sys.hub, socket, name, channel);
    ExitedConsistent(removed, project, socket, name);
    forall s, c | (s, c) in next.synced
      ensures IsServed(next.hub, project, s, c, ViewsOf(next, s))
    {
      ServedNow(sys, project, s, c);
      ServedByRemoval(sys.hub, project, socket, project(socket), channel, s, c, ViewsOf(sys, s));
      ServedByExit(removed, project, socket, channel, s, c, ViewsOf(sys, s));
    }
  }

  lemma ServedByHangup(h: Hub, project: string -> string, socket: string, s: string, channel: string,
                       views: map<string, Presences>)
    requires s != socket && IsServed(h, project, s, channel, views)
    ensures IsServed(Hangup(h, socket), project, s, channel, views)
  {
    assert RoomAt(Hangup(h, socket), RoomName(project(s), channel)) == RoomAt(h, RoomName(project(s), channel));
    assert RoomsOf(Hangup(h, socket), s) == RoomsOf(h, s);
  }

  lemma ServedByForgetting(h: Hub, project: string -> string, socket: string, s: string, channel: string,
                           views: map<string, Presences>)
    requires IsServed(h, project, s, channel, views)
    ensures IsServed(Forgotten(h, socket), project, s, channel, views)
  {
    assert RoomAt(Forgotten(h, socket), RoomName(project(s), channel)) == RoomAt(h, RoomName(project(s), channel));
    assert RoomsOf(Forgotten(h, socket), s) == RoomsOf(h, s);
  }

  lemma DisconnectKeeps(sys: System, project: string -> string, socket: string)
    requires Invariant(sys, project) && socket in sys.hub.members
    ensures Invariant(Step(sys, Disconnect(socket), project), project)
  {
    var next, start := Step(sys, Disconnect(socket), project), Hangup(sys.hub, socket);
    var names := TrackedBy(sys.hub, socket);
    DisconnectedConsistent(sys.hub, project, socket);
    HangupConsistent(sys.hub, project, socket);
    RemovedFromAllIsOut(start, socket, names);
    assert TrackedBy(start, socket) == names;
    forall s, c | (s, c) in next.synced
      ensures IsServed(next.hub, project, s, c, ViewsOf(next, s))
    {
      ServedNow(sys, project, s, c);
      ServedByHangup(sys.hub, project, socket, s, c, ViewsOf(sys, s));
      ServedByRemovals(start, project, socket, names, s, c, ViewsOf(sys, s));
      ServedByForgetting(RemovedFromAll(start, socket, names), project, socket, s, c, ViewsOf(sys, s));
      assert ViewsOf(next, s) == ViewsOf(sys, s);
    }
  }

  lemma ReceiveKeeps(sys: System, project: string -> string, socket: string)
    requires Invariant(sys, project) && socket in sys.hub.members && sys.hub.inbox[socket] != []
    ensures Invariant(Step(sys, Receive(socket), project), project)
  {
    var next := Step(sys, Receive(socket), project);
    InboxOnly(sys.hub, next.hub, project);
    forall s, c | (s, c) in next.synced
      ensures IsServed(next.hub, project, s, c, ViewsOf(next, s))
    {
      ServedNow(sys, project, s, c);
      ServedByDelivery(sys.hub, project, socket, s, c, ViewsOf(sys, s));
    }
  }

  lemma ViewKeeps(sys: System, project: string -> string, event: Event)
    requires Invariant(sys, project) && (event.Subscribe? || event.Unsubscribe?)
    ensures Invariant(Step(sys, event, project), project)
  {
    var next := Step(sys, event, project);
    forall s, c | (s, c) in next.synced
      ensures IsServed(next.hub, project, s, c, ViewsOf(next, s))
    {
      ServedNow(sys, project, s, c);
    }
  }

  lemma StepKeeps(sys: System, project: string -> string, event: Event)
    requires Invariant(sys, project)
    ensures Invariant(Step(sys, event, project), project)
  {
    var s := event.socket;
    if event.Connect? {
      ConnectKeeps(sys, project, s, event.carried);
    } else if s in sys.hub.members {
      match event
      case Join(_, c) => JoinKeeps(sys, project, s, c);
      case Track(_, c, user, status, time) => TrackKeeps(sys, project, s, c, user, status, time);
      case Leave(_, c) => LeaveKeeps(sys, project, s, c);
      case Disconnect(_) => DisconnectKeeps(sys, project, s);
      case Receive(_) =>
        if sys.hub.inbox[s] != [] {
          ReceiveKeeps(sys, project, s);
        }
      case _ => ViewKeeps(sys, project, event);
    }
  }

  lemma {:induction false} RunKeeps(events: seq<Event>, project: string -> string)
    ensures Invariant(Run(events, project), project)
  {
    if events != [] {
      RunKeeps(events[..|events| - 1], project);
      StepKeeps(Run(events[..|events| - 1], project), project, events[|events| - 1]);
    }
  }

  /** In every run: a synced client that has received everything sees exactly the server's room. */
  lemma SyncedClientsSeeTheRoom(events: seq<Event>, project: string -> string, socket: string, channel: string)
    requires var sys := Run(events, project);
      (socket, channel) in sys.synced && channel in ViewsOf(sys, socket)
    ensures var sys := Run(events, project);
      && socket in sys.hub.inbox
      && Drained(ViewsOf(sys, socket)[channel], sys.hub.inbox[socket], channel) ==
         RoomView(RoomAt(sys.hub, RoomName(project(socket), channel)))
  {
    RunKeeps(events, project);
    ServedNow(Run(events, project), project, socket, channel);
  }

  /** In every run: whoever has a meta in a room is connected, so a disconnected socket is in none. */
  lemma OnlyConnectedAreIn(events: seq<Event>, project: string -> string, socket: string, name: string)
    ensures IsIn(Run(events, project).hub, socket, name) ==> socket in Run(events, project).hub.members
  {
    RunKeeps(events, project);
    var h := Run(events, project).hub;
    if IsIn(h, socket, name) {
      assert name in TrackedBy(h, socket);
    }
  }
}
