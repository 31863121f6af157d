/** Who is in a room, told from the events alone. */
module PresenceHistory {
  import opened Wrappers
  import opened Text
  import opened Presence
  import opened PresenceHub
  import opened PresenceRuns

  /** A user a socket tracks in a channel of its project, and what it last said of it. */
  datatype Spot = Spot(socket: string, channel: string, user: string)
  datatype Mark = Mark(status: string, time: nat)

  /** The sockets that have connected and not disconnected since. */
  ghost function Online(events: seq<Event>, project: string -> string): set<string> {
    if events == [] then {}
    else
      var before := Online(events[..|events| - 1], project);
      match events[|events| - 1]
      case Connect(s, _) => if ':' in s || ':' in project(s) then before else before + {s}
      case Disconnect(s) => before - {s}
      case _ => before
  }

  ghost function AfterLeave(present: map<Spot, Mark>, s: string, c: string): map<Spot, Mark> {
    map spot | spot in present && !(spot.socket == s && spot.channel == c) :: present[spot]
  }

  ghost function AfterDisconnect(present: map<Spot, Mark>, s: string): map<Spot, Mark> {
    map spot | spot in present && spot.socket != s :: present[spot]
  }

  ghost function NextPresent(present: map<Spot, Mark>, event: Event, online: set<string>): map<Spot, Mark> {
    match event
    case Track(s, c, user, status, time) =>
      if s in online then present[Spot(s, c, user) := Mark(status, time)] else present
    case Leave(s, c) => AfterLeave(present, s, c)
    case Disconnect(s) => AfterDisconnect(present, s)
    case _ => present
  }

  /** What has been tracked by a socket that has neither left the channel nor disconnected since. */
  ghost function Present(events: seq<Event>, project: string -> string): map<Spot, Mark> {
    if events == [] then map[]
    else
      var earlier := events[..|events| - 1];
      NextPresent(Present(earlier, project), events[|events| - 1], Online(earlier, project))
  }

  /** The meta of a socket in a room. */
  ghost function MetaAt(h: Hub, name: string, socket: string, user: string): Option<Meta> {
    if name in h.rooms && user in h.rooms[name] && socket in h.rooms[name][user] then Some(h.rooms[name][user][socket])
    else None
  }

  ghost function RoomOf(project: string, channel: string): string {
    "project:" + project + ":presence:" + channel
  }

  ghost function MetaFor(spot: Spot, mark: Mark): Meta {
    Meta(spot.socket + ":" + spot.channel + ":" + Numeral(mark.time), spot.user, mark.status, mark.time)
  }

  /** The meta a socket should have in the room of a project's channel. */
  ghost function Due(present: map<Spot, Mark>, project: string -> string, p: string, spot: Spot): Option<Meta> {
    if project(spot.socket) == p && spot in present then Some(MetaFor(spot, present[spot])) else None
  }

  lemma RoomOfIs(p: string, c: string)
    ensures RoomOf(p, c) == RoomName(p, c)
  {
    assert "project" + [':'] == "project:" && [':'] + ("presence" + [':']) == ":presence:";
  }

  lemma MetaForIs(spot: Spot, mark: Mark)
    ensures MetaFor(spot, mark) ==
      Meta(PhxRef(spot.socket, spot.channel, mark.time), spot.user, mark.status, mark.time)
  {
  }

  lemma RemovedMeta(h: Hub, socket: string, room: string, channel: string, name: string, s: string, user: string)
    ensures MetaAt(Removed(h, socket, room, channel), name, s, user) ==
      if name == room && s == socket then None else MetaAt(h, name, s, user)
  {
    var state := RoomAt(h, room);
    if Departures(state, socket) == map[] {
      assert name == room && s == socket && MetaAt(h, name, s, user).Some? ==> user in Departures(state, socket);
    } else {
      var packet := Diff(channel, map[], Departures(state, socket));
      WithRoomAt(h, room, WithoutSocket(state, socket), packet, name);
    }
  }

  lemma {:induction false} RemovedFromAllMeta(h: Hub, socket: string, names: seq<string>, name: string, s: string,
                                              user: string)
    ensures MetaAt(RemovedFromAll(h, socket, names), name, s, user) ==
      if name in names && s == socket then None else MetaAt(h, name, s, user)
    decreases |names|
  {
    if names != [] {
      RemovedMeta(h, socket, names[0], ChannelOf(names[0]), name, s, user);
      RemovedFromAllMeta(Removed(h, socket, names[0], ChannelOf(names[0])), socket, names[1..], name, s, user);
      assert names == [names[0]] + names[1..];
    }
  }

  lemma DisconnectedMeta(h: Hub, socket: string, name: string, s: string, user: string)
    requires IsCovered(h)
    ensures MetaAt(Disconnected(h, socket), name, s, user) == if s == socket then None else MetaAt(h, name, s, user)
  {
    RemovedFromAllMeta(Hangup(h, socket), socket, TrackedBy(h, socket), name, s, user);
    if s == socket && MetaAt(h, name, s, user).Some? {
      assert HasMeta(RoomAt(h, name), socket, user);
      assert IsIn(h, socket, name);
    }
  }

  lemma TrackedMeta(h: Hub, socket: string, p: string, c: string, u: string, meta: Meta, name: string, s: string,
                    user: string)
    ensures MetaAt(Tracked(h, socket, p, c, u, meta), name, s, user) ==
      if name == RoomName(p, c) && s == socket && user == u then Some(meta) else MetaAt(h, name, s, user)
  {
    var room, entered := RoomName(p, c), Entered(h, socket, RoomName(p, c));
    var state := RoomAt(h, room);
    var packet := Diff(c, map[u := {meta}], Replaced(state, socket, u));
    WithRoomAt(entered, room, Upserted(state, socket, u, meta), packet, name);
    MetaIsAt(h, name, s, user);
    MetaIsAt(Tracked(h, socket, p, c, u, meta), name, s, user);
  }

  lemma MetaIsAt(h: Hub, name: string, socket: string, user: string)
    ensures MetaAt(h, name, socket, user) == var room := RoomAt(h, name);
      if user in room && socket in room[user] then Some(room[user][socket]) else None
  {
  }

  ghost predicate Shows(h: Hub, present: map<Spot, Mark>, project: string -> string, p: string, spot: Spot) {
    MetaAt(h, RoomName(p, spot.channel), spot.socket, spot.user) == Due(present, project, p, spot)
  }

  lemma SameRoom(p: string, c: string, q: string, d: string)
    requires ':' !in p && ':' !in q
    ensures RoomName(p, c) == RoomName(q, d) <==> p == q && c == d
  {
    if RoomName(p, c) == RoomName(q, d) {
      RoomNameInjective(p, c, q, d);
    }
  }

  lemma OfflineIsOut(events: seq<Event>, project: string -> string, name: string, socket: string, user: string)
    requires socket !in Run(events, project).hub.members
    ensures MetaAt(Run(events, project).hub, name, socket, user) == None
  {
    var h := Run(events, project).hub;
    OnlyConnectedAreIn(events, project, socket, name);
    assert MetaAt(h, name, socket, user).Some? ==> HasMeta(RoomAt(h, name), socket, user);
  }

  /** The sockets connected in a run are those the events say. */
  lemma {:induction false} RunOnline(events: seq<Event>, project: string -> string)
    ensures Run(events, project).hub.members.Keys == Online(events, project)
  {
    if events != [] {
      var earlier, event := events[..|events| - 1], events[|events| - 1];
      RunOnline(earlier, project);
      RunKeeps(earlier, project);
      StepOnline(Run(earlier, project), event, project);
    }
  }

  lemma {:induction false} RemovedFromAllMembers(h: Hub, socket: string, names: seq<string>)
    ensures RemovedFromAll(h, socket, names).members == h.members
    decreases |names|
  {
    if names != [] {
      RemovedFromAllMembers(Removed(h, socket, names[0], ChannelOf(names[0])), socket, names[1..]);
    }
  }

  lemma StepOnline(sys: System, event: Event, project: string -> string)
    requires Invariant(sys, project)
    ensures var before, after, s := sys.hub.members.Keys, Step(sys, event, project).hub.members.Keys, event.socket;
      after == match event
        case Connect(_, _) => if ':' in s || ':' in project(s) then before else before + {s}
        case Disconnect(_) => before - {s}
        case _ => before
  {
    var h, s := sys.hub, event.socket;
    if event.Disconnect? {
      RemovedFromAllMembers(Hangup(h, s), s, TrackedBy(h, s));
    }
  }

  lemma TrackShows(h: Hub, present: map<Spot, Mark>, project: string -> string, p: string, spot: Spot, at: Spot,
                   mark: Mark)
    requires Shows(h, present, project, p, spot) && ':' !in p && ':' !in project(at.socket)
    ensures
      var meta := Meta(PhxRef(at.socket, at.channel, mark.time), at.user, mark.status, mark.time);
      Shows(Tracked(h, at.socket, project(at.socket), at.channel, at.user, meta), present[at := mark], project, p, spot)
  {
    var meta := Meta(PhxRef(at.socket, at.channel, mark.time), at.user, mark.status, mark.time);
    TrackedMeta(h, at.socket, project(at.socket), at.channel, at.user, meta, RoomName(p, spot.channel), spot.socket,
                spot.user);
    SameRoom(project(at.socket), at.channel, p, spot.channel);
    MetaForIs(at, mark);
  }

  lemma LeaveShows(h: Hub, present: map<Spot, Mark>, project: string -> string, p: string, spot: Spot, s: string,
                   c: string)
    requires Shows(h, present, project, p, spot) && ':' !in p && ':' !in project(s)
    ensures Shows(LeftRoom(h, s, project(s), c), AfterLeave(present, s, c), project, p, spot)
  {
    RemovedMeta(h, s, RoomName(project(s), c), c, RoomName(p, spot.channel), spot.socket, spot.user);
    SameRoom(project(s), c, p, spot.channel);
  }

  lemma DisconnectShows(h: Hub, present: map<Spot, Mark>, project: string -> string, p: string, spot: Spot, s: string)
    requires Shows(h, present, project, p, spot) && IsCovered(h)
    ensures Shows(Disconnected(h, s), AfterDisconnect(present, s), project, p, spot)
  {
    DisconnectedMeta(h, s, RoomName(p, spot.channel), spot.socket, spot.user);
  }

  /** An event of a socket that is not connected changes no room, and there is nothing of it to take away. */
  lemma OfflineShows(sys: System, event: Event, present: map<Spot, Mark>, project: string -> string, p: string,
                     spot: Spot)
    requires Shows(sys.hub, present, project, p, spot) && event.socket !in sys.hub.members
    requires spot.socket == event.socket ==> MetaAt(sys.hub, RoomName(p, spot.channel), spot.socket, spot.user) == None
    ensures Shows(Step(sys, event, project).hub, NextPresent(present, event, sys.hub.members.Keys), project, p, spot)
  {
    assert Step(sys, event, project).hub.rooms == sys.hub.rooms;
  }

  lemma OnlineShows(sys: System, event: Event, present: map<Spot, Mark>, project: string -> string, p: string,
                    spot: Spot)
    requires Shows(sys.hub, present, project, p, spot) && event.socket in sys.hub.members && ':' !in p
    requires IsCovered(sys.hub) && ':' !in project(event.socket) && event.socket in sys.hub.inbox
    ensures Shows(Step(sys, event, project).hub, NextPresent(present, event, sys.hub.members.Keys), project, p, spot)
  {
    var h, s := sys.hub, event.socket;
    match event
    case Track(_, c, user, status, time) =>
      TrackShows(h, present, project, p, spot, Spot(s, c, user), Mark(status, time));
    case Leave(_, c) => LeaveShows(h, present, project, p, spot, s, c);
    case Disconnect(_) => DisconnectShows(h, present, project, p, spot, s);
    case _ => assert Step(sys, event, project).hub.rooms == h.rooms;
  }

  lemma {:induction false} RunShows(events: seq<Event>, project: string -> string, p: string, spot: Spot)
    requires ':' !in p
    ensures Shows(Run(events, project).hub, Present(events, project), project, p, spot)
  {
    if events != [] {
      var earlier, event := events[..|events| - 1], events[|events| - 1];
      var sys := Run(earlier, project);
      RunShows(earlier, project, p, spot);
      RunKeeps(earlier, project);
      RunOnline(earlier, project);
      if event.socket in sys.hub.members {
        OnlineShows(sys, event, Present(earlier, project), project, p, spot);
      } else {
        OfflineIsOut(earlier, project, RoomName(p, spot.channel), event.socket, spot.user);
        OfflineShows(sys, event, Present(earlier, project), project, p, spot);
      }
    }
  }

  /** In every run a room holds what its sockets have tracked since they last left it, and nothing else. */
  lemma RoomsTellThePresent(events: seq<Event>, project: string -> string, p: string, spot: Spot)
    requires ':' !in p
    ensures MetaAt(Run(events, project).hub, RoomOf(p, spot.channel), spot.socket, spot.user) ==
      Due(Present(events, project), project, p, spot)
  {
    RunShows(events, project, p, spot);
    RoomOfIs(p, spot.channel);
  }

  lemma RoomShowsMetas(h: Hub, name: string, user: string, m: Meta)
    ensures var view := RoomView(RoomAt(h, name));
      user in view && m in view[user] <==> exists s :: MetaAt(h, name, s, user) == Some(m)
  {
    var room := RoomAt(h, name);
    if user in room && m in room[user].Values {
      var s :| s in room[user] && room[user][s] == m;
      assert MetaAt(h, name, s, user) == Some(m);
    }
  }

  /**
   * A synced client that has received everything sees, under each user, what the sockets of its project have tracked in
   * the channel since they last left it, and nothing else.
   */
  lemma ClientsSeeThePresent(events: seq<Event>, project: string -> string, socket: string, channel: string,
                             user: string, m: Meta)
    requires var sys := Run(events, project);
      (socket, channel) in sys.synced && socket in sys.views && channel in sys.views[socket]
      && socket in sys.hub.inbox && sys.hub.inbox[socket] == []
    ensures var view := Run(events, project).views[socket][channel];
      user in view && m in view[user] <==>
        exists s :: Due(Present(events, project), project, project(socket), Spot(s, channel, user)) == Some(m)
  {
    var h, p, name := Run(events, project).hub, project(socket), RoomName(project(socket), channel);
    RunKeeps(events, project);
    SyncedClientsSeeTheRoom(events, project, socket, channel);
    RoomShowsMetas(h, name, user, m);
    forall s
      ensures MetaAt(h, name, s, user) == Due(Present(events, project), project, p, Spot(s, channel, user))
    {
      RunShows(events, project, p, Spot(s, channel, user));
    }
  }

  // ----- The channels a client holds

  /** The channels a socket has subscribed to, or brought along when it connected, and not given up since. */
  ghost function Subscribed(events: seq<Event>, project: string -> string): set<(string, string)> {
    if events == [] then {}
    else
      var earlier := events[..|events| - 1];
      NextSubscribed(Subscribed(earlier, project), events[|events| - 1], Online(earlier, project), project)
  }

  ghost function NextSubscribed(before: set<(string, string)>, event: Event, online: set<string>,
                                project: string -> string): set<(string, string)>
  {
    match event
    case Connect(s, carried) =>
      if s in online || ':' in s || ':' in project(s) then before else before + set c | c in carried :: (s, c)
    case Subscribe(s, c) => if s in online then before + {(s, c)} else before
    case Unsubscribe(s, c) => before - {(s, c)}
    case Disconnect(s) => set pair | pair in before && pair.0 != s
    case _ => before
  }

  ghost predicate Views(sys: System, socket: string, channel: string) {
    socket in sys.views && channel in sys.views[socket]
  }

  /** The channels held are those in `subscribed`. */
  ghost predicate Holds(sys: System, subscribed: set<(string, string)>, socket: string, channel: string) {
    && (Views(sys, socket, channel) <==> (socket, channel) in subscribed)
    && (socket !in sys.hub.members ==> socket !in sys.views)
  }

  lemma OfflineViews(sys: System, event: Event, project: string -> string, before: set<(string, string)>,
                     socket: string, channel: string)
    requires Holds(sys, before, socket, channel) && event.socket !in sys.hub.members
    ensures Views(Step(sys, event, project), socket, channel) <==>
      (socket, channel) in NextSubscribed(before, event, sys.hub.members.Keys, project)
  {
  }

  lemma OnlineViews(sys: System, event: Event, project: string -> string, before: set<(string, string)>,
                    socket: string, channel: string)
    requires Holds(sys, before, socket, channel) && event.socket in sys.hub.members && event.socket in sys.hub.inbox
    ensures Views(Step(sys, event, project), socket, channel) <==>
      (socket, channel) in NextSubscribed(before, event, sys.hub.members.Keys, project)
  {
  }

  lemma StepViews(sys: System, event: Event, project: string -> string, before: set<(string, string)>, socket: string,
                  channel: string)
    requires Invariant(sys, project) && Holds(sys, before, socket, channel)
    ensures Holds(Step(sys, event, project), NextSubscribed(before, event, sys.hub.members.Keys, project), socket,
                  channel)
  {
    StepOnline(sys, event, project);
    if event.socket in sys.hub.members {
      OnlineViews(sys, event, project, before, socket, channel);
    } else {
      OfflineViews(sys, event, project, before, socket, channel);
    }
  }

  lemma {:induction false} RunViews(events: seq<Event>, project: string -> string, socket: string, channel: string)
    ensures Holds(Run(events, project), Subscribed(events, project), socket, channel)
  {
    if events != [] {
      var earlier, event := events[..|events| - 1], events[|events| - 1];
      RunViews(earlier, project, socket, channel);
      RunKeeps(earlier, project);
      RunOnline(earlier, project);
      StepViews(Run(earlier, project), event, project, Subscribed(earlier, project), socket, channel);
    }
  }

  /** A client holds just the channels it has subscribed to and not given up. */
  lemma ClientsHoldTheSubscribed(events: seq<Event>, project: string -> string, socket: string, channel: string)
    ensures socket in Run(events, project).views && channel in Run(events, project).views[socket] <==>
      (socket, channel) in Subscribed(events, project)
  {
    RunViews(events, project, socket, channel);
  }

  lemma SyncedStays(sys: System, event: Event, project: string -> string, socket: string, channel: string)
    requires (socket, channel) in sys.synced
    requires event.socket == socket ==> !event.Disconnect? && event != Leave(socket, channel)
    requires event == Subscribe(socket, channel) ==> Views(sys, socket, channel)
    ensures (socket, channel) in Step(sys, event, project).synced
  {
  }

  /** Every subscription of the channel in `later` finds it subscribed already. */
  ghost predicate AreRepeated(events: seq<Event>, later: seq<Event>, project: string -> string, socket: string,
                              channel: string)
  {
    forall i :: 0 <= i < |later| && later[i] == Subscribe(socket, channel) ==>
      (socket, channel) in Subscribed(events + later[..i], project)
  }

  lemma JoinSyncs(events: seq<Event>, socket: string, channel: string, project: string -> string)
    requires socket in Online(events, project)
    ensures (socket, channel) in Run(events + [Join(socket, channel)], project).synced
  {
    var joined := events + [Join(socket, channel)];
    assert joined[..|joined| - 1] == events;
    RunOnline(events, project);
    RunKeeps(events, project);
  }

  lemma FewerRepeated(events: seq<Event>, later: seq<Event>, project: string -> string, socket: string,
                      channel: string)
    requires later != [] && AreRepeated(events, later, project, socket, channel)
    ensures AreRepeated(events, later[..|later| - 1], project, socket, channel)
    ensures later[|later| - 1] == Subscribe(socket, channel) ==>
      (socket, channel) in Subscribed(events + later[..|later| - 1], project)
  {
    var less := later[..|later| - 1];
    assert forall i :: 0 <= i < |less| ==> less[i] == later[i] && less[..i] == later[..i];
  }

  /** A client that joins while it is connected is synced, until it leaves, subscribes anew or disconnects. */
  lemma {:induction false} JoinedIsSynced(events: seq<Event>, socket: string, channel: string, later: seq<Event>,
                                          project: string -> string)
    requires socket in Online(events, project)
    requires forall e :: e in later && e.socket == socket ==> !e.Disconnect? && e != Leave(socket, channel)
    requires AreRepeated(events + [Join(socket, channel)], later, project, socket, channel)
    ensures (socket, channel) in Run(events + [Join(socket, channel)] + later, project).synced
    decreases |later|
  {
    var joined := events + [Join(socket, channel)];
    if later == [] {
      assert joined + later == joined;
      JoinSyncs(events, socket, channel, project);
    } else {
      var less, last, all := later[..|later| - 1], later[|later| - 1], joined + later;
      assert all[..|all| - 1] == joined + less && all[|all| - 1] == last && last in later;
      FewerRepeated(joined, later, project, socket, channel);
      JoinedIsSynced(events, socket, channel, less, project);
      RunViews(joined + less, project, socket, channel);
      SyncedStays(Run(joined + less, project), last, project, socket, channel);
    }
  }
}
