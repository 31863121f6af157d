/** The server's side of presence: rooms, memberships, and the packets on their way to each socket. */
module PresenceHub {
  import opened Wrappers
  import opened Text
  import opened Presence

  /**
   * `tracked` are the rooms a socket has to be cleaned out of, in the order recorded; `members` are the rooms
   * the transport delivers to, for each connected socket; `inbox` is what each socket has not received yet.
   */
  datatype Hub = Hub(
    rooms: map<string, RoomState>,
    tracked: map<string, seq<string>>,
    members: map<string, set<string>>,
    inbox: map<string, seq<Packet>>)

  function RoomAt(h: Hub, name: string): RoomState {
    if name in h.rooms then h.rooms[name] else map[]
  }

  function TrackedBy(h: Hub, socket: string): seq<string> {
    if socket in h.tracked then h.tracked[socket] else []
  }

  function RoomsOf(h: Hub, socket: string): set<string> {
    if socket in h.members then h.members[socket] else {}
  }

  /** `recordSocketPresenceRoom`: a JavaScript `Set` keeps the order of insertion. */
  function Recorded(rooms: seq<string>, name: string): seq<string> {
    if name in rooms then rooms else rooms + [name]
  }

  function Dropped(rooms: seq<string>, name: string): (r: seq<string>)
    ensures forall n :: n in r <==> n in rooms && n != name
  {
    if rooms == [] then []
    else if rooms[0] == name then Dropped(rooms[1..], name)
    else [rooms[0]] + Dropped(rooms[1..], name)
  }

  /** A room without keys is no room. */
  function WithRoom(rooms: map<string, RoomState>, name: string, room: RoomState): map<string, RoomState> {
    if room == map[] then rooms - {name} else rooms[name := room]
  }

  /** `io.to(room).emit(...)`. */
  function Broadcast(h: Hub, name: string, packet: Packet): map<string, seq<Packet>> {
    map s | s in h.inbox :: if name in RoomsOf(h, s) then h.inbox[s] + [packet] else h.inbox[s]
  }

  function Entered(h: Hub, socket: string, name: string): Hub {
    h.(members := h.members[socket := RoomsOf(h, socket) + {name}],
       tracked := h.tracked[socket := Recorded(TrackedBy(h, socket), name)])
  }

  function Exited(h: Hub, socket: string, name: string): Hub {
    var rest := Dropped(TrackedBy(h, socket), name);
    h.(members := h.members[socket := RoomsOf(h, socket) - {name}],
       tracked := if rest == [] then h.tracked - {socket} else h.tracked[socket := rest])
  }

  function Pushed(h: Hub, socket: string, packet: Packet): Hub
    requires socket in h.inbox
  {
    h.(inbox := h.inbox[socket := h.inbox[socket] + [packet]])
  }

  function Changed(h: Hub, name: string, room: RoomState, packet: Packet): Hub {
    h.(rooms := WithRoom(h.rooms, name, room), inbox := Broadcast(h, name, packet))
  }

  /** `removeSocketPresenceFromRoom`: silent when the socket had nothing in the room. */
  function Removed(h: Hub, socket: string, name: string, channel: string): Hub {
    var room := RoomAt(h, name);
    if Departures(room, socket) == map[] then h
    else Changed(h, name, WithoutSocket(room, socket), Diff(channel, map[], Departures(room, socket)))
  }

  function RemovedFromAll(h: Hub, socket: string, names: seq<string>): Hub
    decreases |names|
  {
    if names == [] then h
    else RemovedFromAll(Removed(h, socket, names[0], ChannelOf(names[0])), socket, names[1..])
  }

  function Connected(h: Hub, socket: string): Hub {
    h.(members := h.members[socket := {}], inbox := h.inbox[socket := []])
  }

  /** `join_presence`. */
  function Joined(h: Hub, socket: string, project: string, channel: string): Hub
    requires socket in h.inbox
  {
    var name := RoomName(project, channel);
    Pushed(Entered(h, socket, name), socket, Snapshot(channel, RoomView(RoomAt(h, name))))
  }

  /** `presence`. */
  function Tracked(h: Hub, socket: string, project: string, channel: string, user: string, meta: Meta): Hub {
    var name := RoomName(project, channel);
    var room := RoomAt(h, name);
    Changed(Entered(h, socket, name), name, Upserted(room, socket, user, meta),
            Diff(channel, map[user := {meta}], Replaced(room, socket, user)))
  }

  /** `leave_presence`: the socket itself still hears of its departure. */
  function LeftRoom(h: Hub, socket: string, project: string, channel: string): Hub {
    var name := RoomName(project, channel);
    Exited(Removed(h, socket, name, channel), socket, name)
  }

  /** The transport takes the socket out of its rooms before the handler of `disconnect` runs. */
  function Hangup(h: Hub, socket: string): Hub {
    h.(members := h.members - {socket}, inbox := h.inbox - {socket})
  }

  function Forgotten(h: Hub, socket: string): Hub {
    h.(tracked := h.tracked - {socket})
  }

  function Disconnected(h: Hub, socket: string): Hub {
    Forgotten(RemovedFromAll(Hangup(h, socket), socket, TrackedBy(h, socket)), socket)
  }

  /** A socket has a meta in a room. */
  ghost predicate IsIn(h: Hub, socket: string, name: string) {
    exists key :: HasMeta(RoomAt(h, name), socket, key)
  }

  predicate HasMeta(room: RoomState, socket: string, key: string) {
    key in room && socket in room[key]
  }

  ghost predicate AreRooms(h: Hub) {
    forall name | name in h.rooms :: IsRoom(h.rooms[name])
  }

  /** Every socket can be cleaned out of every room it is in. */
  ghost predicate IsCovered(h: Hub) {
    forall socket, name {:trigger IsIn(h, socket, name)} :: IsIn(h, socket, name) ==> name in TrackedBy(h, socket)
  }

  /** The server's record of a connected socket's rooms is the transport's. */
  ghost predicate AreMatched(h: Hub) {
    && h.inbox.Keys == h.members.Keys
    && forall socket, name {:trigger name in RoomsOf(h, socket)} {:trigger name in TrackedBy(h, socket)} ::
      socket in h.members ==> (name in RoomsOf(h, socket) <==> name in TrackedBy(h, socket))
  }

  /** Sockets are in rooms of their own project only, and the names of these rooms tell the channel. */
  ghost predicate AreNamed(h: Hub, project: string -> string) {
    forall socket, name {:trigger name in TrackedBy(h, socket)} ::
      name in TrackedBy(h, socket) ==> ':' !in project(socket) && name == RoomName(project(socket), ChannelOf(name))
  }

  ghost predicate IsConsistent(h: Hub, project: string -> string) {
    AreRooms(h) && IsCovered(h) && AreMatched(h) && AreNamed(h, project)
  }

  /** No record of a socket that is not connected. */
  ghost predicate IsTidy(h: Hub) {
    h.tracked.Keys <= h.members.Keys
  }

  /** What a socket sees of a channel once it has received everything is what the room holds. */
  ghost predicate Agrees(h: Hub, project: string -> string, socket: string, channel: string, view: Presences) {
    socket in h.inbox
    && Drained(view, h.inbox[socket], channel) == RoomView(RoomAt(h, RoomName(project(socket), channel)))
  }

  lemma WithRoomAt(h: Hub, name: string, room: RoomState, packet: Packet, other: string)
    ensures RoomAt(Changed(h, name, room, packet), other) == if other == name then room else RoomAt(h, other)
  {
  }

  /** A change of a room told to all its members keeps everybody's view in agreement, whichever channel it is of. */
  lemma ChangeAgrees(h: Hub, project: string -> string, p: string, c: string, room: RoomState, joins: Presences,
                     leaves: Presences, socket: string, channel: string, view: Presences)
    requires AreMatched(h) && AreNamed(h, project) && ':' !in p
    requires Applied(RoomView(RoomAt(h, RoomName(p, c))), joins, leaves) == RoomView(room)
    requires socket in h.members && RoomName(project(socket), channel) in h.members[socket]
    requires Agrees(h, project, socket, channel, view)
    ensures Agrees(Changed(h, RoomName(p, c), room, Diff(c, joins, leaves)), project, socket, channel, view)
  {
    var name, own, packet := RoomName(p, c), RoomName(project(socket), channel), Diff(c, joins, leaves);
    assert own in TrackedBy(h, socket) && own in RoomsOf(h, socket);
    WithRoomAt(h, name, room, packet, own);
    DrainedSnoc(view, h.inbox[socket], packet, channel);
    if own == name {
      RoomNameInjective(p, c, project(socket), channel);
    } else if name in RoomsOf(h, socket) {
      assert name in TrackedBy(h, socket);
      OtherChannel(project(socket), p, c, name);
    }
  }

  lemma OtherChannel(q: string, p: string, c: string, name: string)
    requires ':' !in p && ':' !in q && name == RoomName(p, c) && name == RoomName(q, ChannelOf(name))
    ensures p == q && RoomName(q, c) == name
  {
    RoomNameInjective(p, c, q, ChannelOf(name));
  }

  lemma SameRooms(h: Hub, next: Hub)
    requires next.rooms == h.rooms
    ensures forall s, n {:trigger IsIn(next, s, n)} {:trigger IsIn(h, s, n)} :: IsIn(next, s, n) <==> IsIn(h, s, n)
  {
    assert forall n :: RoomAt(next, n) == RoomAt(h, n);
  }

  /** The records differ in one socket's entry for one room, which is made or taken away in both. */
  ghost predicate IsReRecorded(h: Hub, next: Hub, socket: string, name: string, there: bool) {
    && next.rooms == h.rooms && next.inbox == h.inbox && next.members.Keys == h.members.Keys
    && (forall s, n {:trigger n in TrackedBy(next, s)} ::
      n in TrackedBy(next, s) <==> if s == socket && n == name then there else n in TrackedBy(h, s))
    && (forall s, n {:trigger n in RoomsOf(next, s)} ::
      n in RoomsOf(next, s) <==> if s == socket && n == name then there else n in RoomsOf(h, s))
  }

  lemma EnteredRecords(h: Hub, socket: string, name: string)
    requires socket in h.members
    ensures IsReRecorded(h, Entered(h, socket, name), socket, name, true)
  {
  }

  lemma ExitedRecords(h: Hub, socket: string, name: string)
    requires socket in h.members
    ensures IsReRecorded(h, Exited(h, socket, name), socket, name, false)
  {
  }

  lemma ReRecordedCovered(h: Hub, next: Hub, socket: string, name: string, there: bool)
    requires IsCovered(h) && IsReRecorded(h, next, socket, name, there) && (there || !IsIn(h, socket, name))
    ensures IsCovered(next)
  {
    SameRooms(h, next);
    forall s, n | IsIn(next, s, n)
      ensures n in TrackedBy(next, s)
    {
      assert IsIn(h, s, n);
    }
  }

  lemma ReRecordedConsistent(h: Hub, next: Hub, project: string -> string, socket: string, name: string, there: bool)
    requires IsConsistent(h, project) && IsReRecorded(h, next, socket, name, there) && (there || !IsIn(h, socket, name))
    requires there ==> ':' !in project(socket) && name == RoomName(project(socket), ChannelOf(name))
    ensures IsConsistent(next, project)
  {
    ReRecordedCovered(h, next, socket, name, there);
  }

  lemma EnteredConsistent(h: Hub, project: string -> string, socket: string, channel: string)
    requires IsConsistent(h, project) && socket in h.members && ':' !in project(socket)
    ensures IsConsistent(Entered(h, socket, RoomName(project(socket), channel)), project)
  {
    var name := RoomName(project(socket), channel);
    ChannelFound(project(socket), channel);
    EnteredRecords(h, socket, name);
    ReRecordedConsistent(h, Entered(h, socket, name), project, socket, name, true);
  }

  lemma ExitedConsistent(h: Hub, project: string -> string, socket: string, name: string)
    requires IsConsistent(h, project) && socket in h.members && !IsIn(h, socket, name)
    ensures IsConsistent(Exited(h, socket, name), project)
  {
    ExitedRecords(h, socket, name);
    ReRecordedConsistent(h, Exited(h, socket, name), project, socket, name, false);
  }

  /** Everybody with a meta in the new room may be cleaned out of it. */
  ghost predicate MayHold(h: Hub, name: string, room: RoomState) {
    forall socket, key {:trigger HasMeta(room, socket, key)} :: HasMeta(room, socket, key) ==>
      name in TrackedBy(h, socket)
  }

  lemma ChangedConsistent(h: Hub, project: string -> string, name: string, room: RoomState, packet: Packet)
    requires IsConsistent(h, project) && IsRoom(room) && MayHold(h, name, room)
    ensures IsConsistent(Changed(h, name, room, packet), project)
  {
    var next := Changed(h, name, room, packet);
    forall s, n | IsIn(next, s, n)
      ensures n in TrackedBy(next, s)
    {
      WithRoomAt(h, name, room, packet, n);
      var key :| HasMeta(RoomAt(next, n), s, key);
      if n != name {
        assert IsIn(h, s, n);
      }
    }
    assert forall s :: RoomsOf(next, s) == RoomsOf(h, s) && TrackedBy(next, s) == TrackedBy(h, s);
  }

  lemma RoomAtIsRoom(h: Hub, name: string)
    requires AreRooms(h)
    ensures IsRoom(RoomAt(h, name))
  {
  }

  lemma UpsertMayHold(h: Hub, name: string, socket: string, user: string, meta: Meta)
    requires IsCovered(h) && name in TrackedBy(h, socket)
    ensures MayHold(h, name, Upserted(RoomAt(h, name), socket, user, meta))
  {
    var room := RoomAt(h, name);
    forall s, key | HasMeta(Upserted(room, socket, user, meta), s, key)
      ensures name in TrackedBy(h, s)
    {
      if s != socket {
        assert HasMeta(room, s, key);
        assert IsIn(h, s, name);
      }
    }
  }

  lemma DepartureMayHold(h: Hub, name: string, socket: string)
    requires IsCovered(h)
    ensures MayHold(h, name, WithoutSocket(RoomAt(h, name), socket))
  {
    var room := RoomAt(h, name);
    forall s, key | HasMeta(WithoutSocket(room, socket), s, key)
      ensures name in TrackedBy(h, s)
    {
      assert HasMeta(room, s, key);
      assert IsIn(h, s, name);
    }
  }

  lemma RemovedConsistent(h: Hub, project: string -> string, socket: string, name: string, channel: string)
    requires IsConsistent(h, project)
    ensures IsConsistent(Removed(h, socket, name, channel), project)
  {
    RoomAtIsRoom(h, name);
    DepartureIsRoom(RoomAt(h, name), socket);
    DepartureMayHold(h, name, socket);
    if Departures(RoomAt(h, name), socket) != map[] {
      ChangedConsistent(h, project, name, WithoutSocket(RoomAt(h, name), socket),
                        Diff(channel, map[], Departures(RoomAt(h, name), socket)));
    }
  }

  /** A removal takes the socket out of the room, and nobody is put into any. */
  lemma RemovedIsOut(h: Hub, socket: string, name: string, channel: string)
    ensures !IsIn(Removed(h, socket, name, channel), socket, name)
    ensures forall s, n {:trigger IsIn(Removed(h, socket, name, channel), s, n)} ::
      IsIn(Removed(h, socket, name, channel), s, n) ==> IsIn(h, s, n)
    ensures Removed(h, socket, name, channel).members == h.members
    ensures Removed(h, socket, name, channel).tracked == h.tracked
  {
    var room, next := RoomAt(h, name), Removed(h, socket, name, channel);
    if Departures(room, socket) == map[] {
      forall key
        ensures !HasMeta(room, socket, key)
      {
        assert key !in Departures(room, socket);
      }
    } else {
      forall s, n | IsIn(next, s, n)
        ensures IsIn(h, s, n) && (s == socket ==> n != name)
      {
        WithRoomAt(h, name, WithoutSocket(room, socket), Diff(channel, map[], Departures(room, socket)), n);
        var key :| HasMeta(RoomAt(next, n), s, key);
        assert HasMeta(RoomAt(h, n), s, key);
      }
    }
  }

  lemma HangupConsistent(h: Hub, project: string -> string, socket: string)
    requires IsConsistent(h, project)
    ensures IsConsistent(Hangup(h, socket), project)
  {
    var next := Hangup(h, socket);
    SameRooms(h, next);
    assert forall s :: TrackedBy(next, s) == TrackedBy(h, s);
    assert forall s :: s != socket ==> RoomsOf(next, s) == RoomsOf(h, s);
    assert IsCovered(next) by {
      assert forall s, n {:trigger IsIn(next, s, n)} :: IsIn(next, s, n) ==> IsIn(h, s, n);
    }
  }

  lemma {:induction false} RemovedFromAllConsistent(h: Hub, project: string -> string, socket: string,
                                                    names: seq<string>)
    requires IsConsistent(h, project)
    ensures IsConsistent(RemovedFromAll(h, socket, names), project)
    decreases |names|
  {
    if names != [] {
      RemovedConsistent(h, project, socket, names[0], ChannelOf(names[0]));
      RemovedFromAllConsistent(Removed(h, socket, names[0], ChannelOf(names[0])), project, socket, names[1..]);
    }
  }

  lemma {:induction false} RemovedFromAllIsOut(h: Hub, socket: string, names: seq<string>)
    ensures forall n {:trigger IsIn(RemovedFromAll(h, socket, names), socket, n)} ::
      IsIn(RemovedFromAll(h, socket, names), socket, n) ==> IsIn(h, socket, n) && n !in names
    ensures RemovedFromAll(h, socket, names).members == h.members
    ensures RemovedFromAll(h, socket, names).tracked == h.tracked
    decreases |names|
  {
    if names != [] {
      var next := Removed(h, socket, names[0], ChannelOf(names[0]));
      RemovedIsOut(h, socket, names[0], ChannelOf(names[0]));
      RemovedFromAllIsOut(next, socket, names[1..]);
      assert names == [names[0]] + names[1..];
    }
  }

  /** After the handler of `disconnect`, no room holds a meta of the socket and nothing is recorded for it. */
  lemma DisconnectedIsOut(h: Hub, project: string -> string, socket: string)
    requires IsConsistent(h, project)
    ensures forall name {:trigger IsIn(Disconnected(h, socket), socket, name)} ::
      !IsIn(Disconnected(h, socket), socket, name)
    ensures socket !in Disconnected(h, socket).members && socket !in Disconnected(h, socket).tracked
  {
    var start, names := Hangup(h, socket), TrackedBy(h, socket);
    var after := RemovedFromAll(start, socket, names);
    HangupConsistent(h, project, socket);
    assert TrackedBy(start, socket) == names;
    RemovedFromAllIsOut(start, socket, names);
    SameRooms(after, Disconnected(h, socket));
  }

  lemma ForgottenConsistent(h: Hub, project: string -> string, socket: string)
    requires IsConsistent(h, project) && socket !in h.members
    requires forall name {:trigger IsIn(h, socket, name)} :: !IsIn(h, socket, name)
    ensures IsConsistent(Forgotten(h, socket), project)
  {
    var next := Forgotten(h, socket);
    SameRooms(h, next);
    assert forall s :: s != socket ==> TrackedBy(next, s) == TrackedBy(h, s);
    assert forall s :: RoomsOf(next, s) == RoomsOf(h, s);
    assert IsCovered(next) by {
      assert forall s, n {:trigger IsIn(next, s, n)} :: IsIn(next, s, n) ==> IsIn(h, s, n) && s != socket;
    }
  }

  lemma DisconnectedConsistent(h: Hub, project: string -> string, socket: string)
    requires IsConsistent(h, project)
    ensures IsConsistent(Disconnected(h, socket), project)
  {
    var start, names := Hangup(h, socket), TrackedBy(h, socket);
    var after := RemovedFromAll(start, socket, names);
    HangupConsistent(h, project, socket);
    RemovedFromAllConsistent(start, project, socket, names);
    RemovedFromAllIsOut(start, socket, names);
    DisconnectedIsOut(h, project, socket);
    SameRooms(after, Disconnected(h, socket));
    ForgottenConsistent(after, project, socket);
  }
}
