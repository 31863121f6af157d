/** The presence handlers of the server, over its nested maps and the transport's memberships and queues. */
module RealtimeServer {
  import opened Wrappers
  import opened Presence
  import opened PresenceHub

  class RealtimeService {
    var presenceRooms: map<string, RoomState>
    var socketPresenceRooms: map<string, seq<string>>
    // The transport: rooms joined and packets not yet delivered, for each connected socket.
    var joined: map<string, set<string>>
    var queues: map<string, seq<Packet>>

    ghost function State(): Hub
      reads this
    {
      Hub(presenceRooms, socketPresenceRooms, joined, queues)
    }

    /** Rooms without keys are not kept. */
    ghost predicate Valid()
      reads this
    {
      forall name | name in presenceRooms :: presenceRooms[name] != map[]
    }

    constructor ()
      ensures Valid() && State() == Hub(map[], map[], map[], map[])
    {
      presenceRooms, socketPresenceRooms, joined, queues := map[], map[], map[], map[];
    }

    /** `socket.join(room)` and `recordSocketPresenceRoom`. */
    method EnterRoom(socketId: string, room: string)
      modifies this`joined, this`socketPresenceRooms
      ensures State() == Entered(old(State()), socketId, room)
    {
      var rooms := if socketId in joined then joined[socketId] else {};
      joined := joined[socketId := rooms + {room}];
      var recorded := if socketId in socketPresenceRooms then socketPresenceRooms[socketId] else [];
      socketPresenceRooms := socketPresenceRooms[socketId := if room in recorded then recorded else recorded + [room]];
    }

    /** `socket.leave(room)` and `removeSocketPresenceRoom`. */
    method LeaveRoom(socketId: string, room: string)
      modifies this`joined, this`socketPresenceRooms
      ensures State() == Exited(old(State()), socketId, room)
    {
      var rooms := if socketId in joined then joined[socketId] else {};
      joined := joined[socketId := rooms - {room}];
      if socketId in socketPresenceRooms {
        var rest := Dropped(socketPresenceRooms[socketId], room);
        if rest == [] {
          socketPresenceRooms := socketPresenceRooms - {socketId};
        } else {
          socketPresenceRooms := socketPresenceRooms[socketId := rest];
        }
      } else {
        assert socketPresenceRooms - {socketId} == socketPresenceRooms;
      }
    }

    /** `io.to(room).emit(...)`. */
    method Emit(room: string, packet: Packet)
      modifies this`queues
      ensures queues == Broadcast(old(State()), room, packet)
    {
      queues := map s | s in queues ::
        if s in joined && room in joined[s] then queues[s] + [packet] else queues[s];
    }

    method UpsertPresence(room: string, socketId: string, key: string, nextMeta: Meta)
      returns (joins: Presences, leaves: Presences)
      requires Valid()
      modifies this`presenceRooms
      ensures Valid()
      ensures presenceRooms ==
        WithRoom(old(presenceRooms), room, Upserted(RoomAt(old(State()), room), socketId, key, nextMeta))
      ensures joins == map[key := {nextMeta}] && leaves == Replaced(RoomAt(old(State()), room), socketId, key)
    {
      var roomState: RoomState := if room in presenceRooms then presenceRooms[room] else map[];
      var userState: map<string, Meta> := if key in roomState then roomState[key] else map[];
      leaves := if socketId in userState then map[key := {userState[socketId]}] else map[];
      userState := userState[socketId := nextMeta];
      roomState := roomState[key := userState];
      assert key in roomState;
      presenceRooms := presenceRooms[room := roomState];
      joins := map[key := {nextMeta}];
    }

    /** A room that has lost its last key is forgotten. */
    method StoreRoom(room: string, roomState: RoomState)
      requires Valid()
      modifies this`presenceRooms
      ensures Valid() && presenceRooms == WithRoom(old(presenceRooms), room, roomState)
    {
      if roomState == map[] {
        presenceRooms := presenceRooms - {room};
      } else {
        presenceRooms := presenceRooms[room := roomState];
      }
    }

    method RemoveSocketPresenceFromRoom(socketId: string, room: string, channel: string)
      requires Valid()
      modifies this`presenceRooms, this`queues
      ensures Valid() && State() == Removed(old(State()), socketId, room, channel)
    {
      if room !in presenceRooms {
        assert Departures(RoomAt(State(), room), socketId) == map[];
        return;
      }
      var roomState, leaves := RemoveFromKeys(presenceRooms[room], socketId);
      NobodyLeft(presenceRooms[room], socketId);
      StoreRoom(room, roomState);
      if leaves != map[] {
        Emit(room, Diff(channel, map[], leaves));
      } else {
        assert presenceRooms == old(presenceRooms);
      }
    }

    method CleanupSocketPresence(socketId: string)
      requires Valid()
      modifies this`presenceRooms, this`queues, this`socketPresenceRooms
      ensures Valid()
      ensures State() == Forgotten(RemovedFromAll(old(State()), socketId, TrackedBy(old(State()), socketId)), socketId)
    {
      if socketId !in socketPresenceRooms {
        assert socketPresenceRooms - {socketId} == socketPresenceRooms;
        return;
      }
      var rooms := socketPresenceRooms[socketId];
      for i := 0 to |rooms|
        invariant Valid() && rooms == TrackedBy(old(State()), socketId)
        invariant RemovedFromAll(old(State()), socketId, rooms) == RemovedFromAll(State(), socketId, rooms[i..])
      {
        assert rooms[i..][1..] == rooms[i + 1..];
        RemoveSocketPresenceFromRoom(socketId, rooms[i], ChannelOf(rooms[i]));
      }
      socketPresenceRooms := socketPresenceRooms - {socketId};
    }

    /** `presence_state` goes to the socket that asked; a token that is refused changes nothing. */
    method OnJoinPresence(socketId: string, projectId: string, channel: string, authorized: bool)
      requires Valid() && socketId in queues
      modifies this
      ensures Valid()
      ensures State() == if authorized then Joined(old(State()), socketId, projectId, channel) else old(State())
    {
      if !authorized {
        return;
      }
      var room := RoomName(projectId, channel);
      EnterRoom(socketId, room);
      var state := if room in presenceRooms then RoomView(presenceRooms[room]) else map[];
      queues := queues[socketId := queues[socketId] + [Snapshot(channel, state)]];
    }

    method OnLeavePresence(socketId: string, projectId: string, channel: string, authorized: bool)
      requires Valid()
      modifies this
      ensures Valid()
      ensures State() == if authorized then LeftRoom(old(State()), socketId, projectId, channel) else old(State())
    {
      if !authorized {
        return;
      }
      var room := RoomName(projectId, channel);
      RemoveSocketPresenceFromRoom(socketId, room, channel);
      LeaveRoom(socketId, room);
    }

    method OnPresence(socketId: string, projectId: string, channel: string, userId: string, status: string, now: nat,
                      authorized: bool)
      requires Valid()
      modifies this
      ensures Valid()
      ensures State() == if !authorized then old(State()) else
        Tracked(old(State()), socketId, projectId, channel, userId,
                Meta(PhxRef(socketId, channel, now), userId, status, now))
    {
      if !authorized {
        return;
      }
      var room := RoomName(projectId, channel);
      var nextMeta := Meta(PhxRef(socketId, channel, now), userId, status, now);
      ghost var before := State();
      EnterRoom(socketId, room);
      TrackInRoom(before, socketId, room, channel, nextMeta);
    }

    method TrackInRoom(ghost before: Hub, socketId: string, room: string, channel: string, nextMeta: Meta)
      requires Valid() && State() == Entered(before, socketId, room)
      modifies this`presenceRooms, this`queues
      ensures Valid()
      ensures State() ==
        Changed(Entered(before, socketId, room), room,
                Upserted(RoomAt(before, room), socketId, nextMeta.user, nextMeta),
                Diff(channel, map[nextMeta.user := {nextMeta}],
                     Replaced(RoomAt(before, room), socketId, nextMeta.user)))
    {
      var joins, leaves := UpsertPresence(room, socketId, nextMeta.user, nextMeta);
      Emit(room, Diff(channel, joins, leaves));
    }

    /** By the time the handler runs the transport has taken the socket out of its rooms. */
    method OnDisconnect(socketId: string)
      requires Valid()
      modifies this
      ensures Valid() && State() == Disconnected(old(State()), socketId)
    {
      joined, queues := joined - {socketId}, queues - {socketId};
      CleanupSocketPresence(socketId);
    }
  }

  lemma NobodyLeft(room: RoomState, socket: string)
    ensures Departures(room, socket) == map[] ==> WithoutSocket(room, socket) == room
  {
    if Departures(room, socket) == map[] {
      forall key | key in room
        ensures socket !in room[key] && room[key] - {socket} == room[key]
      {
        assert key !in Departures(room, socket);
      }
    }
  }

  /** The loop over the keys of a room: the socket's metas go, and so do the keys they leave empty. */
  method RemoveFromKeys(room: RoomState, socketId: string) returns (roomState: RoomState, leaves: Presences)
    ensures roomState == WithoutSocket(room, socketId) && leaves == Departures(room, socketId)
  {
    roomState, leaves := room, map[];
    var keys := room.Keys;
    while keys != {}
      invariant keys <= room.Keys
      invariant forall key :: key in roomState <==> key in room && (key in keys || key in WithoutSocket(room, socketId))
      invariant forall key | key in roomState ::
        roomState[key] == if key in keys then room[key] else room[key] - {socketId}
      invariant forall key :: key in leaves <==> key in room && key !in keys && socketId in room[key]
      invariant forall key | key in leaves :: leaves[key] == {room[key][socketId]}
      decreases keys
    {
      var key :| key in keys;
      keys := keys - {key};
      var metas := roomState[key];
      if socketId in metas {
        leaves := leaves[key := {metas[socketId]}];
        roomState := roomState[key := metas - {socketId}];
        if roomState[key] == map[] {
          OnlyOne(metas, socketId);
          roomState := roomState - {key};
        } else {
          NotOnlyOne(metas, socketId);
        }
      } else {
        assert metas - {socketId} == metas;
      }
    }
  }

  lemma OnlyOne(metas: map<string, Meta>, socketId: string)
    requires socketId in metas && metas - {socketId} == map[]
    ensures metas.Keys == {socketId}
  {
    forall s | s in metas
      ensures s == socketId
    {
      assert s !in metas - {socketId};
    }
  }

  lemma NotOnlyOne(metas: map<string, Meta>, socketId: string)
    requires metas - {socketId} != map[]
    ensures metas.Keys != {socketId}
  {
    var s :| s in metas - {socketId};
  }
}
