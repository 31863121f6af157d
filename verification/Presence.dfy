/** Presence on values: what a room holds, what the packets about it say, and what a receiver makes of them. */
module Presence {
  import opened Wrappers
  import opened Text

  datatype Meta = Meta(ref: string, user: string, status: string, timestamp: nat)

  /** `PresenceState`, up to the order of the metas of a key. */
  type Presences = map<string, set<Meta>>

  /** One room of the server: for each key the metas of the sockets that track it. */
  type RoomState = map<string, map<string, Meta>>

  datatype Packet =
    | Snapshot(channel: string, state: Presences)
    | Diff(channel: string, joins: Presences, leaves: Presences)

  function Piece(piece: string, rest: string): string {
    piece + ([':'] + rest)
  }

  /** `project:${projectId}:presence:${channel}`. */
  function RoomName(project: string, channel: string): string {
    Piece("project", Piece(project, Piece("presence", channel)))
  }

  function PhxRef(socket: string, channel: string, time: nat): string {
    Piece(socket, Piece(channel, Numeral(time)))
  }

  /** The part of a reference in front of the first colon. */
  function SocketOf(ref: string): string {
    ref[..Span(c => c != ':', ref)]
  }

  lemma RefNamesSocket(socket: string, channel: string, time: nat)
    requires ':' !in socket
    ensures SocketOf(PhxRef(socket, channel, time)) == socket
  {
    SpanStops(c => c != ':', socket, [':'] + Piece(channel, Numeral(time)));
  }

  /** What is left when `n` pieces between colons are skipped: `split(':').slice(n).join(':')`. */
  function AfterColons(s: string, n: nat): string {
    if n == 0 then s
    else
      var i := IndexOf(s, ':');
      if i == -1 then "" else AfterColons(s[i + 1..], n - 1)
  }

  /** The channel `cleanupSocketPresence` reads off the name of a room. */
  function ChannelOf(room: string): string {
    AfterColons(room, 3)
  }

  lemma SkipPiece(piece: string, rest: string, n: nat)
    requires ':' !in piece && n > 0
    ensures AfterColons(Piece(piece, rest), n) == AfterColons(rest, n - 1)
  {
    SpanStops(c => c != ':', piece, [':'] + rest);
    assert Piece(piece, rest)[|piece| + 1..] == rest;
  }

  /** However many colons a piece has itself, skipping one leaves everything behind the piece. */
  lemma SkipWithin(piece: string, rest: string)
    ensures |AfterColons(Piece(piece, rest), 1)| >= |rest|
  {
    assert Piece(piece, rest)[|piece|] == ':';
  }

  lemma ChannelFound(project: string, channel: string)
    requires ':' !in project
    ensures ChannelOf(RoomName(project, channel)) == channel
  {
    SkipPiece("project", Piece(project, Piece("presence", channel)), 3);
    SkipPiece(project, Piece("presence", channel), 2);
    SkipPiece("presence", channel, 1);
  }

  lemma CutPiece(piece: string, rest: string, i: nat)
    requires i < |piece| && piece[i] == ':'
    ensures Piece(piece, rest) == Piece(piece[..i], Piece(piece[i + 1..], rest))
  {
    assert piece == piece[..i] + ([':'] + piece[i + 1..]);
  }

  lemma ChannelMisread(project: string, channel: string)
    requires ':' in project
    ensures |ChannelOf(RoomName(project, channel))| > |channel|
  {
    var tail := Piece("presence", channel);
    SkipPiece("project", Piece(project, tail), 3);
    var i := IndexOf(project, ':');
    CutPiece(project, tail, i);
    SkipPiece(project[..i], Piece(project[i + 1..], tail), 2);
    SkipWithin(project[i + 1..], tail);
    assert |tail| > |channel|;
  }

  /** The name of a room gives the channel back exactly when the project's id has no colon. */
  lemma ChannelOfRoomName(project: string, channel: string)
    ensures ChannelOf(RoomName(project, channel)) == channel <==> ':' !in project
  {
    if ':' in project {
      ChannelMisread(project, channel);
    } else {
      ChannelFound(project, channel);
    }
  }

  lemma FirstPiece(piece: string, rest: string)
    requires ':' !in piece
    ensures SocketOf(Piece(piece, rest)) == piece
  {
    SpanStops(c => c != ':', piece, [':'] + rest);
  }

  lemma RoomNameInjective(p: string, c: string, q: string, d: string)
    requires ':' !in p && ':' !in q && RoomName(p, c) == RoomName(q, d)
    ensures p == q && c == d
  {
    ChannelFound(p, c);
    ChannelFound(q, d);
    SkipPiece("project", Piece(p, Piece("presence", c)), 1);
    SkipPiece("project", Piece(q, Piece("presence", d)), 1);
    FirstPiece(p, Piece("presence", c));
    FirstPiece(q, Piece("presence", d));
  }

  function Refs(metas: set<Meta>): set<string> {
    set m | m in metas :: m.ref
  }

  function Remaining(metas: set<Meta>, removed: set<Meta>): set<Meta> {
    set m | m in metas && m.ref !in Refs(removed)
  }

  function MetasAt(p: Presences, key: string): set<Meta> {
    if key in p then p[key] else {}
  }

  /** A key survives the leaves unless they take its last meta. */
  predicate Survives(current: Presences, leaves: Presences, key: string) {
    key in current && (key in leaves ==> Remaining(current[key], leaves[key]) != {})
  }

  function AfterLeaves(current: Presences, leaves: Presences, key: string): set<Meta> {
    Remaining(MetasAt(current, key), MetasAt(leaves, key))
  }

  /** `applyPresenceDiff`. */
  function Applied(current: Presences, joins: Presences, leaves: Presences): Presences {
    map key | key in current.Keys + joins.Keys && (Survives(current, leaves, key) || key in joins) ::
      AfterLeaves(current, leaves, key) + MetasAt(joins, key)
  }

  function RoomView(room: RoomState): Presences {
    map key | key in room :: room[key].Values
  }

  /** No key is without a meta, and each meta carries the id of its socket. */
  ghost predicate IsRoom(room: RoomState) {
    forall key | key in room :: IsUser(room[key])
  }

  ghost predicate IsUser(metas: map<string, Meta>) {
    metas != map[] && forall s | s in metas :: SocketOf(metas[s].ref) == s
  }

  /** The metas at a key; none when there is no such key. */
  function UserAt(room: RoomState, key: string): map<string, Meta> {
    if key in room then room[key] else map[]
  }

  function Upserted(room: RoomState, socket: string, key: string, meta: Meta): RoomState {
    room[key := UserAt(room, key)[socket := meta]]
  }

  function Replaced(room: RoomState, socket: string, key: string): Presences {
    if socket in UserAt(room, key) then map[key := {UserAt(room, key)[socket]}] else map[]
  }

  function WithoutSocket(room: RoomState, socket: string): RoomState {
    map key | key in room && (socket in room[key] ==> room[key].Keys != {socket}) :: room[key] - {socket}
  }

  function Departures(room: RoomState, socket: string): Presences {
    map key | key in room && socket in room[key] :: {room[key][socket]}
  }

  lemma OtherRef(metas: map<string, Meta>, socket: string, other: string)
    requires (forall s | s in metas :: SocketOf(metas[s].ref) == s) && socket in metas && other in metas
    requires socket != other
    ensures metas[socket].ref != metas[other].ref
  {
  }

  /** Taking the previous meta of a socket away and adding the new one is what happened to the user. */
  lemma UserUpserted(metas: map<string, Meta>, socket: string, meta: Meta)
    requires forall s | s in metas :: SocketOf(metas[s].ref) == s
    requires SocketOf(meta.ref) == socket
    ensures metas[socket := meta].Values ==
      Remaining(metas.Values, if socket in metas then {metas[socket]} else {}) + {meta}
  {
    var removed := if socket in metas then {metas[socket]} else {};
    var next := metas[socket := meta];
    assert socket in metas ==> metas[socket].ref in Refs(removed);
    forall m | m in next.Values
      ensures m in Remaining(metas.Values, removed) + {meta}
    {
      var s :| s in next && next[s] == m;
      assert s != socket ==> m in metas.Values;
    }
    forall m | m in Remaining(metas.Values, removed) + {meta}
      ensures m in next.Values
    {
      var s :| if m == meta then s == socket else s in metas && metas[s] == m;
      assert next[s] == m;
    }
  }

  lemma UserWithout(metas: map<string, Meta>, socket: string)
    requires (forall s | s in metas :: SocketOf(metas[s].ref) == s) && socket in metas
    ensures (metas - {socket}).Values == Remaining(metas.Values, {metas[socket]})
  {
    var next := metas - {socket};
    assert metas[socket].ref in Refs({metas[socket]});
    forall m | m in Remaining(metas.Values, {metas[socket]})
      ensures m in next.Values
    {
      var s :| s in metas && metas[s] == m;
      assert next[s] == m;
    }
    forall m | m in next.Values
      ensures m in Remaining(metas.Values, {metas[socket]})
    {
      var s :| s in next && next[s] == m;
      OtherRef(metas, socket, s);
    }
  }

  lemma NobodyElse(metas: map<string, Meta>, socket: string)
    requires socket in metas
    ensures (metas - {socket}).Values == {} <==> metas.Keys == {socket}
  {
    var next := metas - {socket};
    if metas.Keys != {socket} {
      var s :| s in metas && s != socket;
      assert next[s] in next.Values;
    }
  }

  lemma NothingRemoved(metas: set<Meta>)
    ensures Remaining(metas, {}) == metas
  {
    assert Refs({}) == {};
  }

  lemma UserIsUser(room: RoomState, key: string)
    requires IsRoom(room)
    ensures forall s | s in UserAt(room, key) :: SocketOf(UserAt(room, key)[s].ref) == s
  {
  }

  /** What applying a packet does to one key. */
  predicate IsAppliedAt(current: Presences, joins: Presences, leaves: Presences, next: Presences, key: string) {
    && (key in next <==> Survives(current, leaves, key) || key in joins)
    && (key in next ==> next[key] == AfterLeaves(current, leaves, key) + MetasAt(joins, key))
  }

  lemma AppliedIs(current: Presences, joins: Presences, leaves: Presences, next: Presences)
    requires forall key :: IsAppliedAt(current, joins, leaves, next, key)
    ensures Applied(current, joins, leaves) == next
  {
    forall key
      ensures key in next <==> key in Applied(current, joins, leaves)
      ensures key in next ==> next[key] == Applied(current, joins, leaves)[key]
    {
      assert IsAppliedAt(current, joins, leaves, next, key);
    }
  }

  lemma UpsertAt(room: RoomState, socket: string, key: string, meta: Meta, k: string)
    requires IsRoom(room) && SocketOf(meta.ref) == socket
    ensures IsAppliedAt(RoomView(room), map[key := {meta}], Replaced(room, socket, key),
                        RoomView(Upserted(room, socket, key, meta)), k)
  {
    if k == key {
      UserIsUser(room, key);
      UserUpserted(UserAt(room, key), socket, meta);
      assert MetasAt(RoomView(room), key) == UserAt(room, key).Values;
    } else if k in room {
      NothingRemoved(room[k].Values);
    }
  }

  /** Whoever saw the room before and applies the packet of an upsert sees the room after it. */
  lemma UpsertAgrees(room: RoomState, socket: string, key: string, meta: Meta)
    requires IsRoom(room) && SocketOf(meta.ref) == socket
    ensures Applied(RoomView(room), map[key := {meta}], Replaced(room, socket, key)) ==
      RoomView(Upserted(room, socket, key, meta))
  {
    forall k
      ensures IsAppliedAt(RoomView(room), map[key := {meta}], Replaced(room, socket, key),
                          RoomView(Upserted(room, socket, key, meta)), k)
    {
      UpsertAt(room, socket, key, meta, k);
    }
    AppliedIs(RoomView(room), map[key := {meta}], Replaced(room, socket, key),
              RoomView(Upserted(room, socket, key, meta)));
  }

  lemma UpsertIsRoom(room: RoomState, socket: string, key: string, meta: Meta)
    requires IsRoom(room) && SocketOf(meta.ref) == socket
    ensures IsRoom(Upserted(room, socket, key, meta))
  {
    UserIsUser(room, key);
    assert IsUser(UserAt(room, key)[socket := meta]) by {
      assert socket in UserAt(room, key)[socket := meta];
    }
  }

  lemma DepartureOfMember(room: RoomState, socket: string, k: string)
    requires k in room && IsUser(room[k]) && socket in room[k]
    ensures IsAppliedAt(RoomView(room), map[], Departures(room, socket), RoomView(WithoutSocket(room, socket)), k)
  {
    UserWithout(room[k], socket);
    NobodyElse(room[k], socket);
  }

  lemma DepartureAt(room: RoomState, socket: string, k: string)
    requires IsRoom(room)
    ensures IsAppliedAt(RoomView(room), map[], Departures(room, socket), RoomView(WithoutSocket(room, socket)), k)
  {
    if k in room && socket in room[k] {
      assert IsUser(room[k]);
      DepartureOfMember(room, socket, k);
    } else if k in room {
      NothingRemoved(room[k].Values);
      assert room[k] - {socket} == room[k];
    }
  }

  /** The same for the packet that tells of a socket's departure. */
  lemma DepartureAgrees(room: RoomState, socket: string)
    requires IsRoom(room)
    ensures Applied(RoomView(room), map[], Departures(room, socket)) == RoomView(WithoutSocket(room, socket))
  {
    forall k
      ensures IsAppliedAt(RoomView(room), map[], Departures(room, socket), RoomView(WithoutSocket(room, socket)), k)
    {
      DepartureAt(room, socket, k);
    }
    AppliedIs(RoomView(room), map[], Departures(room, socket), RoomView(WithoutSocket(room, socket)));
  }

  lemma UserLeft(metas: map<string, Meta>, socket: string)
    requires IsUser(metas) && (socket in metas ==> metas.Keys != {socket})
    ensures IsUser(metas - {socket})
  {
    if socket in metas {
      var s :| s in metas && s != socket;
      assert s in metas - {socket};
    } else {
      assert metas - {socket} == metas;
    }
  }

  lemma DepartureIsRoom(room: RoomState, socket: string)
    requires IsRoom(room)
    ensures IsRoom(WithoutSocket(room, socket))
  {
    forall k | k in WithoutSocket(room, socket)
      ensures IsUser(WithoutSocket(room, socket)[k])
    {
      UserLeft(room[k], socket);
    }
  }

  function Received(view: Presences, packet: Packet, channel: string): Presences {
    if packet.channel != channel then view
    else match packet
      case Snapshot(_, state) => state
      case Diff(_, joins, leaves) => Applied(view, joins, leaves)
  }

  /** The view of a channel once all packets have been received. */
  function Drained(view: Presences, packets: seq<Packet>, channel: string): Presences {
    if packets == [] then view
    else Received(Drained(view, packets[..|packets| - 1], channel), packets[|packets| - 1], channel)
  }

  lemma DrainedSnoc(view: Presences, packets: seq<Packet>, packet: Packet, channel: string)
    ensures Drained(view, packets + [packet], channel) == Received(Drained(view, packets, channel), packet, channel)
  {
    assert (packets + [packet])[..|packets|] == packets;
  }

  lemma {:induction false} DrainedCons(view: Presences, packets: seq<Packet>, channel: string)
    requires packets != []
    ensures Drained(view, packets, channel) == Drained(Received(view, packets[0], channel), packets[1..], channel)
    decreases |packets|
  {
    var n := |packets| - 1;
    if n > 0 {
      DrainedCons(view, packets[..n], channel);
      assert packets[..n][1..] == packets[1..][..n - 1];
    }
  }
}
