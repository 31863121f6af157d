/** The client's rooms: lists of metas per key, kept up to date from snapshots and diffs. */
module RealtimeClients {
  import opened Wrappers
  import opened Presence

  type MetaLists = map<string, seq<Meta>>

  function AsSet(metas: seq<Meta>): set<Meta> {
    set m | m in metas
  }

  function ListView(lists: MetaLists): Presences {
    map key | key in lists :: AsSet(lists[key])
  }

  function ViewOfAll(rooms: map<string, MetaLists>): map<string, Presences> {
    map channel | channel in rooms :: ListView(rooms[channel])
  }

  /** `existing.filter(meta => !removed.some(other => other.phx_ref === meta.phx_ref))`. */
  function Filtered(metas: seq<Meta>, removed: seq<Meta>): seq<Meta> {
    if metas == [] then []
    else Filtered(metas[..|metas| - 1], removed)
         + if metas[|metas| - 1].ref in Refs(AsSet(removed)) then [] else [metas[|metas| - 1]]
  }

  lemma {:induction false} FilteredAsSet(metas: seq<Meta>, removed: seq<Meta>)
    ensures AsSet(Filtered(metas, removed)) == Remaining(AsSet(metas), AsSet(removed))
    ensures Filtered(metas, removed) == [] <==> Remaining(AsSet(metas), AsSet(removed)) == {}
  {
    if metas != [] {
      var init, last := metas[..|metas| - 1], metas[|metas| - 1];
      FilteredAsSet(init, removed);
      assert metas == init + [last];
      assert AsSet(metas) == AsSet(init) + {last};
      var f := Filtered(init, removed);
      assert AsSet(f + [last]) == AsSet(f) + {last} && f + [] == f;
      assert last.ref !in Refs(AsSet(removed)) ==> last in Remaining(AsSet(metas), AsSet(removed));
    }
  }

  function MetasOf(lists: MetaLists, key: string): seq<Meta> {
    if key in lists then lists[key] else []
  }

  /** The first loop: a key whose last meta leaves is deleted. */
  method ApplyLeaves(current: MetaLists, leaves: MetaLists) returns (next: MetaLists)
    ensures forall key :: key in next <==> Survives(ListView(current), ListView(leaves), key)
    ensures forall key | key in next :: AsSet(next[key]) == AfterLeaves(ListView(current), ListView(leaves), key)
  {
    next := current;
    var keys := leaves.Keys;
    while keys != {}
      invariant keys <= leaves.Keys
      invariant forall key :: key in next <==>
        if key in leaves && key !in keys then Filtered(MetasOf(current, key), leaves[key]) != [] else key in current
      invariant forall key | key in next ::
        next[key] == if key in leaves && key !in keys then Filtered(MetasOf(current, key), leaves[key])
                     else current[key]
      decreases keys
    {
      var key :| key in keys;
      keys := keys - {key};
      var existing := if key in next then next[key] else [];
      var remaining := Filtered(existing, leaves[key]);
      if |remaining| > 0 {
        next := next[key := remaining];
      } else {
        next := next - {key};
      }
    }
    forall key
      ensures key in next <==> Survives(ListView(current), ListView(leaves), key)
      ensures key in next ==> AsSet(next[key]) == AfterLeaves(ListView(current), ListView(leaves), key)
    {
      LeavesAt(current, leaves, key);
    }
  }

  lemma LeavesAt(current: MetaLists, leaves: MetaLists, key: string)
    ensures key in leaves ==>
      (Filtered(MetasOf(current, key), leaves[key]) != [] <==> Survives(ListView(current), ListView(leaves), key))
    ensures key !in leaves ==> (key in current <==> Survives(ListView(current), ListView(leaves), key))
    ensures AfterLeaves(ListView(current), ListView(leaves), key) ==
      AsSet(if key in leaves then Filtered(MetasOf(current, key), leaves[key]) else MetasOf(current, key))
  {
    assert MetasAt(ListView(current), key) == AsSet(MetasOf(current, key));
    if key in leaves {
      FilteredAsSet(MetasOf(current, key), leaves[key]);
    } else {
      NothingRemoved(AsSet(MetasOf(current, key)));
    }
  }

  /** The second loop: joining metas are appended. */
  method ApplyJoins(start: MetaLists, joins: MetaLists) returns (next: MetaLists)
    ensures forall key :: key in next <==> key in start || key in joins
    ensures forall key | key in next :: next[key] == MetasOf(start, key) + MetasOf(joins, key)
  {
    next := start;
    var keys := joins.Keys;
    assert forall key :: MetasOf(start, key) + [] == MetasOf(start, key);
    while keys != {}
      invariant keys <= joins.Keys
      invariant forall key :: key in next <==> key in start || (key in joins && key !in keys)
      invariant forall key | key in next ::
        next[key] == MetasOf(start, key) + if key in keys then [] else MetasOf(joins, key)
      decreases keys
    {
      var key :| key in keys;
      keys := keys - {key};
      var existing := if key in next then next[key] else [];
      next := next[key := existing + joins[key]];
    }
  }

  method ApplyPresenceDiff(current: MetaLists, joins: MetaLists, leaves: MetaLists) returns (next: MetaLists)
    ensures ListView(next) == Applied(ListView(current), ListView(joins), ListView(leaves))
  {
    var left := ApplyLeaves(current, leaves);
    next := ApplyJoins(left, joins);
    forall key
      ensures IsAppliedAt(ListView(current), ListView(joins), ListView(leaves), ListView(next), key)
    {
      JoinsAt(current, joins, leaves, left, next, key);
    }
    AppliedIs(ListView(current), ListView(joins), ListView(leaves), ListView(next));
  }

  lemma JoinsAt(current: MetaLists, joins: MetaLists, leaves: MetaLists, left: MetaLists, next: MetaLists, key: string)
    requires key in left <==> Survives(ListView(current), ListView(leaves), key)
    requires key in left ==> AsSet(left[key]) == AfterLeaves(ListView(current), ListView(leaves), key)
    requires key in next <==> key in left || key in joins
    requires key in next ==> next[key] == MetasOf(left, key) + MetasOf(joins, key)
    ensures IsAppliedAt(ListView(current), ListView(joins), ListView(leaves), ListView(next), key)
  {
    assert AsSet(MetasOf(left, key) + MetasOf(joins, key)) == AsSet(MetasOf(left, key)) + AsSet(MetasOf(joins, key));
    assert MetasAt(ListView(joins), key) == AsSet(MetasOf(joins, key));
    if key !in left {
      NotSurviving(ListView(current), ListView(leaves), key);
    }
  }

  lemma NotSurviving(current: Presences, leaves: Presences, key: string)
    requires !Survives(current, leaves, key)
    ensures AfterLeaves(current, leaves, key) == {}
  {
  }

  class RealtimeClient {
    var presenceRooms: map<string, MetaLists>

    /** The sets of metas the handlers are shown, per channel. */
    ghost function View(): map<string, Presences>
      reads this
    {
      ViewOfAll(presenceRooms)
    }

    constructor ()
      ensures View() == map[]
    {
      presenceRooms := map[];
    }

    /** `getOrCreatePresenceRoom`. */
    method SubscribeToPresence(channel: string)
      modifies this
      ensures View() == if channel in old(View()) then old(View()) else old(View())[channel := map[]]
    {
      if channel !in presenceRooms {
        presenceRooms := presenceRooms[channel := map[]];
      }
    }

    /** The last handler of a channel is gone. */
    method Unsubscribe(channel: string)
      modifies this
      ensures View() == old(View()) - {channel}
    {
      presenceRooms := presenceRooms - {channel};
    }

    method OnPresenceState(channel: string, state: MetaLists)
      modifies this
      ensures View() == map c | c in old(View()) :: Received(old(View())[c], Snapshot(channel, ListView(state)), c)
    {
      if channel in presenceRooms {
        presenceRooms := presenceRooms[channel := state];
      }
    }

    method OnPresenceDiff(channel: string, joins: MetaLists, leaves: MetaLists)
      modifies this
      ensures View() ==
        map c | c in old(View()) :: Received(old(View())[c], Diff(channel, ListView(joins), ListView(leaves)), c)
    {
      if channel in presenceRooms {
        var nextState := ApplyPresenceDiff(presenceRooms[channel], joins, leaves);
        presenceRooms := presenceRooms[channel := nextState];
      }
    }
  }
}
