/** One storage channel: messages under strictly increasing ids, and the paging contract of `getMessages`. */
module MessageLog {
  import opened Wrappers

  datatype Message<T> = Message(id: nat, body: T)

  type Log<T> = seq<Message<T>>

  ghost predicate Ascending<T>(log: Log<T>) {
    forall i, j :: 0 <= i < j < |log| ==> log[i].id < log[j].id
  }

  /** The map id -> body that a log stands for. */
  function Contents<T>(log: Log<T>): map<nat, T> {
    if log == [] then map[]
    else Contents(log[..|log| - 1])[log[|log| - 1].id := log[|log| - 1].body]
  }

  lemma {:induction false} ContentsAt<T>(log: Log<T>, i: nat)
    requires Ascending(log) && i < |log|
    ensures log[i].id in Contents(log) && Contents(log)[log[i].id] == log[i].body
  {
    if i < |log| - 1 {
      ContentsAt(log[..|log| - 1], i);
    }
  }

  lemma {:induction false} ContentsIndex<T>(log: Log<T>, id: nat) returns (i: nat)
    requires Ascending(log) && id in Contents(log)
    ensures i < |log| && log[i].id == id && log[i].body == Contents(log)[id]
  {
    if log[|log| - 1].id == id {
      i := |log| - 1;
    } else {
      i := ContentsIndex(log[..|log| - 1], id);
    }
  }

  lemma ContentsMember<T>(log: Log<T>, m: Message<T>)
    requires Ascending(log)
    ensures m in log <==> m.id in Contents(log) && Contents(log)[m.id] == m.body
  {
    if m in log {
      var i :| 0 <= i < |log| && log[i] == m;
      ContentsAt(log, i);
    }
    if m.id in Contents(log) && Contents(log)[m.id] == m.body {
      var i := ContentsIndex(log, m.id);
      assert log[i] == m;
    }
  }

  predicate Kept<T>(m: Message<T>, offsetId: Option<nat>, minId: Option<nat>) {
    && (offsetId.Some? ==> m.id < offsetId.value)
    && (minId.Some? ==> m.id > minId.value)
  }

  /** The messages a paging request may see, oldest first. */
  function Window<T>(log: Log<T>, offsetId: Option<nat>, minId: Option<nat>): Log<T> {
    if log == [] then []
    else
      var m := log[|log| - 1];
      Window(log[..|log| - 1], offsetId, minId) + if Kept(m, offsetId, minId) then [m] else []
  }

  lemma {:induction false} WindowMember<T>(log: Log<T>, offsetId: Option<nat>, minId: Option<nat>, m: Message<T>)
    ensures m in Window(log, offsetId, minId) <==> m in log && Kept(m, offsetId, minId)
  {
    if log != [] {
      WindowMember(log[..|log| - 1], offsetId, minId, m);
      assert log == log[..|log| - 1] + [log[|log| - 1]];
    }
  }

  lemma {:induction false} WindowAscending<T>(log: Log<T>, offsetId: Option<nat>, minId: Option<nat>)
    requires Ascending(log)
    ensures Ascending(Window(log, offsetId, minId))
  {
    if log != [] {
      var front := log[..|log| - 1];
      WindowAscending(front, offsetId, minId);
      var w := Window(front, offsetId, minId);
      forall i | 0 <= i < |w|
        ensures w[i].id < log[|log| - 1].id
      {
        WindowMember(front, offsetId, minId, w[i]);
      }
    }
  }

  lemma {:induction false} WindowUnbounded<T>(log: Log<T>)
    ensures Window(log, None, None) == log
  {
    if log != [] {
      WindowUnbounded(log[..|log| - 1]);
    }
  }

  lemma {:induction false} WindowBelow<T>(log: Log<T>, offset: nat, minId: Option<nat>)
    requires forall i :: 0 <= i < |log| ==> log[i].id < offset
    ensures Window(log, Some(offset), minId) == Window(log, None, minId)
  {
    if log != [] {
      WindowBelow(log[..|log| - 1], offset, minId);
    }
  }

  /** Moving `offsetId` to a message of the window keeps exactly the part of the window before it. */
  lemma {:induction false} WindowBefore<T>(log: Log<T>, minId: Option<nat>, k: nat)
    requires Ascending(log) && k < |Window(log, None, minId)|
    ensures Window(log, Some(Window(log, None, minId)[k].id), minId) == Window(log, None, minId)[..k]
  {
    var front, last := log[..|log| - 1], log[|log| - 1];
    var w, fw := Window(log, None, minId), Window(front, None, minId);
    WindowAscending(log, None, minId);
    WindowMember(log, None, minId, w[k]);
    if k < |fw| {
      WindowBefore(front, minId, k);
      assert w[k] == fw[k];
      WindowMember(front, None, minId, w[k]);
    } else {
      assert w[k] == last && w[..k] == fw;
      WindowBelow(front, last.id, minId);
    }
  }

  function Reverse<T>(s: seq<T>): (r: seq<T>)
    ensures |r| == |s|
    ensures forall i :: 0 <= i < |s| ==> r[i] == s[|s| - 1 - i]
  {
    if s == [] then [] else [s[|s| - 1]] + Reverse(s[..|s| - 1])
  }

  function Newest<T>(w: seq<T>, limit: nat): seq<T> {
    if |w| <= limit then w else w[|w| - limit..]
  }

  /** One answer of `getMessages`: the newest `limit` visible messages, newest first. */
  function Page<T>(log: Log<T>, limit: nat, offsetId: Option<nat>, minId: Option<nat>): Log<T> {
    Reverse(Newest(Window(log, offsetId, minId), limit))
  }

  lemma ReverseSplit<T>(a: seq<T>, b: seq<T>)
    ensures Reverse(a + b) == Reverse(b) + Reverse(a)
  {
  }

  /** The stretch of the window that the next page shows. */
  lemma PageStretch<T>(w: seq<T>, k: nat)
    requires k <= |w|
    ensures
      var page := Reverse(Newest(w[..k], 200));
      && |page| == (if k < 200 then k else 200)
      && page == Reverse(w[k - |page|..k])
      && Reverse(w[k..]) + page == Reverse(w[k - |page|..])
  {
    var next := if k < 200 then 0 else k - 200;
    assert Newest(w[..k], 200) == w[next..k];
    assert w[next..k] + w[k..] == w[next..];
    ReverseSplit(w[next..k], w[k..]);
  }

  /** A page continues the backward walk: it is the next stretch of the window, and its last id the next offset. */
  lemma PageStep<T>(log: Log<T>, minId: Option<nat>, k: nat, offsetId: Option<nat>)
    requires Ascending(log) && k <= |Window(log, None, minId)|
    requires Window(log, offsetId, minId) == Window(log, None, minId)[..k]
    ensures
      var w, page := Window(log, None, minId), Page(log, 200, offsetId, minId);
      && |page| == (if k < 200 then k else 200)
      && page == Reverse(w[k - |page|..k])
      && Reverse(w[k..]) + page == Reverse(w[k - |page|..])
      && (page != [] ==> Window(log, Some(page[|page| - 1].id), minId) == w[..k - |page|])
  {
    var w, page := Window(log, None, minId), Page(log, 200, offsetId, minId);
    PageStretch(w, k);
    assert page == Reverse(Newest(w[..k], 200));
    if page != [] {
      assert page[|page| - 1] == w[k - |page|];
      WindowBefore(log, minId, k - |page|);
    }
  }

  /** Some message with id `m` passes the test. */
  ghost predicate Hits<T>(messages: Log<T>, test: Message<T> -> bool, m: nat) {
    exists j :: 0 <= j < |messages| && messages[j].id == m && test(messages[j])
  }

  lemma HitsAt<T>(messages: Log<T>, test: Message<T> -> bool, j: nat)
    requires j < |messages| && test(messages[j])
    ensures Hits(messages, test, messages[j].id)
  {
  }

  lemma HitsSplit<T>(a: Log<T>, b: Log<T>, test: Message<T> -> bool, m: nat)
    ensures Hits(a + b, test, m) <==> Hits(Reverse(a), test, m) || Hits(b, test, m)
  {
    if Hits(Reverse(a), test, m) {
      var j :| 0 <= j < |a| && Reverse(a)[j].id == m && test(Reverse(a)[j]);
      assert (a + b)[|a| - 1 - j] == Reverse(a)[j];
    }
    if Hits(b, test, m) {
      var j :| 0 <= j < |b| && b[j].id == m && test(b[j]);
      assert (a + b)[|a| + j] == b[j];
    }
    if Hits(a + b, test, m) {
      var j :| 0 <= j < |a + b| && (a + b)[j].id == m && test((a + b)[j]);
      if j < |a| {
        HitsAt(Reverse(a), test, |a| - 1 - j);
      } else {
        HitsAt(b, test, j - |a|);
      }
    }
  }

  /** What passes on a page of the walk, together with what has passed after it. */
  lemma HitsOnPage<T>(w: Log<T>, k: nat, page: Log<T>, test: Message<T> -> bool, ids: set<nat>, found: set<nat>)
    requires |page| <= k <= |w| && page == Reverse(w[k - |page|..k])
    requires forall m :: m in ids <==> Hits(w[k..], test, m)
    requires forall m :: m in found <==> Hits(page, test, m)
    ensures forall m :: m in ids + found <==> Hits(w[k - |page|..], test, m)
  {
    assert w[k - |page|..] == w[k - |page|..k] + w[k..];
    forall m
      ensures m in ids + found <==> Hits(w[k - |page|..], test, m)
    {
      HitsSplit(w[k - |page|..k], w[k..], test, m);
    }
  }

  lemma PageJoins<T>(w: seq<T>, k: nat, page: seq<T>)
    requires |page| <= k <= |w| && page == Reverse(w[k - |page|..k])
    ensures Reverse(w[k..]) + page == Reverse(w[k - |page|..])
  {
    assert w[k - |page|..] == w[k - |page|..k] + w[k..];
    ReverseSplit(w[k - |page|..k], w[k..]);
  }

  /** The ids of the messages of a page that pass the test. */
  method TakeIds<T>(page: Log<T>, test: Message<T> -> bool) returns (ids: set<nat>)
    ensures forall m :: m in ids <==> Hits(page, test, m)
  {
    ids := {};
    for i := 0 to |page|
      invariant forall m :: m in ids ==> Hits(page, test, m)
      invariant forall j :: 0 <= j < i && test(page[j]) ==> page[j].id in ids
    {
      if test(page[i]) {
        ids := ids + {page[i].id};
      }
    }
  }

  function InsertById<T>(m: Message<T>, sorted: Log<T>): Log<T> {
    if sorted == [] || m.id <= sorted[0].id then [m] + sorted
    else [sorted[0]] + InsertById(m, sorted[1..])
  }

  /** `messages.sort((left, right) => left.id - right.id)`. */
  function SortById<T>(messages: Log<T>): Log<T> {
    if messages == [] then [] else InsertById(messages[0], SortById(messages[1..]))
  }

  lemma {:induction false} InsertLargest<T>(m: Message<T>, sorted: Log<T>)
    requires forall i :: 0 <= i < |sorted| ==> sorted[i].id < m.id
    ensures InsertById(m, sorted) == sorted + [m]
  {
    if sorted != [] {
      InsertLargest(m, sorted[1..]);
    }
  }

  lemma {:induction false} SortDescending<T>(log: Log<T>)
    requires Ascending(log)
    ensures SortById(Reverse(log)) == log
  {
    if log != [] {
      SortDescending(log[..|log| - 1]);
      assert Reverse(log)[1..] == Reverse(log[..|log| - 1]);
      InsertLargest(log[|log| - 1], log[..|log| - 1]);
    }
  }

  function Without<T>(log: Log<T>, ids: set<nat>): Log<T> {
    if log == [] then []
    else Without(log[..|log| - 1], ids) + if log[|log| - 1].id in ids then [] else [log[|log| - 1]]
  }

  lemma {:induction false} WithoutMember<T>(log: Log<T>, ids: set<nat>, m: Message<T>)
    ensures m in Without(log, ids) <==> m in log && m.id !in ids
  {
    if log != [] {
      WithoutMember(log[..|log| - 1], ids, m);
      assert log == log[..|log| - 1] + [log[|log| - 1]];
    }
  }

  lemma {:induction false} WithoutAscending<T>(log: Log<T>, ids: set<nat>)
    requires Ascending(log)
    ensures Ascending(Without(log, ids))
  {
    if log != [] {
      var front, last := log[..|log| - 1], log[|log| - 1];
      WithoutAscending(front, ids);
      var kept := Without(front, ids);
      forall i | 0 <= i < |kept|
        ensures kept[i].id < last.id
      {
        WithoutMember(front, ids, kept[i]);
      }
    }
  }

  lemma {:induction false} WithoutBelow<T>(log: Log<T>, ids: set<nat>, bound: nat)
    requires forall i :: 0 <= i < |log| ==> log[i].id < bound
    ensures forall i :: 0 <= i < |Without(log, ids)| ==> Without(log, ids)[i].id < bound
  {
    if log != [] {
      WithoutBelow(log[..|log| - 1], ids, bound);
    }
  }

  lemma ContentsSnoc<T>(log: Log<T>, m: Message<T>)
    ensures Contents(log + [m]) == Contents(log)[m.id := m.body]
  {
    assert (log + [m])[..|log|] == log;
  }

  lemma {:induction false} WithoutContents<T>(log: Log<T>, ids: set<nat>)
    requires Ascending(log)
    ensures Contents(Without(log, ids)) == Contents(log) - ids
  {
    if log != [] {
      var front, last := log[..|log| - 1], log[|log| - 1];
      WithoutContents(front, ids);
      if last.id !in ids {
        ContentsSnoc(Without(front, ids), last);
        assert Contents(log) - ids == (Contents(front) - ids)[last.id := last.body];
      } else {
        assert Without(log, ids) == Without(front, ids);
      }
    }
  }

  lemma {:induction false} ReplaceContents<T>(log: Log<T>, i: nat, body: T)
    requires Ascending(log) && i < |log|
    ensures Contents(log[i := Message(log[i].id, body)]) == Contents(log)[log[i].id := body]
  {
    var front, last := log[..|log| - 1], log[|log| - 1];
    var edited := log[i := Message(log[i].id, body)];
    if i < |log| - 1 {
      ReplaceContents(front, i, body);
      assert edited[..|edited| - 1] == front[i := Message(log[i].id, body)];
    } else {
      assert edited[..|edited| - 1] == front;
    }
  }

  /** A channel of the storage provider. Ids are never used twice. */
  class Channel<T> {
    var log: Log<T>
    var nextId: nat

    ghost predicate Valid()
      reads this
    {
      Ascending(log) && forall i :: 0 <= i < |log| ==> log[i].id < nextId
    }

    ghost function View(): map<nat, T>
      reads this
    {
      Contents(log)
    }

    constructor ()
      ensures Valid() && View() == map[]
    {
      log, nextId := [], 1;
    }

    method Send(body: T) returns (id: nat)
      requires Valid()
      modifies this
      ensures Valid() && id == old(nextId) && nextId == id + 1
      ensures id !in old(View()) && View() == old(View())[id := body]
      ensures log == old(log) + [Message(id, body)]
    {
      id := nextId;
      if id in View() {
        ghost var i := ContentsIndex(log, id);
      }
      log := log + [Message(id, body)];
      nextId := nextId + 1;
      assert log[..|log| - 1] == old(log);
    }

    /** False when there is no such message: the provider throws and nothing changes. */
    method Edit(id: nat, body: T) returns (ok: bool)
      requires Valid()
      modifies this`log
      ensures Valid()
      ensures ok == (id in old(View())) && (ok ==> id < nextId)
      ensures View() == if ok then old(View())[id := body] else old(View())
    {
      var i := 0;
      while i < |log| && log[i].id != id
        invariant 0 <= i <= |log| && forall k :: 0 <= k < i ==> log[k].id != id
      {
        i := i + 1;
      }
      ok := i < |log|;
      if ok {
        ReplaceContents(log, i, body);
        ContentsAt(log, i);
        log := log[i := Message(id, body)];
      } else if id in View() {
        ghost var k := ContentsIndex(log, id);
      }
    }

    /** Unknown ids are ignored. */
    method Delete(ids: set<nat>)
      requires Valid()
      modifies this`log
      ensures Valid() && View() == old(View()) - ids
    {
      WithoutContents(log, ids);
      WithoutAscending(log, ids);
      WithoutBelow(log, ids, nextId);
      log := Without(log, ids);
    }

    method Get(id: nat) returns (body: Option<T>)
      requires Valid()
      ensures body == if id in View() then Some(View()[id]) else None
    {
      var i := 0;
      while i < |log| && log[i].id != id
        invariant 0 <= i <= |log| && forall k :: 0 <= k < i ==> log[k].id != id
      {
        i := i + 1;
      }
      if i < |log| {
        ContentsAt(log, i);
        body := Some(log[i].body);
      } else {
        if id in View() {
          ghost var k := ContentsIndex(log, id);
        }
        body := None;
      }
    }

    method GetMessages(limit: nat, offsetId: Option<nat>, minId: Option<nat>) returns (page: Log<T>)
      ensures page == Page(log, limit, offsetId, minId)
    {
      page := Page(log, limit, offsetId, minId);
    }

    /** One step of a backward walk over the messages after `minId`, the oldest `k` of which are still to be seen. */
    method NextPage(offsetId: Option<nat>, minId: Option<nat>, ghost k: nat) returns (page: Log<T>)
      requires Valid() && k <= |Window(log, None, minId)|
      requires Window(log, offsetId, minId) == Window(log, None, minId)[..k]
      ensures |page| == (if k < 200 then k else 200)
      ensures page == Reverse(Window(log, None, minId)[k - |page|..k])
      ensures page != [] ==> Window(log, Some(page[|page| - 1].id), minId) == Window(log, None, minId)[..k - |page|]
    {
      page := GetMessages(200, offsetId, minId);
      PageStep(log, minId, k, offsetId);
    }

    /** Walks back over the messages after `minId` and collects the ids of those that pass the test. */
    method CollectIds(minId: nat, test: Message<T> -> bool) returns (ids: set<nat>)
      requires Valid()
      ensures forall m :: m in ids <==> Hits(Window(log, None, Some(minId)), test, m)
    {
      ids := {};
      var offsetId: Option<nat> := None;
      ghost var w := Window(log, None, Some(minId));
      ghost var k: nat := |w|;
      assert w[..|w|] == w;
      while true
        invariant k <= |w| && Window(log, offsetId, Some(minId)) == w[..k]
        invariant forall m :: m in ids <==> Hits(w[k..], test, m)
        decreases k
      {
        var page := NextPage(offsetId, Some(minId), k);
        if |page| == 0 {
          break;
        }
        var found := TakeIds(page, test);
        HitsOnPage(w, k, page, test, ids, found);
        ids := ids + found;
        k := k - |page|;
        if |page| < 200 {
          break;
        }
        offsetId := Some(page[|page| - 1].id);
      }
      assert w[k..] == w;
    }

    /** Pages backwards with a moving `offsetId`: every message once, newest first. */
    method GetAllMessages() returns (messages: Log<T>)
      requires Valid()
      ensures messages == Reverse(log)
    {
      WindowUnbounded(log);
      assert log[..|log|] == log && log[|log|..] == [];
      messages := [];
      var offsetId: Option<nat> := None;
      ghost var k := |log|;
      while true
        invariant 0 <= k <= |log|
        invariant messages == Reverse(log[k..])
        invariant Window(log, offsetId, None) == log[..k]
        decreases k
      {
        var page := NextPage(offsetId, None, k);
        if |page| == 0 {
          break;
        }
        PageJoins(log, k, page);
        messages := messages + page;
        k := k - |page|;
        if |page| < 200 {
          break;
        }
        offsetId := Some(page[|page| - 1].id);
      }
    }

    /** The scan of the query engine: all messages, once each, by ascending id. */
    method FetchAllMessages() returns (messages: Log<T>)
      requires Valid()
      ensures messages == log
    {
      messages := GetAllMessages();
      SortDescending(log);
      messages := SortById(messages);
    }
  }
}
