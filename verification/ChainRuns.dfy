/** Any number of calls on the Telegram storage provider, against the same calls on a plain map id -> content. */
module ChainRuns {
  import opened Wrappers
  import opened MessageLog
  import opened ChainCodec
  import opened ChainStore

  /** A call of a client. It names messages by their place among the ids it has been given. */
  datatype Request =
    | Send(content: string, chainId: string)
    | Edit(handle: nat, content: string, chainId: string)
    | Delete(handle: nat)
    | Get(handle: nat)

  datatype Answer = Sent(id: nat) | Edited(found: bool) | Deleted | Got(text: Option<string>)

  /** The plain map, and the ids the client has been given so far. */
  datatype Plain = Plain(contents: map<nat, string>, given: seq<nat>)

  predicate IsNew(chainId: string, chainIds: set<string>) {
    IsPlainId(chainId) && chainId != "" && chainId !in chainIds
  }

  /** The ids a client names have been given to it, and `generateId` has returned a new one. */
  ghost predicate IsAskable(request: Request, reader: Reader, givenCount: nat, chainIds: set<string>) {
    match request
    case Send(content, chainId) => IsUnambiguous(reader, content) && IsNew(chainId, chainIds)
    case Edit(handle, content, chainId) =>
      handle < givenCount && IsUnambiguous(reader, content) && IsNew(chainId, chainIds)
    case Delete(handle) => handle < givenCount
    case Get(handle) => handle < givenCount
  }

  function CountAfter(request: Request, givenCount: nat): nat {
    if request.Send? then givenCount + 1 else givenCount
  }

  function ChainIdsAfter(request: Request, chainIds: set<string>): set<string> {
    if request.Send? || request.Edit? then chainIds + {request.chainId} else chainIds
  }

  ghost predicate AreAskable(requests: seq<Request>, reader: Reader, givenCount: nat, chainIds: set<string>)
    decreases |requests|
  {
    requests != [] ==>
      && IsAskable(requests[0], reader, givenCount, chainIds)
      && AreAskable(requests[1..], reader, CountAfter(requests[0], givenCount), ChainIdsAfter(requests[0], chainIds))
  }

  /** What a plain map may answer: the id of a new message is any that was never given before. */
  predicate IsPlainAnswer(request: Request, answer: Answer, plain: Plain) {
    match request
    case Send(_, _) => answer.Sent? && answer.id !in plain.contents && answer.id !in plain.given
    case Edit(h, _, _) => h < |plain.given| && answer == Edited(plain.given[h] in plain.contents)
    case Delete(h) => h < |plain.given| && answer == Deleted
    case Get(h) => h < |plain.given| && answer == Got(Lookup(plain.contents, plain.given[h]))
  }

  function Lookup(contents: map<nat, string>, id: nat): Option<string> {
    if id in contents then Some(contents[id]) else None
  }

  function PlainAfter(request: Request, answer: Answer, plain: Plain): Plain
    requires IsPlainAnswer(request, answer, plain)
  {
    match request
    case Send(content, _) => Plain(plain.contents[answer.id := content], plain.given + [answer.id])
    case Edit(h, content, _) =>
      if plain.given[h] in plain.contents then plain.(contents := plain.contents[plain.given[h] := content]) else plain
    case Delete(h) => plain.(contents := plain.contents - {plain.given[h]})
    case Get(_) => plain
  }

  /** A plain map starting as `plain` gives these answers and ends with the contents `final`. */
  predicate IsPlainRun(requests: seq<Request>, answers: seq<Answer>, plain: Plain, final: map<nat, string>)
    decreases |requests|
  {
    && |answers| == |requests|
    && if requests == [] then final == plain.contents else
         && IsPlainAnswer(requests[0], answers[0], plain)
         && IsPlainRun(requests[1..], answers[1..], PlainAfter(requests[0], answers[0], plain), final)
  }

  /** No id a client has been given is the id of a message inside a chained content. */
  ghost predicate AreGiven(provider: TelegramStorageProvider, given: seq<nat>)
    reads provider, provider.client
  {
    forall k :: 0 <= k < |given| ==> given[k] !in provider.PartIds() && given[k] < provider.client.nextId
  }

  method Answered(provider: TelegramStorageProvider, request: Request, given: seq<nat>, ghost chainIds: set<string>)
    returns (answer: Answer)
    requires provider.Valid() && AreGiven(provider, given) && provider.ChainIds() <= chainIds
    requires IsAskable(request, provider.reader, |given|, chainIds)
    modifies provider, provider.client
    ensures provider.Valid()
    ensures IsPlainAnswer(request, answer, Plain(old(provider.View()), given))
    ensures provider.View() == PlainAfter(request, answer, Plain(old(provider.View()), given)).contents
    ensures AreGiven(provider, PlainAfter(request, answer, Plain(old(provider.View()), given)).given)
    ensures provider.ChainIds() <= ChainIdsAfter(request, chainIds)
  {
    provider.IdsAreBelow();
    match request
    case Send(content, chainId) =>
      var id := provider.SendMessage(content, chainId);
      provider.IdsAreBelow();
      answer := Sent(id);
    case Edit(handle, content, chainId) =>
      var found := provider.EditMessage(given[handle], content, chainId);
      answer := Edited(found);
    case Delete(handle) =>
      provider.DeleteMessage(given[handle]);
      answer := Deleted;
    case Get(handle) =>
      var text := provider.GetMessage(given[handle]);
      answer := Got(text);
  }

  /** The provider answers every list of calls as the plain map does. */
  method Run(provider: TelegramStorageProvider, requests: seq<Request>, given: seq<nat>, ghost chainIds: set<string>)
    returns (answers: seq<Answer>)
    requires provider.Valid() && AreGiven(provider, given) && provider.ChainIds() <= chainIds
    requires AreAskable(requests, provider.reader, |given|, chainIds)
    modifies provider, provider.client
    ensures provider.Valid()
    ensures IsPlainRun(requests, answers, Plain(old(provider.View()), given), provider.View())
    decreases |requests|
  {
    if requests == [] {
      return [];
    }
    var answer := Answered(provider, requests[0], given, chainIds);
    ghost var next := PlainAfter(requests[0], answer, Plain(old(provider.View()), given));
    var rest := Run(provider, requests[1..], if answer.Sent? then given + [answer.id] else given,
                    ChainIdsAfter(requests[0], chainIds));
    answers := [answer] + rest;
  }

  /** In any run, a message that is gone stays gone: it is read as nothing and cannot be edited. */
  lemma {:induction false} GoneStaysGone(requests: seq<Request>, answers: seq<Answer>, plain: Plain,
                                         final: map<nat, string>, handle: nat)
    requires IsPlainRun(requests, answers, plain, final)
    requires handle < |plain.given| && plain.given[handle] !in plain.contents
    ensures plain.given[handle] !in final
    ensures forall i :: 0 <= i < |requests| && requests[i] == Get(handle) ==> answers[i] == Got(None)
    ensures forall i :: 0 <= i < |requests| && requests[i].Edit? && requests[i].handle == handle ==>
      answers[i] == Edited(false)
    decreases |requests|
  {
    if requests != [] {
      GoneStaysGone(requests[1..], answers[1..], PlainAfter(requests[0], answers[0], plain), final, handle);
    }
  }

  /** Whatever a run does between the two, reading a message after deleting it finds nothing. */
  lemma {:induction false} DeletedReadsNothing(requests: seq<Request>, answers: seq<Answer>, plain: Plain,
                                               final: map<nat, string>, i: nat, j: nat)
    requires IsPlainRun(requests, answers, plain, final)
    requires i < j < |requests| && requests[i].Delete? && requests[j] == Get(requests[i].handle)
    ensures answers[j] == Got(None)
    decreases i
  {
    var next := PlainAfter(requests[0], answers[0], plain);
    if i == 0 {
      GoneStaysGone(requests[1..], answers[1..], next, final, requests[0].handle);
      assert requests[1..][j - 1] == requests[j];
    } else {
      DeletedReadsNothing(requests[1..], answers[1..], next, final, i - 1, j - 1);
    }
  }

  /** Content stored as one message survives the trip exactly when it is not a chain head with a first line. */
  lemma ReadBackExact(reader: Reader, content: string)
    ensures ReadBack(reader, content) == content <==> ParseChainStart(reader, content).None? || '\n' !in content
  {
    var (json, rest) := SplitHeader(content, if |CHAIN_START| <= |content| then |CHAIN_START| else 0);
    if '\n' in content {
      assert |rest| < |content|;
    }
  }

  /** What is sent and read back at once comes back exactly when it is not a head with a first line. */
  method SendAndGet(provider: TelegramStorageProvider, content: string, chainId: string) returns (text: Option<string>)
    requires provider.Valid() && provider.IsUnused(chainId)
    modifies provider, provider.client
    ensures text == Some(content) <==>
      IsChained(content) || ParseChainStart(provider.reader, content).None? || '\n' !in content
  {
    provider.IdsAreBelow();
    var id := provider.SendMessage(content, chainId);
    text := provider.GetMessage(id);
    ReadBackExact(provider.reader, content);
  }

  /** A content goes with an earlier message exactly when it reads as a part of that message. */
  method SendAndDeleteEarlier(provider: TelegramStorageProvider, earlier: string, later: string, chainId: string)
    returns (text: Option<string>)
    requires provider.Valid() && provider.IsUnused(chainId)
    requires !IsChained(earlier) && IsUnambiguous(provider.reader, earlier) && !IsChained(later)
    modifies provider, provider.client
    ensures text.None? <==> IsDoomed(ParseChainPart(provider.reader, later), old(provider.client.nextId), None)
  {
    var id := provider.SendMessage(earlier, chainId);
    var laterId := provider.SendMessage(later, chainId);
    ContentsAt(provider.client.log, |provider.client.log| - 1);
    assert TextOf(provider.client.View(), id) == earlier;
    NewestDoomed(provider.reader, provider.client.log, id, None);
    provider.DeleteMessage(id);
    text := provider.GetMessage(laterId);
  }
}
