/**
 * The Telegram storage provider on one channel: content over 4000 characters is kept as a head message and part
 * messages, and the provider still behaves as a plain map id -> content.
 */
module ChainStore {
  import opened Wrappers
  import opened Text
  import opened MessageLog
  import opened ChainCodec

  /** Piece `index` of the chained content stored under message id `parent`. */
  datatype PartRef = PartRef(parent: nat, index: nat)

  /** A chained content: its pieces, and the ids of the messages that hold the first ones of them. */
  datatype Chain = Chain(chainId: string, pieces: seq<string>, ids: seq<nat>)

  /**
   * What the messages of a channel mean: the logical contents, how the chained ones are stored, and which piece a
   * part message is.
   */
  datatype Layout = Layout(texts: map<nat, string>, chains: map<nat, Chain>, owner: map<nat, PartRef>)

  const EMPTY := Layout(map[], map[], map[])

  ghost function ChainIdsOf(chains: map<nat, Chain>): set<string> {
    set id | id in chains :: chains[id].chainId
  }

  lemma ChainIdsWithin(before: map<nat, Chain>, after: map<nat, Chain>, id: nat, chainId: string)
    requires after - {id} == before - {id} && id in after && after[id].chainId == chainId
    ensures ChainIdsOf(after) <= ChainIdsOf(before) + {chainId}
  {
    forall c | c in ChainIdsOf(after)
      ensures c in ChainIdsOf(before) + {chainId}
    {
      var a :| a in after && after[a].chainId == c;
      if a != id {
        assert a in after - {id} && (after - {id})[a] == after[a];
        assert a in before && before[a] == after[a];
      }
    }
  }

  /** Every id of `now` was there before, or has been given out since `nextId` was the next one. */
  ghost predicate IsNewer(now: set<nat>, before: set<nat>, nextId: nat) {
    forall id {:trigger id in now} :: id in now ==> id in before || id >= nextId
  }

  predicate IsChained(content: string) {
    |content| > MAX_MESSAGE_LENGTH
  }

  ghost predicate HeadRight(cells: map<nat, Cell>, layout: Layout, id: nat)
    requires id in layout.texts && id in cells
  {
    if id in layout.chains then
      var chain := layout.chains[id];
      |chain.pieces| >= 2 && cells[id] == Head(|chain.pieces|, chain.chainId, chain.pieces[0])
    else
      cells[id] == Whole(layout.texts[id])
  }

  ghost predicate HeadsRepresented(cells: map<nat, Cell>, layout: Layout) {
    && cells.Keys == layout.texts.Keys + layout.owner.Keys
    && layout.texts.Keys !! layout.owner.Keys
    && layout.chains.Keys <= layout.texts.Keys
    && (forall id {:trigger HeadRight(cells, layout, id)} :: id in layout.texts ==> HeadRight(cells, layout, id))
    && HaveOwnIds(layout.chains)
  }

  ghost predicate HaveOwnIds(chains: map<nat, Chain>) {
    forall a, b :: a in chains && b in chains && chains[a].chainId == chains[b].chainId ==> a == b
  }

  /** The parts of one chain are in the channel, in the place `ids` says. */
  ghost predicate ChainRight(cells: map<nat, Cell>, owner: map<nat, PartRef>, id: nat, chain: Chain) {
    && 1 <= |chain.ids| <= |chain.pieces|
    && forall k :: 1 <= k < |chain.ids| ==>
         && chain.ids[k] in owner && owner[chain.ids[k]] == PartRef(id, k) && chain.ids[k] > id
         && chain.ids[k] in cells && cells[chain.ids[k]] == Part(chain.chainId, k, id, chain.pieces[k])
  }

  /** A part message is a piece of a stored chain. */
  ghost predicate OwnerRight(chains: map<nat, Chain>, partId: nat, ref: PartRef) {
    ref.parent in chains && 1 <= ref.index < |chains[ref.parent].ids| && chains[ref.parent].ids[ref.index] == partId
  }

  /** No part is orphaned, and none is there twice. */
  ghost predicate PartsRepresented(cells: map<nat, Cell>, layout: Layout) {
    && (forall id {:trigger ChainRight(cells, layout.owner, id, layout.chains[id])} ::
          id in layout.chains ==> ChainRight(cells, layout.owner, id, layout.chains[id]))
    && (forall partId {:trigger OwnerRight(layout.chains, partId, layout.owner[partId])} ::
          partId in layout.owner ==> OwnerRight(layout.chains, partId, layout.owner[partId]))
  }

  ghost predicate Represents(cells: map<nat, Cell>, layout: Layout) {
    HeadsRepresented(cells, layout) && PartsRepresented(cells, layout)
  }

  /** Exactly the contents over the limit are chained, cut the way `splitContent` cuts them, with no part missing. */
  ghost predicate IsCut(texts: map<nat, string>, chains: map<nat, Chain>) {
    && (forall id :: id in texts ==> (id in chains <==> IsChained(texts[id])))
    && (forall id :: id in chains ==>
            id in texts && chains[id].pieces == SplitContent(texts[id]) && |chains[id].ids| == |chains[id].pieces|)
  }

  ghost predicate IsShown(reader: Reader, raw: map<nat, string>, cells: map<nat, Cell>, id: nat) {
    id in raw && id in cells && IsWellFormed(reader, cells[id]) && raw[id] == Render(cells[id])
  }

  ghost predicate IsRendered(reader: Reader, raw: map<nat, string>, cells: map<nat, Cell>) {
    && raw.Keys == cells.Keys
    && forall id {:trigger IsShown(reader, raw, cells, id)} :: id in cells ==> IsShown(reader, raw, cells, id)
  }

  /** Any message of a channel parses as the kind of message it is. */
  lemma ShownRoundTrip(reader: Reader, raw: map<nat, string>, cells: map<nat, Cell>, id: nat)
    requires ReadsBack(reader) && IsRendered(reader, raw, cells) && id in cells
    ensures IsWellFormed(reader, cells[id])
    ensures ParseChainStart(reader, raw[id]) == StartOf(cells[id])
    ensures ParseChainPart(reader, raw[id]) == PartOf(cells[id])
  {
    assert IsShown(reader, raw, cells, id);
    CellRoundTrip(reader, cells[id]);
  }

  lemma AddRendered(reader: Reader, raw: map<nat, string>, cells: map<nat, Cell>, id: nat, cell: Cell)
    requires IsRendered(reader, raw - {id}, cells - {id}) && IsWellFormed(reader, cell)
    ensures IsRendered(reader, raw[id := Render(cell)], cells[id := cell])
  {
    var raw', cells' := raw[id := Render(cell)], cells[id := cell];
    forall a | a in cells'
      ensures IsShown(reader, raw', cells', a)
    {
      if a != id {
        assert IsShown(reader, raw - {id}, cells - {id}, a);
      }
    }
    assert raw'.Keys == (raw - {id}).Keys + {id} && cells'.Keys == (cells - {id}).Keys + {id};
  }

  lemma DropRendered(reader: Reader, raw: map<nat, string>, cells: map<nat, Cell>, ids: set<nat>)
    requires IsRendered(reader, raw, cells)
    ensures IsRendered(reader, raw - ids, cells - ids)
  {
    forall a | a in cells - ids
      ensures IsShown(reader, raw - ids, cells - ids, a)
    {
      assert IsShown(reader, raw, cells, a);
    }
    assert (raw - ids).Keys == raw.Keys - ids && (cells - ids).Keys == cells.Keys - ids;
  }

  ghost function PartsOf(layout: Layout, id: nat): set<nat> {
    set partId | partId in layout.owner && layout.owner[partId].parent == id
  }

  ghost function Dropped(layout: Layout, id: nat): Layout {
    Layout(layout.texts - {id}, layout.chains - {id}, layout.owner - PartsOf(layout, id))
  }

  lemma ContentPieces(content: string)
    ensures Concat(SplitContent(content)) == content
    ensures IsChained(content) ==> |SplitContent(content)| >= 2
  {
    ChunksPartition(content, PIECE_LENGTH);
    if IsChained(content) {
      assert SplitContent(content) == [content[..PIECE_LENGTH]] + Chunks(content[PIECE_LENGTH..], PIECE_LENGTH);
    }
  }

  lemma DroppedCut(texts: map<nat, string>, chains: map<nat, Chain>, id: nat)
    requires IsCut(texts, chains)
    ensures IsCut(texts - {id}, chains - {id})
  {
  }

  lemma AddedCut(texts: map<nat, string>, chains: map<nat, Chain>, id: nat, content: string, chain: Chain)
    requires IsCut(texts, chains) && id !in texts && id !in chains
    ensures !IsChained(content) ==> IsCut(texts[id := content], chains)
    ensures IsChained(content) && chain.pieces == SplitContent(content) && |chain.ids| == |chain.pieces|
      ==> IsCut(texts[id := content], chains[id := chain])
  {
  }

  lemma CompletedCut(before: Layout, after: Layout, id: nat, content: string)
    requires IsCut(before.texts, before.chains) && id !in before.texts && id !in before.chains
    requires after.texts == before.texts[id := content]
    requires id in after.chains && after.chains - {id} == before.chains
    requires IsChained(content) && after.chains[id].pieces == SplitContent(content)
    requires |after.chains[id].ids| == |after.chains[id].pieces|
    ensures IsCut(after.texts, after.chains)
  {
    AddedCut(before.texts, before.chains, id, content, after.chains[id]);
    assert after.chains == before.chains[id := after.chains[id]];
  }

  lemma ChainCompleted(before: Layout, after: Layout, id: nat, content: string, parts: seq<string>, chainId: string)
    requires IsCut(before.texts, before.chains) && id !in before.texts && id !in before.chains
    requires after.texts == before.texts[id := content] && id in after.chains && after.chains - {id} == before.chains
    requires IsChained(content) && parts == SplitContent(content)
    requires after.chains[id].chainId == chainId && after.chains[id].pieces == parts
    requires |after.chains[id].ids| == |parts|
    ensures IsCut(after.texts, after.chains) && ChainIdsOf(after.chains) <= ChainIdsOf(before.chains) + {chainId}
  {
    CompletedCut(before, after, id, content);
    assert before.chains - {id} == before.chains;
    ChainIdsWithin(before.chains, after.chains, id, chainId);
  }

  lemma {:induction false} ForgetHeads(cells: map<nat, Cell>, layout: Layout, id: nat)
    requires HeadsRepresented(cells, layout) && id !in layout.owner
    ensures HeadsRepresented(cells - PartsOf(layout, id) - {id}, Dropped(layout, id))
  {
    var rest, kept := cells - PartsOf(layout, id) - {id}, Dropped(layout, id);
    assert rest.Keys == kept.texts.Keys + kept.owner.Keys;
    forall a | a in kept.texts
      ensures HeadRight(rest, kept, a)
    {
      assert HeadRight(cells, layout, a);
    }
  }

  lemma {:induction false} ForgetParts(cells: map<nat, Cell>, layout: Layout, id: nat)
    requires PartsRepresented(cells, layout) && id !in layout.owner
    ensures PartsRepresented(cells - PartsOf(layout, id) - {id}, Dropped(layout, id))
  {
    var rest, kept := cells - PartsOf(layout, id) - {id}, Dropped(layout, id);
    forall a | a in kept.chains
      ensures ChainRight(rest, kept.owner, a, kept.chains[a])
    {
      assert ChainRight(cells, layout.owner, a, layout.chains[a]);
    }
    forall partId | partId in kept.owner
      ensures OwnerRight(kept.chains, partId, kept.owner[partId])
    {
      assert OwnerRight(layout.chains, partId, layout.owner[partId]);
    }
  }

  /** Taking away a logical message and all its parts leaves a channel that represents the others, untouched. */
  lemma {:induction false} Forget(cells: map<nat, Cell>, layout: Layout, id: nat)
    requires Represents(cells, layout) && id !in layout.owner
    ensures Represents(cells - PartsOf(layout, id) - {id}, Dropped(layout, id))
  {
    ForgetHeads(cells, layout, id);
    ForgetParts(cells, layout, id);
  }

  ghost function WithWhole(layout: Layout, id: nat, content: string): Layout {
    Layout(layout.texts[id := content], layout.chains, layout.owner)
  }

  ghost function HeadOf(chain: Chain): Cell
    requires chain.pieces != []
  {
    Head(|chain.pieces|, chain.chainId, chain.pieces[0])
  }

  ghost function WithHead(layout: Layout, id: nat, content: string, chain: Chain): Layout {
    Layout(layout.texts[id := content], layout.chains[id := chain], layout.owner)
  }

  lemma {:induction false} AddWhole(cells: map<nat, Cell>, layout: Layout, id: nat, content: string)
    requires Represents(cells, layout) && id !in cells
    ensures Represents(cells[id := Whole(content)], WithWhole(layout, id, content))
  {
    var cells', layout' := cells[id := Whole(content)], WithWhole(layout, id, content);
    forall a | a in layout'.texts
      ensures HeadRight(cells', layout', a)
    {
      assert a != id ==> HeadRight(cells, layout, a);
    }
    forall a | a in layout.chains
      ensures ChainRight(cells', layout.owner, a, layout.chains[a])
    {
      assert ChainRight(cells, layout.owner, a, layout.chains[a]);
    }
  }

  lemma {:induction false} AddHeadHeads(cells: map<nat, Cell>, layout: Layout, id: nat, content: string, chain: Chain)
    requires HeadsRepresented(cells, layout) && id !in cells && |chain.pieces| >= 2
    requires forall a :: a in layout.chains ==> layout.chains[a].chainId != chain.chainId
    ensures HeadsRepresented(cells[id := HeadOf(chain)], WithHead(layout, id, content, chain))
  {
    var cells', layout' := cells[id := HeadOf(chain)], WithHead(layout, id, content, chain);
    forall a | a in layout'.texts
      ensures HeadRight(cells', layout', a)
    {
      if a != id {
        assert HeadRight(cells, layout, a);
        OtherHeadStays(cells, layout, id, content, chain, a);
      }
    }
    NewChainIsApart(layout.chains, id, chain);
  }

  lemma OtherHeadStays(cells: map<nat, Cell>, layout: Layout, id: nat, content: string, chain: Chain, a: nat)
    requires a in layout.texts && a in cells && HeadRight(cells, layout, a) && a != id && chain.pieces != []
    ensures HeadRight(cells[id := HeadOf(chain)], WithHead(layout, id, content, chain), a)
  {
  }

  lemma NewChainIsApart(chains: map<nat, Chain>, id: nat, chain: Chain)
    requires HaveOwnIds(chains) && forall a :: a in chains ==> chains[a].chainId != chain.chainId
    ensures HaveOwnIds(chains[id := chain])
  {
  }

  lemma {:induction false} AddHeadParts(cells: map<nat, Cell>, layout: Layout, id: nat, cell: Cell, content: string,
                                        chain: Chain)
    requires PartsRepresented(cells, layout) && id !in cells && id !in layout.chains
    requires |chain.pieces| >= 2 && |chain.ids| == 1
    ensures PartsRepresented(cells[id := cell], WithHead(layout, id, content, chain))
  {
    var cells', layout' := cells[id := cell], WithHead(layout, id, content, chain);
    forall a | a in layout'.chains
      ensures ChainRight(cells', layout.owner, a, layout'.chains[a])
    {
      assert a != id ==> ChainRight(cells, layout.owner, a, layout.chains[a]);
    }
    forall partId | partId in layout.owner
      ensures OwnerRight(layout'.chains, partId, layout.owner[partId])
    {
      assert OwnerRight(layout.chains, partId, layout.owner[partId]);
    }
  }

  lemma {:induction false} AddHead(cells: map<nat, Cell>, layout: Layout, id: nat, content: string, chain: Chain)
    requires Represents(cells, layout) && id !in cells && |chain.pieces| >= 2 && |chain.ids| == 1
    requires forall a :: a in layout.chains ==> layout.chains[a].chainId != chain.chainId
    ensures Represents(cells[id := HeadOf(chain)], WithHead(layout, id, content, chain))
  {
    AddHeadHeads(cells, layout, id, content, chain);
    AddHeadParts(cells, layout, id, HeadOf(chain), content, chain);
  }

  /** The next piece of a chain, as a message. */
  ghost function NextPart(id: nat, chain: Chain): Cell
    requires |chain.ids| < |chain.pieces|
  {
    Part(chain.chainId, |chain.ids|, id, chain.pieces[|chain.ids|])
  }

  ghost function WithPart(layout: Layout, id: nat, partId: nat): Layout
    requires id in layout.chains
  {
    var chain := layout.chains[id];
    Layout(
      layout.texts,
      layout.chains[id := Chain(chain.chainId, chain.pieces, chain.ids + [partId])],
      layout.owner[partId := PartRef(id, |chain.ids|)])
  }

  lemma OnePartMore(layout: Layout, id: nat, partId: nat)
    requires id in layout.chains
    ensures var after := WithPart(layout, id, partId);
      && after.texts == layout.texts && after.owner.Keys == layout.owner.Keys + {partId}
      && id in after.chains && after.chains - {id} == layout.chains - {id}
      && after.chains[id].chainId == layout.chains[id].chainId && after.chains[id].pieces == layout.chains[id].pieces
      && |after.chains[id].ids| == |layout.chains[id].ids| + 1
  {
  }

  lemma {:induction false} AddPartHeads(cells: map<nat, Cell>, layout: Layout, id: nat, partId: nat, cell: Cell)
    requires HeadsRepresented(cells, layout) && partId !in cells && id in layout.chains
    ensures HeadsRepresented(cells[partId := cell], WithPart(layout, id, partId))
  {
    forall a | a in layout.texts
      ensures HeadRight(cells[partId := cell], WithPart(layout, id, partId), a)
    {
      assert HeadRight(cells, layout, a);
    }
  }

  lemma {:induction false} AddPartParts(cells: map<nat, Cell>, layout: Layout, id: nat, partId: nat)
    requires PartsRepresented(cells, layout) && partId !in cells && partId !in layout.owner && id < partId
    requires id in layout.chains && |layout.chains[id].ids| < |layout.chains[id].pieces|
    ensures PartsRepresented(cells[partId := NextPart(id, layout.chains[id])], WithPart(layout, id, partId))
  {
    var cells', layout' := cells[partId := NextPart(id, layout.chains[id])], WithPart(layout, id, partId);
    forall a | a in layout'.chains
      ensures ChainRight(cells', layout'.owner, a, layout'.chains[a])
    {
      assert ChainRight(cells, layout.owner, a, layout.chains[a]);
    }
    forall p | p in layout'.owner
      ensures OwnerRight(layout'.chains, p, layout'.owner[p])
    {
      if p != partId {
        assert OwnerRight(layout.chains, p, layout.owner[p]);
      } else {
        assert ChainRight(cells, layout.owner, id, layout.chains[id]);
      }
    }
  }

  lemma {:induction false} AddPart(cells: map<nat, Cell>, layout: Layout, id: nat, partId: nat)
    requires Represents(cells, layout) && partId !in cells && id < partId
    requires id in layout.chains && |layout.chains[id].ids| < |layout.chains[id].pieces|
    ensures Represents(cells[partId := NextPart(id, layout.chains[id])], WithPart(layout, id, partId))
  {
    AddPartHeads(cells, layout, id, partId, NextPart(id, layout.chains[id]));
    AddPartParts(cells, layout, id, partId);
  }

  /** The messages `deleteChainParts` picks out. */
  predicate IsDoomed(part: Option<PartHeader>, id: nat, start: Option<StartHeader>) {
    && part.Some?
    && (|| part.value.parentId == Some(id)
        || (start.Some? && start.value.chainId != "" && part.value.chainId == start.value.chainId))
  }

  /** What a message of a represented channel is. */
  lemma {:induction false} CellKind(cells: map<nat, Cell>, layout: Layout, m: nat)
    requires Represents(cells, layout) && m in cells
    ensures m in layout.texts ==> HeadRight(cells, layout, m)
    ensures m in layout.owner ==>
      var ref := layout.owner[m];
      && ref.parent in layout.chains && ref.parent < m && 1 <= ref.index < |layout.chains[ref.parent].pieces|
      && var chain := layout.chains[ref.parent];
      cells[m] == Part(chain.chainId, ref.index, ref.parent, chain.pieces[ref.index])
  {
    if m in layout.owner {
      var ref := layout.owner[m];
      assert OwnerRight(layout.chains, m, ref);
      assert ChainRight(cells, layout.owner, ref.parent, layout.chains[ref.parent]);
    }
  }

  lemma {:induction false} DoomedCells(reader: Reader, cells: map<nat, Cell>, layout: Layout, id: nat, m: nat)
    requires Represents(cells, layout) && id !in layout.owner && m in cells
    requires id in cells ==> IsWellFormed(reader, cells[id])
    ensures IsDoomed(PartOf(cells[m]), id, if id in cells then StartOf(cells[id]) else None) <==>
      m in PartsOf(layout, id)
  {
    CellKind(cells, layout, m);
    if id in cells {
      CellKind(cells, layout, id);
    }
    if m in layout.owner {
      CellKind(cells, layout, layout.owner[m].parent);
    }
  }

  /** In a represented channel these are exactly the parts of the message, for every id that is not itself a part. */
  lemma DoomedAreParts(reader: Reader, raw: map<nat, string>, cells: map<nat, Cell>, layout: Layout, id: nat, m: nat)
    requires ReadsBack(reader) && IsRendered(reader, raw, cells)
    requires Represents(cells, layout) && id !in layout.owner && m in raw
    ensures IsDoomed(ParseChainPart(reader, raw[m]), id, ParseChainStart(reader, TextOf(raw, id))) <==>
      m in PartsOf(layout, id)
  {
    ShownRoundTrip(reader, raw, cells, m);
    if id in raw {
      ShownRoundTrip(reader, raw, cells, id);
    }
    DoomedCells(reader, cells, layout, id, m);
  }

  function TextOf(raw: map<nat, string>, id: nat): string {
    if id in raw then raw[id] else ""
  }

  function DoomTest(reader: Reader, id: nat, start: Option<StartHeader>): Message<string> -> bool {
    (m: Message<string>) => IsDoomed(ParseChainPart(reader, m.body), id, start)
  }

  /** Walking back over the later messages finds every part of the message and nothing else. */
  lemma DoomedWindow(reader: Reader, log: Log<string>, cells: map<nat, Cell>, layout: Layout, id: nat, found: set<nat>)
    requires Ascending(log) && ReadsBack(reader) && IsRendered(reader, Contents(log), cells)
    requires Represents(cells, layout) && id !in layout.owner
    requires
      var test := DoomTest(reader, id, ParseChainStart(reader, TextOf(Contents(log), id)));
      forall m :: m in found <==> Hits(Window(log, None, Some(id)), test, m)
    ensures found == PartsOf(layout, id)
  {
    var raw, w := Contents(log), Window(log, None, Some(id));
    var test := DoomTest(reader, id, ParseChainStart(reader, TextOf(raw, id)));
    forall m | m in found
      ensures m in PartsOf(layout, id)
    {
      var j :| 0 <= j < |w| && w[j].id == m && test(w[j]);
      WindowMember(log, None, Some(id), w[j]);
      ContentsMember(log, w[j]);
      DoomedAreParts(reader, raw, cells, layout, id, m);
    }
    forall m | m in PartsOf(layout, id)
      ensures m in found
    {
      CellKind(cells, layout, m);
      DoomedAreParts(reader, raw, cells, layout, id, m);
      ContentsMember(log, Message(m, raw[m]));
      WindowMember(log, None, Some(id), Message(m, raw[m]));
      var j :| 0 <= j < |w| && w[j] == Message(m, raw[m]);
      HitsAt(w, test, j);
    }
  }

  /** The part messages `reconstructChainedMessage` takes for a given head. */
  predicate Fits(part: Option<PartHeader>, id: nat, chainId: string) {
    part.Some? && part.value.chainId == chainId && (part.value.parentId == None || part.value.parentId == Some(id))
  }

  /** The part headers of a stretch of messages. */
  ghost function PartsIn(reader: Reader, w: Log<string>): seq<Option<PartHeader>> {
    seq(|w|, i requires 0 <= i < |w| => ParseChainPart(reader, w[i].body))
  }

  lemma PartsOnPage(reader: Reader, w: Log<string>, page: Log<string>, k: nat)
    requires |page| <= k <= |w| && page == Reverse(w[k - |page|..k])
    ensures forall i :: 0 <= i < |page| ==> ParseChainPart(reader, page[i].body) == PartsIn(reader, w)[k - 1 - i]
  {
    assert forall i :: 0 <= i < |page| ==> page[i] == w[k - 1 - i];
  }

  ghost predicate HoldsPiece(part: Option<PartHeader>, id: nat, chainId: string, k: nat) {
    Fits(part, id, chainId) && part.value.index == k
  }

  ghost predicate IsHeld(later: seq<Option<PartHeader>>, id: nat, chainId: string, k: nat) {
    exists j :: 0 <= j < |later| && HoldsPiece(later[j], id, chainId, k)
  }

  ghost predicate FitsPieces(part: Option<PartHeader>, id: nat, chainId: string, pieces: seq<string>) {
    Fits(part, id, chainId) ==> 1 <= part.value.index < |pieces| && part.value.content == pieces[part.value.index]
  }

  /** The later messages hold exactly the pieces 1, 2, ... of one content. */
  ghost predicate IsChain(later: seq<Option<PartHeader>>, id: nat, header: StartHeader, pieces: seq<string>) {
    && |pieces| == header.total && pieces != [] && pieces[0] == header.content
    && (forall j :: 0 <= j < |later| ==> FitsPieces(later[j], id, header.chainId, pieces))
    && (forall k :: 1 <= k < |pieces| ==> IsHeld(later, id, header.chainId, k))
  }

  lemma {:induction false} FittingCell(cells: map<nat, Cell>, layout: Layout, id: nat, m: nat)
    requires Represents(cells, layout) && id in layout.chains && m in cells
    ensures FitsPieces(PartOf(cells[m]), id, layout.chains[id].chainId, layout.chains[id].pieces)
  {
    CellKind(cells, layout, m);
  }

  lemma HeldPiece(reader: Reader, log: Log<string>, cells: map<nat, Cell>, id: nat, partId: nat)
    requires Ascending(log) && ReadsBack(reader) && IsRendered(reader, Contents(log), cells)
    requires partId in cells && partId > id && cells[partId].Part? && cells[partId].parent == id
    ensures IsHeld(PartsIn(reader, Window(log, None, Some(id))), id, cells[partId].chainId, cells[partId].index)
  {
    var w := Window(log, None, Some(id));
    var m := Message(partId, Contents(log)[partId]);
    ContentsMember(log, m);
    WindowMember(log, None, Some(id), m);
    var j :| 0 <= j < |w| && w[j] == m;
    ShownRoundTrip(reader, Contents(log), cells, partId);
    assert HoldsPiece(PartsIn(reader, w)[j], id, cells[partId].chainId, cells[partId].index);
  }

  /** Every chained content of a represented channel can be read back from its later messages. */
  lemma RepresentedIsChain(reader: Reader, log: Log<string>, cells: map<nat, Cell>, layout: Layout, id: nat)
    requires Ascending(log) && ReadsBack(reader) && IsRendered(reader, Contents(log), cells)
    requires Represents(cells, layout)
    requires id in layout.chains && |layout.chains[id].ids| == |layout.chains[id].pieces|
    ensures var header := ParseChainStart(reader, Contents(log)[id]);
            header.Some?
            && IsChain(PartsIn(reader, Window(log, None, Some(id))), id, header.value, layout.chains[id].pieces)
  {
    var w, chain := Window(log, None, Some(id)), layout.chains[id];
    CellKind(cells, layout, id);
    ShownRoundTrip(reader, Contents(log), cells, id);
    forall j | 0 <= j < |w|
      ensures FitsPieces(ParseChainPart(reader, w[j].body), id, chain.chainId, chain.pieces)
    {
      WindowMember(log, None, Some(id), w[j]);
      ContentsMember(log, w[j]);
      ShownRoundTrip(reader, Contents(log), cells, w[j].id);
      FittingCell(cells, layout, id, w[j].id);
    }
    assert ChainRight(cells, layout.owner, id, chain);
    forall k | 1 <= k < |chain.pieces|
      ensures IsHeld(PartsIn(reader, w), id, chain.chainId, k)
    {
      HeldPiece(reader, log, cells, id, chain.ids[k]);
    }
  }

  /** `parts.filter(part => part !== undefined).join('')` on a sparse array of the given length. */
  function JoinParts(parts: map<nat, string>, length: nat): string {
    if length == 0 then ""
    else JoinParts(parts, length - 1) + if length - 1 in parts then parts[length - 1] else ""
  }

  lemma {:induction false} JoinComplete(parts: map<nat, string>, pieces: seq<string>, length: nat)
    requires length >= |pieces|
    requires forall i :: i in parts <==> 0 <= i < |pieces|
    requires forall i :: i in parts ==> parts[i] == pieces[i]
    ensures JoinParts(parts, length) == Concat(pieces)
  {
    if length > |pieces| {
      JoinComplete(parts, pieces, length - 1);
    } else {
      JoinPrefix(parts, pieces, length);
      assert pieces[..length] == pieces;
    }
  }

  lemma {:induction false} JoinPrefix(parts: map<nat, string>, pieces: seq<string>, n: nat)
    requires n <= |pieces|
    requires forall i :: 0 <= i < |pieces| ==> i in parts && parts[i] == pieces[i]
    ensures JoinParts(parts, n) == Concat(pieces[..n])
  {
    if n > 0 {
      JoinPrefix(parts, pieces, n - 1);
      assert pieces[..n] == pieces[..n - 1] + [pieces[n - 1]];
      ConcatSnoc(pieces[..n - 1], pieces[n - 1]);
    }
  }

  lemma {:induction false} JoinOnly(content: string, length: nat)
    requires length > 0
    ensures JoinParts(map[0 := content], length) == content
  {
    if length > 1 {
      JoinOnly(content, length - 1);
    }
  }

  datatype Aim = ToCount | ToFind

  ghost predicate IsGathered(aim: Aim, later: seq<Option<PartHeader>>, from: int, id: nat, header: StartHeader,
                             pieces: seq<string>, parts: map<nat, string>, collected: nat)
  {
    match aim
    case ToCount => |parts| == collected && 0 in parts && parts[0] == header.content
    case ToFind => IsChain(later, id, header, pieces) ==>
      && (forall i :: i in parts ==> i < |pieces| && parts[i] == pieces[i])
      && (forall j, k :: 0 <= from <= j < |later| && HoldsPiece(later[j], id, header.chainId, k) ==> k in parts)
  }

  /** What reconstruction has gathered once the window has been read back to position `from`. */
  ghost predicate Gathered(later: seq<Option<PartHeader>>, from: int, id: nat, header: StartHeader, pieces: seq<string>,
                           parts: map<nat, string>, collected: nat) {
    forall aim {:trigger IsGathered(aim, later, from, id, header, pieces, parts, collected)} ::
      IsGathered(aim, later, from, id, header, pieces, parts, collected)
  }

  lemma GatheredMeans(later: seq<Option<PartHeader>>, from: int, id: nat, header: StartHeader, pieces: seq<string>,
                      parts: map<nat, string>, collected: nat)
    requires Gathered(later, from, id, header, pieces, parts, collected)
    ensures |parts| == collected && 0 in parts && parts[0] == header.content
    ensures IsChain(later, id, header, pieces) ==>
      && (forall i :: i in parts ==> i < |pieces| && parts[i] == pieces[i])
      && (forall j, k :: 0 <= from <= j < |later| && HoldsPiece(later[j], id, header.chainId, k) ==> k in parts)
  {
    assert IsGathered(ToCount, later, from, id, header, pieces, parts, collected);
    assert IsGathered(ToFind, later, from, id, header, pieces, parts, collected);
  }

  lemma GatheredAll(later: seq<Option<PartHeader>>, from: int, id: nat, header: StartHeader, pieces: seq<string>,
                    parts: map<nat, string>, collected: nat)
    requires Gathered(later, from, id, header, pieces, parts, collected) && IsChain(later, id, header, pieces)
    requires collected >= header.total || from == 0
    ensures forall i :: i in parts <==> 0 <= i < |pieces|
  {
    GatheredMeans(later, from, id, header, pieces, parts, collected);
    if from == 0 {
      forall k | 1 <= k < |pieces|
        ensures k in parts
      {
        assert IsHeld(later, id, header.chainId, k);
        var j :| 0 <= j < |later| && HoldsPiece(later[j], id, header.chainId, k);
      }
    } else {
      UpToSize(|pieces|);
      SubsetOfSameSize(parts.Keys, UpTo(|pieces|));
    }
  }

  ghost function UpTo(n: nat): (s: set<nat>)
    ensures forall i :: i in s <==> 0 <= i < n
  {
    if n == 0 then {} else UpTo(n - 1) + {n - 1}
  }

  lemma {:induction false} UpToSize(n: nat)
    ensures |UpTo(n)| == n
  {
    if n > 0 {
      UpToSize(n - 1);
    }
  }

  lemma SubsetOfSameSize<T>(a: set<T>, b: set<T>)
    requires a <= b && |a| >= |b|
    ensures a == b
  {
    assert |b - a| == |b| - |a|;
  }

  /** What the newest message of a channel reads back as: no later message can hold a part for it. */
  function ReadBack(reader: Reader, text: string): string {
    match ParseChainStart(reader, text)
    case None => text
    case Some(header) => header.content
  }

  lemma DoomTestMeans(reader: Reader, id: nat, start: Option<StartHeader>, m: Message<string>)
    ensures DoomTest(reader, id, start)(m) <==> IsDoomed(ParseChainPart(reader, m.body), id, start)
  {
  }

  lemma NewestHits(log: Log<string>, id: nat, test: Message<string> -> bool)
    requires Ascending(log) && log != [] && id < log[|log| - 1].id
    ensures Hits(Window(log, None, Some(id)), test, log[|log| - 1].id) <==> test(log[|log| - 1])
  {
    var last, w := log[|log| - 1], Window(log, None, Some(id));
    WindowMember(log, None, Some(id), last);
    if test(last) {
      var j :| 0 <= j < |w| && w[j] == last;
      HitsAt(w, test, j);
    }
    if Hits(w, test, last.id) {
      var j :| 0 <= j < |w| && w[j].id == last.id && test(w[j]);
      WindowMember(log, None, Some(id), w[j]);
      assert w[j] == last;
    }
  }

  /** The newest message goes with an earlier one exactly when it reads as a part of it. */
  lemma NewestDoomed(reader: Reader, log: Log<string>, id: nat, start: Option<StartHeader>)
    requires Ascending(log) && log != [] && id < log[|log| - 1].id
    ensures Hits(Window(log, None, Some(id)), DoomTest(reader, id, start), log[|log| - 1].id)
       <==> IsDoomed(ParseChainPart(reader, log[|log| - 1].body), id, start)
  {
    NewestHits(log, id, DoomTest(reader, id, start));
    DoomTestMeans(reader, id, start, log[|log| - 1]);
  }

  lemma NothingLater(log: Log<string>)
    requires Ascending(log) && log != []
    ensures Window(log, None, Some(log[|log| - 1].id)) == []
  {
    var last := log[|log| - 1];
    var w := Window(log, None, Some(last.id));
    if w != [] {
      WindowMember(log, None, Some(last.id), w[0]);
    }
  }

  /** Taking one more message of the walk into account. */
  lemma GatherOne(later: seq<Option<PartHeader>>, from: nat, id: nat, header: StartHeader, pieces: seq<string>,
                  parts: map<nat, string>, collected: nat)
    requires 0 < from <= |later| && Gathered(later, from, id, header, pieces, parts, collected)
    ensures
      var part := later[from - 1];
      if Fits(part, id, header.chainId) && part.value.index !in parts then
        Gathered(later, from - 1, id, header, pieces, parts[part.value.index := part.value.content], collected + 1)
      else
        Gathered(later, from - 1, id, header, pieces, parts, collected)
  {
    var part := later[from - 1];
    GatheredMeans(later, from, id, header, pieces, parts, collected);
    if IsChain(later, id, header, pieces) {
      assert FitsPieces(part, id, header.chainId, pieces);
    }
    if Fits(part, id, header.chainId) && part.value.index !in parts {
      var parts' := parts[part.value.index := part.value.content];
      assert parts'.Keys == parts.Keys + {part.value.index};
    }
  }

  lemma Joined(later: seq<Option<PartHeader>>, from: nat, id: nat, header: StartHeader, pieces: seq<string>,
               parts: map<nat, string>, collected: nat, length: nat)
    requires Gathered(later, from, id, header, pieces, parts, collected)
    requires collected >= header.total || from == 0
    requires length >= header.total && length > 0
    ensures IsChain(later, id, header, pieces) ==> JoinParts(parts, length) == Concat(pieces)
    ensures parts == map[0 := header.content] ==> JoinParts(parts, length) == header.content
  {
    GatheredMeans(later, from, id, header, pieces, parts, collected);
    if IsChain(later, id, header, pieces) {
      GatheredAll(later, from, id, header, pieces, parts, collected);
      JoinComplete(parts, pieces, length);
    }
    JoinOnly(header.content, length);
  }

  method SplitIntoParts(content: string) returns (parts: seq<string>)
    ensures parts == SplitContent(content)
  {
    parts := [];
    var index := 0;
    while index < |content|
      invariant 0 <= index
      invariant parts + SplitContent(if index < |content| then content[index..] else "") == SplitContent(content)
    {
      ghost var rest := content[index..];
      var end := if index + PIECE_LENGTH < |content| then index + PIECE_LENGTH else |content|;
      parts := parts + [content[index..end]];
      if |rest| <= PIECE_LENGTH {
        assert SplitContent(rest) == [rest] && content[index..end] == rest;
      } else {
        assert content[index..end] == rest[..PIECE_LENGTH] && content[index + PIECE_LENGTH..] == rest[PIECE_LENGTH..];
        assert SplitContent(rest) == [rest[..PIECE_LENGTH]] + SplitContent(rest[PIECE_LENGTH..]);
      }
      index := index + PIECE_LENGTH;
    }
  }

  /** The messages of a channel stand for the contents of a layout. */
  ghost predicate StandsFor(reader: Reader, raw: map<nat, string>, cells: map<nat, Cell>, layout: Layout) {
    && ReadsBack(reader)
    && IsRendered(reader, raw, cells)
    && Represents(cells, layout)
    && IsCut(layout.texts, layout.chains)
  }

  class TelegramStorageProvider {
    const client: Channel<string>
    const reader: Reader
    ghost var cells: map<nat, Cell>
    ghost var layout: Layout

    ghost predicate Valid()
      reads this, client
    {
      client.Valid() && StandsFor(reader, client.View(), cells, layout)
    }

    /** The simple store this provider stands for: message id -> content. */
    ghost function View(): map<nat, string>
      reads this
    {
      layout.texts
    }

    /** Ids that are messages of the channel but belong to the inside of a chained content. */
    ghost function PartIds(): set<nat>
      reads this
    {
      layout.owner.Keys
    }

    ghost function ChainIds(): set<string>
      reads this
    {
      ChainIdsOf(layout.chains)
    }

    constructor (reader: Reader)
      requires ReadsBack(reader)
      ensures Valid() && View() == map[] && PartIds() == {} && ChainIds() == {}
      ensures fresh(client) && this.reader == reader
    {
      client := new Channel();
      this.reader := reader;
      cells, layout := map[], EMPTY;
    }

    /** Every message of the channel has an id below the next one. */
    lemma IdsAreBelow()
      requires client.Valid()
      ensures forall id :: id in client.View() ==> id < client.nextId
      ensures Valid() ==> forall id :: id in View() || id in PartIds() ==> id in client.View()
    {
      forall id | id in client.View()
        ensures id < client.nextId
      {
        var i := ContentsIndex(client.log, id);
      }
    }

    /** The inner loop: one page of the walk, newest message first. */
    method TakePage(page: Log<string>, parent: nat, header: StartHeader, parts0: map<nat, string>, collected0: nat,
                    length0: nat, ghost later: seq<Option<PartHeader>>, ghost from: nat, ghost pieces: seq<string>)
      returns (parts: map<nat, string>, collected: nat, length: nat)
      requires |page| <= from <= |later|
      requires forall i :: 0 <= i < |page| ==> ParseChainPart(reader, page[i].body) == later[from - 1 - i]
      requires Gathered(later, from, parent, header, pieces, parts0, collected0)
      requires (forall i :: i in parts0 ==> i < length0)
      ensures Gathered(later, from - |page|, parent, header, pieces, parts, collected)
      ensures length >= length0 && (forall i :: i in parts ==> i < length)
    {
      parts, collected, length := parts0, collected0, length0;
      for i := 0 to |page|
        invariant Gathered(later, from - i, parent, header, pieces, parts, collected)
        invariant length >= length0 && (forall j :: j in parts ==> j < length)
      {
        var part := ParseChainPart(reader, page[i].body);
        assert part == later[from - i - 1];
        GatherOne(later, from - i, parent, header, pieces, parts, collected);
        if Fits(part, parent, header.chainId) && part.value.index !in parts {
          parts := parts[part.value.index := part.value.content];
          length := if part.value.index < length then length else part.value.index + 1;
          collected := collected + 1;
        }
      }
    }

    /** Message `id` is the last of the channel. */
    ghost predicate IsNewest(id: nat)
      reads client
    {
      client.log != [] && client.log[|client.log| - 1].id == id && id in client.View()
    }

    method ReconstructChainedMessage(parent: nat, firstText: string, ghost pieces: seq<string>) returns (text: string)
      requires client.Valid()
      ensures ParseChainStart(reader, firstText).None? ==> text == firstText
      ensures
        var header := ParseChainStart(reader, firstText);
        var later := PartsIn(reader, Window(client.log, None, Some(parent)));
        header.Some? ==>
          && (IsChain(later, parent, header.value, pieces) ==> text == Concat(pieces))
          && (later == [] ==> text == header.value.content)
    {
      var start := ParseChainStart(reader, firstText);
      if start.None? {
        return firstText;
      }
      var header := start.value;
      var parts: map<nat, string> := map[0 := header.content];
      var length := if header.total == 0 then 1 else header.total;
      ghost var w := Window(client.log, None, Some(parent));
      ghost var later := PartsIn(reader, w);
      if header.total == 1 {
        assert IsChain(later, parent, header, pieces) ==> pieces == [header.content];
        ConcatOne(header.content);
        return header.content;
      }
      var collected: nat := 1;
      var offsetId: Option<nat> := None;
      ghost var k: nat := |w|;
      assert w[..|w|] == w;
      while collected < header.total
        invariant k <= |w| && Window(client.log, offsetId, Some(parent)) == w[..k]
        invariant Gathered(later, k, parent, header, pieces, parts, collected)
        invariant length >= header.total && length > 0 && (forall i :: i in parts ==> i < length)
        invariant later == [] ==> parts == map[0 := header.content]
        decreases k
      {
        var page := client.NextPage(offsetId, Some(parent), k);
        if |page| == 0 {
          break;
        }
        PartsOnPage(reader, w, page, k);
        parts, collected, length := TakePage(page, parent, header, parts, collected, length, later, k, pieces);
        k := k - |page|;
        if |page| < 200 {
          break;
        }
        offsetId := Some(page[|page| - 1].id);
      }
      Joined(later, k, parent, header, pieces, parts, collected, length);
      text := JoinParts(parts, length);
    }

    /** The map's answer for an id of the map, and the text itself for a message inside a chained content. */
    method GetMessage(id: nat) returns (text: Option<string>)
      requires client.Valid()
      ensures text.None? <==> id !in client.View()
      ensures Valid() && id !in PartIds() ==> text == if id in View() then Some(View()[id]) else None
      ensures Valid() && id in PartIds() ==> text == Some(client.View()[id])
      ensures IsNewest(id) ==> text == Some(ReadBack(reader, client.View()[id]))
    {
      var existing := client.Get(id);
      if existing.None? {
        return None;
      }
      if IsPrefix(CHAIN_START, existing.value) {
        ghost var pieces := PiecesUnder(id);
        if IsNewest(id) {
          NothingLater(client.log);
        }
        var whole := ReconstructChainedMessage(id, existing.value, pieces);
        return Some(whole);
      }
      if Valid() {
        ShownRoundTrip(reader, client.View(), cells, id);
        CellKind(cells, layout, id);
        assert IsShown(reader, client.View(), cells, id);
      }
      return existing;
    }

    /** The pieces under a message id, and why the later messages hold them. */
    ghost method PiecesUnder(id: nat) returns (pieces: seq<string>)
      requires client.Valid() && id in client.View()
      ensures Valid() && id in layout.chains ==>
        && id in View() && Concat(pieces) == View()[id] && ParseChainStart(reader, client.View()[id]).Some?
        && IsChain(PartsIn(reader, Window(client.log, None, Some(id))), id,
                   ParseChainStart(reader, client.View()[id]).value, pieces)
      ensures Valid() && id !in layout.chains ==>
        && ParseChainStart(reader, client.View()[id]).None?
        && client.View()[id] == if id in View() then View()[id] else client.View()[id]
    {
      pieces := [];
      if Valid() {
        ShownRoundTrip(reader, client.View(), cells, id);
        CellKind(cells, layout, id);
        assert IsShown(reader, client.View(), cells, id);
        if id in layout.chains {
          pieces := layout.chains[id].pieces;
          RepresentedIsChain(reader, client.log, cells, layout, id);
          ContentPieces(View()[id]);
        }
      }
    }

    /** Deletes every later message that names `id` or its chain. */
    method DeleteChainParts(id: nat, firstText: string) returns (ghost deleted: set<nat>)
      requires client.Valid()
      modifies client
      ensures client.Valid() && client.nextId == old(client.nextId)
      ensures client.View() == old(client.View()) - deleted
      ensures forall m :: m in deleted <==>
        Hits(Window(old(client.log), None, Some(id)), DoomTest(reader, id, ParseChainStart(reader, firstText)), m)
    {
      var idsToDelete := client.CollectIds(id, DoomTest(reader, id, ParseChainStart(reader, firstText)));
      deleted := idsToDelete;
      if idsToDelete != {} {
        client.Delete(idsToDelete);
      }
    }

    /** The messages that go with message `id` when it is edited or deleted. */
    ghost predicate IsDoomedWith(id: nat, m: nat)
      reads this, client
    {
      Hits(Window(client.log, None, Some(id)), DoomTest(reader, id, ParseChainStart(reader, TextOf(client.View(), id))),
           m)
    }

    /** Deletes the parts of the content under `id`, and forgets that content. */
    method ClearChain(id: nat) returns (found: bool, ghost deleted: set<nat>)
      requires client.Valid()
      modifies this, client
      ensures client.Valid() && client.nextId == old(client.nextId)
      ensures client.View() == old(client.View()) - deleted
      ensures forall m :: m in deleted <==> old(IsDoomedWith(id, m))
      ensures old(Valid()) && id !in old(PartIds()) ==>
        && found == (id in old(View())) == (id in client.View())
        && IsCleared(id)
        && View() == old(View()) - {id} && PartIds() <= old(PartIds()) && ChainIds() <= old(ChainIds())
    {
      var existing := client.Get(id);
      found := existing.Some?;
      deleted := DeleteChainParts(id, if found then existing.value else "");
      ForgetContent(id, old(client.log), deleted);
    }

    ghost method ForgetContent(id: nat, log: Log<string>, deleted: set<nat>)
      requires Ascending(log) && client.Valid() && client.View() == Contents(log) - deleted
      requires forall m :: m in deleted <==>
        Hits(Window(log, None, Some(id)), DoomTest(reader, id, ParseChainStart(reader, TextOf(Contents(log), id))), m)
      modifies this
      ensures StandsFor(reader, Contents(log), old(cells), old(layout)) && id !in old(PartIds()) ==>
        && (id in Contents(log)) == (id in old(View())) == (id in client.View())
        && IsCleared(id)
        && View() == old(View()) - {id} && PartIds() <= old(PartIds()) && ChainIds() <= old(ChainIds())
    {
      if StandsFor(reader, Contents(log), cells, layout) && id !in PartIds() {
        DoomedWindow(reader, log, cells, layout, id, deleted);
        Forget(cells, layout, id);
        DroppedCut(layout.texts, layout.chains, id);
        DropRendered(reader, Contents(log), cells, deleted);
        DropRendered(reader, Contents(log) - deleted, cells - deleted, {id});
        cells, layout := cells - PartsOf(layout, id) - {id}, Dropped(layout, id);
      }
    }

    /** A missing id is ignored. */
    method DeleteMessage(id: nat)
      requires client.Valid()
      modifies this, client
      ensures client.Valid() && client.nextId == old(client.nextId)
      ensures forall m :: m in client.View() <==> m in old(client.View()) && m != id && !old(IsDoomedWith(id, m))
      ensures old(Valid()) && id !in old(PartIds()) ==>
        && Valid() && View() == old(View()) - {id}
        && PartIds() <= old(PartIds()) && ChainIds() <= old(ChainIds())
    {
      var found, deleted := ClearChain(id);
      client.Delete({id});
    }

    /** A content is being written: the chain has a head and some of its parts, the other contents are complete. */
    ghost predicate IsSending(id: nat)
      reads this, client
    {
      && client.Valid() && id < client.nextId && ReadsBack(reader)
      && IsRendered(reader, client.View(), cells)
      && Represents(cells, layout)
      && id in layout.chains && IsPlainId(layout.chains[id].chainId) && layout.chains[id].chainId != ""
    }

    /** Sends one message of a known kind. */
    method SendCell(cell: Cell) returns (id: nat)
      requires client.Valid() && IsRendered(reader, client.View(), cells) && IsWellFormed(reader, cell)
      modifies this`cells, client
      ensures client.Valid() && id == old(client.nextId) < client.nextId && id !in old(cells)
      ensures cells == old(cells)[id := cell] && IsRendered(reader, client.View(), cells)
    {
      id := client.Send(Render(cell));
      assert old(client.View()) - {id} == old(client.View()) && cells - {id} == cells;
      AddRendered(reader, old(client.View()), cells, id, cell);
      cells := cells[id := cell];
    }

    method SendPart(id: nat, parts: seq<string>, chainId: string, index: nat)
      requires IsSending(id) && 1 <= index < |parts|
      requires layout.chains[id].chainId == chainId && layout.chains[id].pieces == parts
      requires |layout.chains[id].ids| == index
      modifies this, client
      ensures IsSending(id) && layout.texts == old(layout.texts) && layout.chains - {id} == old(layout.chains) - {id}
      ensures layout.chains[id].chainId == chainId && layout.chains[id].pieces == parts
      ensures |layout.chains[id].ids| == index + 1
      ensures PartIds() == old(PartIds()) + {old(client.nextId)} && client.nextId >= old(client.nextId)
    {
      var partId := SendCell(Part(chainId, index, id, parts[index]));
      AddPart(old(cells), layout, id, partId);
      OnePartMore(layout, id, partId);
      layout := WithPart(layout, id, partId);
    }

    /** Sends the parts 1, 2, ... of a content whose head is already in place. */
    method SendParts(id: nat, parts: seq<string>, chainId: string)
      requires IsSending(id) && parts != []
      requires layout.chains[id].chainId == chainId && layout.chains[id].pieces == parts && |layout.chains[id].ids| == 1
      modifies this, client
      ensures IsSending(id) && layout.texts == old(layout.texts) && layout.chains - {id} == old(layout.chains) - {id}
      ensures layout.chains[id].chainId == chainId && layout.chains[id].pieces == parts
      ensures |layout.chains[id].ids| == |parts|
      ensures IsNewer(PartIds(), old(PartIds()), old(client.nextId)) && client.nextId >= old(client.nextId)
    {
      var index := 1;
      while index < |parts|
        invariant 1 <= index <= |parts|
        invariant IsSending(id) && layout.texts == old(layout.texts)
        invariant layout.chains - {id} == old(layout.chains) - {id}
        invariant layout.chains[id].chainId == chainId && layout.chains[id].pieces == parts
        invariant |layout.chains[id].ids| == index
        invariant IsNewer(PartIds(), old(PartIds()), old(client.nextId)) && client.nextId >= old(client.nextId)
      {
        SendPart(id, parts, chainId, index);
        index := index + 1;
      }
    }

    /** Completes a chained content whose head message has just been written under `id`. */
    method CompleteChain(id: nat, content: string, parts: seq<string>, chainId: string)
      requires ReadsBack(reader)
      requires IsChained(content) && parts == SplitContent(content) && |parts| >= 2
      requires Represents(cells, layout) && id !in cells && IsCut(layout.texts, layout.chains)
      requires IsUnused(chainId)
      requires client.Valid() && id < client.nextId
      requires IsRendered(reader, client.View() - {id}, cells) && id in client.View()
      requires client.View()[id] == RenderStart(|parts|, chainId, parts[0])
      modifies this, client
      ensures Valid() && View() == old(View())[id := content]
      ensures IsNewer(PartIds(), old(PartIds()), old(client.nextId)) && client.nextId >= old(client.nextId)
      ensures ChainIds() <= old(ChainIds()) + {chainId}
    {
      OpenChain(id, content, Chain(chainId, parts, [id]));
      assert layout.chains - {id} == old(layout.chains);
      SendParts(id, parts, chainId);
      ChainCompleted(old(layout), layout, id, content, parts, chainId);
    }

    /** The layout once a content has been written as one message. */
    ghost method AddContent(id: nat, content: string)
      requires ReadsBack(reader)
      requires Represents(cells, layout) && id !in cells && IsCut(layout.texts, layout.chains)
      requires !IsChained(content) && IsUnambiguous(reader, content)
      requires client.Valid() && IsRendered(reader, client.View() - {id}, cells) && id in client.View()
      requires client.View()[id] == content
      modifies this
      ensures Valid() && View() == old(View())[id := content] && PartIds() == old(PartIds())
      ensures ChainIds() == old(ChainIds())
    {
      AddWhole(cells, layout, id, content);
      assert cells - {id} == cells && client.View() == client.View()[id := Render(Whole(content))];
      AddRendered(reader, client.View(), cells, id, Whole(content));
      AddedCut(layout.texts, layout.chains, id, content, Chain("", [], []));
      cells, layout := cells[id := Whole(content)], WithWhole(layout, id, content);
    }

    /** An id that `generateId` has not returned before. */
    ghost predicate IsUnused(chainId: string)
      reads this
    {
      IsPlainId(chainId) && chainId != "" && chainId !in ChainIds()
    }

    method SendMessage(content: string, chainId: string) returns (id: nat)
      requires client.Valid() && (IsUnambiguous(reader, content) ==> Valid() && IsUnused(chainId))
      modifies this, client
      ensures client.Valid() && id == old(client.nextId) < client.nextId
      ensures !IsChained(content) ==>
        client.View() == old(client.View())[id := content] && IsNewest(id) && ChainIds() == old(ChainIds())
      ensures IsUnambiguous(reader, content) ==>
        && Valid() && View() == old(View())[id := content]
        && IsNewer(PartIds(), old(PartIds()), old(client.nextId)) && ChainIds() <= old(ChainIds()) + {chainId}
    {
      if |content| <= MAX_MESSAGE_LENGTH {
        id := client.Send(content);
        assert client.View() - {id} == old(client.View());
        ContentsAt(client.log, |client.log| - 1);
        if IsUnambiguous(reader, content) {
          AddContent(id, content);
        }
      } else {
        id := SendChainedMessage(content, chainId);
      }
    }

    method SendChainedMessage(content: string, chainId: string) returns (id: nat)
      requires Valid() && IsChained(content) && IsUnused(chainId)
      modifies this, client
      ensures Valid() && id == old(client.nextId) < client.nextId
      ensures View() == old(View())[id := content]
      ensures IsNewer(PartIds(), old(PartIds()), old(client.nextId)) && ChainIds() <= old(ChainIds()) + {chainId}
    {
      var parts := SplitIntoParts(content);
      ContentPieces(content);
      id := client.Send(RenderStart(|parts|, chainId, parts[0]));
      assert client.View() - {id} == old(client.View());
      CompleteChain(id, content, parts, chainId);
    }

    /** False when there is no such message: the provider reports an error, and nothing has changed. */
    method EditMessage(id: nat, content: string, chainId: string) returns (ok: bool)
      requires Valid() && IsUnambiguous(reader, content) && id !in PartIds() && IsUnused(chainId)
      modifies this, client
      ensures Valid()
      ensures ok == (id in old(View()))
      ensures View() == if ok then old(View())[id := content] else old(View())
      ensures IsNewer(PartIds(), old(PartIds()), old(client.nextId)) && ChainIds() <= old(ChainIds()) + {chainId}
      ensures client.nextId >= old(client.nextId)
    {
      var found, _ := ClearChain(id);
      assert View()[id := content] == old(View())[id := content];
      assert !found ==> View() == old(View());
      if |content| <= MAX_MESSAGE_LENGTH {
        ok := RewriteWhole(id, content);
      } else {
        ok := RewriteChained(id, content, chainId);
      }
    }

    /** The messages of the channel apart from `id` stand for the contents apart from `id`. */
    ghost predicate IsCleared(id: nat)
      reads this, client
    {
      && client.Valid() && ReadsBack(reader)
      && IsRendered(reader, client.View() - {id}, cells) && Represents(cells, layout)
      && IsCut(layout.texts, layout.chains)
      && id !in layout.texts && id !in layout.owner
    }

    method RewriteWhole(id: nat, content: string) returns (ok: bool)
      requires IsCleared(id) && !IsChained(content) && IsUnambiguous(reader, content)
      modifies this, client
      ensures Valid() && ok == (id in old(client.View()))
      ensures View() == if ok then old(View())[id := content] else old(View())
      ensures PartIds() == old(PartIds()) && ChainIds() == old(ChainIds()) && client.nextId == old(client.nextId)
    {
      ghost var others := client.View() - {id};
      ok := client.Edit(id, content);
      assert client.View() - {id} == others;
      if ok {
        AddContent(id, content);
      } else {
        assert client.View() == others;
      }
    }

    method RewriteChained(id: nat, content: string, chainId: string) returns (ok: bool)
      requires IsCleared(id) && IsChained(content) && IsUnused(chainId)
      modifies this, client
      ensures Valid() && ok == (id in old(client.View()))
      ensures View() == if ok then old(View())[id := content] else old(View())
      ensures IsNewer(PartIds(), old(PartIds()), old(client.nextId)) && ChainIds() <= old(ChainIds()) + {chainId}
      ensures client.nextId >= old(client.nextId)
    {
      ghost var others := client.View() - {id};
      var parts := SplitIntoParts(content);
      ContentPieces(content);
      ok := client.Edit(id, RenderStart(|parts|, chainId, parts[0]));
      assert client.View() - {id} == others;
      if ok {
        CompleteChain(id, content, parts, chainId);
      } else {
        assert client.View() == others;
      }
    }

    /** The layout once the head of a chained content is in the channel. */
    ghost method OpenChain(id: nat, content: string, chain: Chain)
      requires ReadsBack(reader)
      requires Represents(cells, layout) && id !in cells
      requires |chain.pieces| >= 2 && |chain.ids| == 1
      requires IsUnused(chain.chainId)
      requires client.Valid() && id < client.nextId
      requires IsRendered(reader, client.View() - {id}, cells) && id in client.View()
      requires client.View()[id] == RenderStart(|chain.pieces|, chain.chainId, chain.pieces[0])
      modifies this
      ensures layout == WithHead(old(layout), id, content, chain) && IsSending(id)
    {
      AddHead(cells, layout, id, content, chain);
      assert cells - {id} == cells && client.View() == client.View()[id := Render(HeadOf(chain))];
      AddRendered(reader, client.View(), cells, id, HeadOf(chain));
      cells, layout := cells[id := HeadOf(chain)], WithHead(layout, id, content, chain);
    }
  }
}
