/** The texts a channel holds for the contents stored in it, and the pages it shows. */
module ChainTexts {
  import opened Wrappers
  import opened Text
  import opened MessageLog
  import opened ChainCodec
  import opened ChainStore

  ghost function HeadText(total: nat, chainId: string, piece: string): string {
    "__CHAIN_START__{\"total\":" + Numeral(total) + ",\"chainId\":\"" + chainId + "\"}\n" + piece
  }

  ghost function PartText(chainId: string, index: nat, parent: nat, piece: string): string {
    "__CHAIN__{\"chainId\":\"" + chainId + "\",\"index\":" + Numeral(index) + ",\"parentId\":" + Numeral(parent) + "}\n"
    + piece
  }

  lemma HeadTextIs(total: nat, chainId: string, piece: string)
    ensures RenderStart(total, chainId, piece) == HeadText(total, chainId, piece)
  {
    assert "__CHAIN_START__" + "{\"total\":" == "__CHAIN_START__{\"total\":";
    assert "\"}" + "\n" == "\"}\n";
  }

  lemma PartTextIs(chainId: string, index: nat, parent: nat, piece: string)
    ensures RenderPart(chainId, index, parent, piece) == PartText(chainId, index, parent, piece)
  {
    assert "__CHAIN__" + "{\"chainId\":\"" == "__CHAIN__{\"chainId\":\"";
    assert "}" + "\n" == "}\n";
  }

  ghost predicate HoldsPart(raw: map<nat, string>, chainId: string, index: nat, parent: nat, piece: string) {
    exists m :: m > parent && m in raw && raw[m] == PartText(chainId, index, parent, piece)
  }

  /** The content is cut into pieces of 3800 characters, the first in the message itself, the others in later ones. */
  ghost predicate IsInPieces(raw: map<nat, string>, id: nat, content: string, chainId: string, pieces: seq<string>) {
    && IsPartition(pieces, content, 3800) && pieces != []
    && id in raw && raw[id] == HeadText(|pieces|, chainId, pieces[0])
    && forall k :: 1 <= k < |pieces| ==> HoldsPart(raw, chainId, k, id, pieces[k])
  }

  /** Up to 4000 characters are one message; more are in pieces. */
  ghost predicate IsKeptAt(raw: map<nat, string>, id: nat, content: string) {
    if |content| <= 4000 then id in raw && raw[id] == content
    else exists chainId, pieces :: IsInPieces(raw, id, content, chainId, pieces)
  }

  /** The message is a piece of a content of more than 4000 characters. */
  ghost predicate IsPiece(raw: map<nat, string>, texts: map<nat, string>, m: nat) {
    exists id, chainId, k, piece ::
      id in texts && |texts[id]| > 4000 && id < m && m in raw && raw[m] == PartText(chainId, k, id, piece)
  }

  lemma KeptInPieces(reader: Reader, raw: map<nat, string>, cells: map<nat, Cell>, layout: Layout, id: nat)
    requires StandsFor(reader, raw, cells, layout) && id in layout.texts && |layout.texts[id]| > 4000
    ensures IsInPieces(raw, id, layout.texts[id], layout.chains[id].chainId, layout.chains[id].pieces)
  {
    var chain := layout.chains[id];
    CellKind(cells, layout, id);
    assert IsShown(reader, raw, cells, id);
    ChunksPartition(layout.texts[id], 3800);
    HeadTextIs(|chain.pieces|, chain.chainId, chain.pieces[0]);
    forall k | 1 <= k < |chain.pieces|
      ensures HoldsPart(raw, chain.chainId, k, id, chain.pieces[k])
    {
      assert ChainRight(cells, layout.owner, id, chain);
      assert IsShown(reader, raw, cells, chain.ids[k]);
      PartTextIs(chain.chainId, k, id, chain.pieces[k]);
    }
  }

  lemma OthersArePieces(reader: Reader, raw: map<nat, string>, cells: map<nat, Cell>, layout: Layout, m: nat)
    requires StandsFor(reader, raw, cells, layout) && m in raw && m !in layout.texts
    ensures IsPiece(raw, layout.texts, m)
  {
    CellKind(cells, layout, m);
    assert IsShown(reader, raw, cells, m);
    var ref := layout.owner[m];
    var chain := layout.chains[ref.parent];
    PartTextIs(chain.chainId, ref.index, ref.parent, chain.pieces[ref.index]);
    assert |layout.texts[ref.parent]| > 4000;
  }

  /** A valid provider keeps each of its contents in this form, and there is nothing else in its channel. */
  lemma ChannelHolds(provider: TelegramStorageProvider)
    requires provider.Valid()
    ensures forall id :: id in provider.View() ==> IsKeptAt(provider.client.View(), id, provider.View()[id])
    ensures forall m :: m in provider.client.View() && m !in provider.View() ==>
      IsPiece(provider.client.View(), provider.View(), m)
  {
    var reader, raw, cells, layout := provider.reader, provider.client.View(), provider.cells, provider.layout;
    forall id | id in layout.texts
      ensures IsKeptAt(raw, id, layout.texts[id])
    {
      if |layout.texts[id]| <= 4000 {
        CellKind(cells, layout, id);
        assert IsShown(reader, raw, cells, id);
      } else {
        KeptInPieces(reader, raw, cells, layout, id);
      }
    }
    forall m | m in raw && m !in layout.texts
      ensures IsPiece(raw, layout.texts, m)
    {
      OthersArePieces(reader, raw, cells, layout, m);
    }
  }

  /** Hexadecimal digits and hyphens, which a UUID is made of, stand for themselves in a JSON string. */
  lemma UuidsArePlain(id: string)
    requires forall i :: 0 <= i < |id| ==> '0' <= id[i] <= '9' || 'a' <= id[i] <= 'f' || id[i] == '-'
    ensures IsPlainId(id)
  {
  }

  lemma PartIsRead(reader: Reader, json: string, piece: string, header: (string, nat, Option<nat>))
    requires '\n' !in json && reader.part(json) == Some(header)
    ensures ParseChainPart(reader, "__CHAIN__" + json + "\n" + piece) ==
      Some(PartHeader(header.0, header.1, header.2, piece))
  {
    var text := "__CHAIN__" + json + "\n" + piece;
    assert text[..9] == "__CHAIN__";
    SplitOwnHeader("__CHAIN__", json, piece);
  }

  /**
   * A message that reads as a part goes with the message it names, and with every message of its chain; it is gathered
   * for the message it names, or, when it names none, for every message of its chain.
   */
  lemma PartIsDoomed(reader: Reader, json: string, piece: string, chainId: string, index: nat, parent: Option<nat>,
                     id: nat, start: Option<StartHeader>)
    requires '\n' !in json && reader.part(json) == Some((chainId, index, parent))
    ensures IsDoomed(ParseChainPart(reader, "__CHAIN__" + json + "\n" + piece), id, start) <==>
      parent == Some(id) || (start.Some? && start.value.chainId == chainId && chainId != "")
    ensures start.Some? ==>
      (Fits(ParseChainPart(reader, "__CHAIN__" + json + "\n" + piece), id, start.value.chainId) <==>
       start.value.chainId == chainId && (parent == None || parent == Some(id)))
  {
    PartIsRead(reader, json, piece, (chainId, index, parent));
  }

  /** What does not begin as a part does goes with no message. */
  lemma OthersAreNotDoomed(reader: Reader, text: string, id: nat, start: Option<StartHeader>)
    requires |text| < 9 || text[..9] != "__CHAIN__"
    ensures !IsDoomed(ParseChainPart(reader, text), id, start)
  {
  }

  // ----- Pages

  /** The message lies between the two ids of a request. */
  ghost predicate IsVisible<T>(m: Message<T>, offsetId: Option<nat>, minId: Option<nat>) {
    (offsetId.Some? ==> m.id < offsetId.value) && (minId.Some? ==> minId.value < m.id)
  }

  /** The page has the last elements of `w`, the last one first. */
  ghost predicate IsBackwards<T>(page: seq<T>, w: seq<T>, limit: nat) {
    && |page| == (if |w| <= limit then |w| else limit)
    && forall i :: 0 <= i < |page| ==> page[i] == w[|w| - 1 - i]
  }

  lemma PageIsBackwards<T>(w: seq<T>, limit: nat)
    ensures IsBackwards(Reverse(Newest(w, limit)), w, limit)
  {
  }

  /**
   * The visible messages are shown by descending id, as many as the limit lets through, and each that is shown is newer
   * than each that is left out.
   */
  ghost predicate ShowsNewest<T>(page: Log<T>, limit: nat, visible: Log<T>) {
    && |page| <= limit && (forall m :: m in page ==> m in visible)
    && (forall i, j :: 0 <= i < j < |page| ==> page[i].id > page[j].id)
    && forall m :: m in visible && m !in page ==> |page| == limit && forall i :: 0 <= i < |page| ==> m.id < page[i].id
  }

  lemma BackwardsShowsNewest<T>(page: Log<T>, limit: nat, w: Log<T>)
    requires Ascending(w) && IsBackwards(page, w, limit)
    ensures ShowsNewest(page, limit, w)
  {
    forall m | m in w
      ensures m in page || (|page| == limit && forall i :: 0 <= i < |page| ==> m.id < page[i].id)
    {
      var k :| 0 <= k < |w| && w[k] == m;
      if k >= |w| - |page| {
        assert page[|w| - 1 - k] == m;
      }
    }
  }

  /** A page shows the newest of the visible messages. */
  lemma PageMeans<T>(log: Log<T>, limit: nat, offsetId: Option<nat>, minId: Option<nat>) returns (visible: Log<T>)
    requires Ascending(log)
    ensures forall m :: m in visible <==> m in log && IsVisible(m, offsetId, minId)
    ensures ShowsNewest(Page(log, limit, offsetId, minId), limit, visible)
  {
    visible := Window(log, offsetId, minId);
    WindowAscending(log, offsetId, minId);
    PageIsBackwards(visible, limit);
    BackwardsShowsNewest(Page(log, limit, offsetId, minId), limit, visible);
    forall m
      ensures m in visible <==> m in log && IsVisible(m, offsetId, minId)
    {
      WindowMember(log, offsetId, minId, m);
    }
  }
}
