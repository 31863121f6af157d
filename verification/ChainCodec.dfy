/** The texts of chained messages: marker, one line of JSON header, then a piece of the content. */
module ChainCodec {
  import opened Wrappers
  import opened Text

  const MAX_MESSAGE_LENGTH := 4000
  const PIECE_LENGTH := MAX_MESSAGE_LENGTH - 200
  const CHAIN_START := "__CHAIN_START__"
  const CHAIN_PART := "__CHAIN__"

  datatype StartHeader = StartHeader(total: nat, chainId: string, content: string)
  datatype PartHeader = PartHeader(chainId: string, index: nat, parentId: Option<nat>, content: string)

  /** A character that stands for itself inside a JSON string. */
  predicate IsPlainChar(c: char) {
    c != '\"' && c != '\\' && c >= ' '
  }

  predicate IsPlainId(id: string) {
    forall i :: 0 <= i < |id| ==> IsPlainChar(id[i])
  }

  /** `JSON.stringify({ total, chainId })`. */
  function StartJson(total: nat, chainId: string): string {
    "{\"total\":" + (Numeral(total) + (",\"chainId\":\"" + (chainId + "\"}")))
  }

  /** `JSON.stringify({ chainId, index, parentId })`. */
  function PartJson(chainId: string, index: nat, parentId: nat): string {
    "{\"chainId\":\"" + (chainId + PartNumbers(index, parentId))
  }

  function PartNumbers(index: nat, parentId: nat): string {
    "\",\"index\":" + (Numeral(index) + ParentId(parentId))
  }

  function ParentId(parentId: nat): string {
    ",\"parentId\":" + (Numeral(parentId) + "}")
  }

  function RenderStart(total: nat, chainId: string, piece: string): string {
    CHAIN_START + StartJson(total, chainId) + "\n" + piece
  }

  function RenderPart(chainId: string, index: nat, parentId: nat, piece: string): string {
    CHAIN_PART + PartJson(chainId, index, parentId) + "\n" + piece
  }

  /** A JSON natural number at the front of `s`, with the text after it. */
  function TakeNumeral(s: string): Option<(nat, string)> {
    var n := Span(IsDigit, s);
    if n == 0 || (n > 1 && s[0] == '0') then None else Some((NumeralValue(s[..n]), s[n..]))
  }

  /** The inside of a JSON string at the front of `s`, with the text after it. */
  function TakePlain(s: string): (string, string) {
    var n := Span(IsPlainChar, s);
    (s[..n], s[n..])
  }

  function ParseStartJson(json: string): Option<(nat, string)> {
    match StripPrefix("{\"total\":", json)
    case None => None
    case Some(afterTotal) =>
      match TakeNumeral(afterTotal)
      case None => None
      case Some((total, afterNumber)) =>
        match StripPrefix(",\"chainId\":\"", afterNumber)
        case None => None
        case Some(afterKey) =>
          var (chainId, end) := TakePlain(afterKey);
          if end == "\"}" then Some((total, chainId)) else None
  }

  /** The rest of a part header after its chain id. */
  function ParsePartNumbers(s: string): Option<(nat, Option<nat>)> {
    match StripPrefix("\",\"index\":", s)
    case None => None
    case Some(afterIndex) =>
      match TakeNumeral(afterIndex)
      case None => None
      case Some((index, end)) =>
        if end == "}" then Some((index, None)) else
        match ParseParentId(end)
        case None => None
        case Some(parentId) => Some((index, Some(parentId)))
  }

  function ParseParentId(s: string): Option<nat> {
    match StripPrefix(",\"parentId\":", s)
    case None => None
    case Some(afterParent) =>
      match TakeNumeral(afterParent)
      case None => None
      case Some((parentId, last)) => if last == "}" then Some(parentId) else None
  }

  function ParsePartJson(json: string): Option<(string, nat, Option<nat>)> {
    match StripPrefix("{\"chainId\":\"", json)
    case None => None
    case Some(afterKey) =>
      var (chainId, afterId) := TakePlain(afterKey);
      match ParsePartNumbers(afterId)
      case None => None
      case Some((index, parentId)) => Some((chainId, index, parentId))
  }

  /** The header line after a marker of `skip` characters, and the content after the first line break. */
  function SplitHeader(text: string, skip: nat): (string, string)
    requires skip <= |text|
  {
    var headerEnd := IndexOf(text, '\n');
    if headerEnd == -1 then
      (if skip < |text| then text[skip..|text| - 1] else "", text)
    else
      (if skip <= headerEnd then text[skip..headerEnd] else "", text[headerEnd + 1..])
  }

  /**
   * What `JSON.parse` makes of a header line: nothing when it throws, and otherwise the fields, an absent total
   * read as 0 and an absent chain id as "". Everything below holds for any reader of the headers that are written.
   */
  datatype Reader = Reader(start: string -> Option<(nat, string)>, part: string -> Option<(string, nat, Option<nat>)>)

  ghost predicate ReadsBack(reader: Reader) {
    && (forall total: nat, chainId: string {:trigger StartJson(total, chainId)} ::
          IsPlainId(chainId) ==> reader.start(StartJson(total, chainId)) == Some((total, chainId)))
    && (forall chainId: string, index: nat, parentId: nat {:trigger PartJson(chainId, index, parentId)} ::
          IsPlainId(chainId) ==>
            reader.part(PartJson(chainId, index, parentId)) == Some((chainId, index, Some(parentId))))
  }

  function ParseChainStart(reader: Reader, text: string): Option<StartHeader> {
    if !IsPrefix(CHAIN_START, text) then None else
    var (json, content) := SplitHeader(text, |CHAIN_START|);
    match reader.start(json)
    case None => None
    case Some((total, chainId)) => Some(StartHeader(total, chainId, content))
  }

  function ParseChainPart(reader: Reader, text: string): Option<PartHeader> {
    if !IsPrefix(CHAIN_PART, text) then None else
    var (json, content) := SplitHeader(text, |CHAIN_PART|);
    match reader.part(json)
    case None => None
    case Some((chainId, index, parentId)) => Some(PartHeader(chainId, index, parentId, content))
  }

  lemma {:induction false} NumeralLeads(n: nat)
    ensures |Numeral(n)| > 1 ==> Numeral(n)[0] != '0'
  {
    if n >= 10 {
      NumeralLeads(n / 10);
      if n < 100 {
        assert Numeral(n / 10) == [DIGITS[n / 10]];
      }
    }
  }

  lemma TakeOwnNumeral(n: nat, rest: string)
    requires rest == [] || !IsDigit(rest[0])
    ensures TakeNumeral(Numeral(n) + rest) == Some((n, rest))
  {
    var s := Numeral(n) + rest;
    SpanStops(IsDigit, Numeral(n), rest);
    assert s[..|Numeral(n)|] == Numeral(n) && s[|Numeral(n)|..] == rest;
    NumeralRoundTrip(n);
    NumeralLeads(n);
  }

  lemma TakeOwnPlain(id: string, rest: string)
    requires IsPlainId(id) && (rest == [] || !IsPlainChar(rest[0]))
    ensures TakePlain(id + rest) == (id, rest)
  {
    SpanStops(IsPlainChar, id, rest);
    assert (id + rest)[..|id|] == id && (id + rest)[|id|..] == rest;
  }

  lemma StartJsonRoundTrip(total: nat, chainId: string)
    requires IsPlainId(chainId)
    ensures ParseStartJson(StartJson(total, chainId)) == Some((total, chainId))
  {
    var s3 := chainId + "\"}";
    var s2 := ",\"chainId\":\"" + s3;
    var s1 := Numeral(total) + s2;
    StripOwnPrefix("{\"total\":", s1);
    TakeOwnNumeral(total, s2);
    StripOwnPrefix(",\"chainId\":\"", s3);
    TakeOwnPlain(chainId, "\"}");
  }

  lemma ParentIdRoundTrip(parentId: nat)
    ensures ParseParentId(ParentId(parentId)) == Some(parentId)
  {
    StripOwnPrefix(",\"parentId\":", Numeral(parentId) + "}");
    TakeOwnNumeral(parentId, "}");
  }

  lemma PartNumbersRoundTrip(index: nat, parentId: nat)
    ensures ParsePartNumbers(PartNumbers(index, parentId)) == Some((index, Some(parentId)))
  {
    var end := ParentId(parentId);
    StripOwnPrefix("\",\"index\":", Numeral(index) + end);
    assert end[0] == ',' && |end| > 1;
    TakeOwnNumeral(index, end);
    ParentIdRoundTrip(parentId);
  }

  lemma PartJsonRoundTrip(chainId: string, index: nat, parentId: nat)
    requires IsPlainId(chainId)
    ensures ParsePartJson(PartJson(chainId, index, parentId)) == Some((chainId, index, Some(parentId)))
  {
    var end := PartNumbers(index, parentId);
    StripOwnPrefix("{\"chainId\":\"", chainId + end);
    assert end[0] == '\"';
    TakeOwnPlain(chainId, end);
    PartNumbersRoundTrip(index, parentId);
  }

  /** There is such a reader: one that takes no other header than the written ones. */
  lemma StrictReadsBack()
    ensures ReadsBack(Reader(ParseStartJson, ParsePartJson))
  {
    forall total: nat, chainId: string | IsPlainId(chainId)
      ensures ParseStartJson(StartJson(total, chainId)) == Some((total, chainId))
    {
      StartJsonRoundTrip(total, chainId);
    }
    forall chainId: string, index: nat, parentId: nat | IsPlainId(chainId)
      ensures ParsePartJson(PartJson(chainId, index, parentId)) == Some((chainId, index, Some(parentId)))
    {
      PartJsonRoundTrip(chainId, index, parentId);
    }
  }

  lemma NoLineBreak(s: string)
    requires forall i :: 0 <= i < |s| ==> s[i] >= ' '
    ensures '\n' !in s
  {
  }

  lemma SplitOwnHeader(marker: string, json: string, content: string)
    requires '\n' !in marker && '\n' !in json
    ensures SplitHeader(marker + json + "\n" + content, |marker|) == (json, content)
  {
    var text := marker + json + "\n" + content;
    var at := |marker + json|;
    assert text[at] == '\n';
    assert forall i :: 0 <= i < at ==> text[i] == (marker + json)[i];
    assert IndexOf(text, '\n') == at by {
      var first := IndexOf(text, '\n');
      assert first != -1;
      assert forall i :: 0 <= i < first ==> text[..first][i] == text[i];
    }
    assert text[|marker|..at] == json && text[at + 1..] == content;
  }

  /** Reading back a head message. */
  lemma StartRoundTrip(reader: Reader, total: nat, chainId: string, piece: string)
    requires ReadsBack(reader) && IsPlainId(chainId)
    ensures ParseChainStart(reader, RenderStart(total, chainId, piece)) == Some(StartHeader(total, chainId, piece))
    ensures ParseChainPart(reader, RenderStart(total, chainId, piece)).None?
  {
    var text := RenderStart(total, chainId, piece);
    assert text[..|CHAIN_START|] == CHAIN_START;
    assert text[8] == 'S' && CHAIN_PART[8] == '_' && text[..|CHAIN_PART|][8] == text[8];
    NoLineBreak(StartJson(total, chainId));
    SplitOwnHeader(CHAIN_START, StartJson(total, chainId), piece);
  }

  /** Reading back a part message. */
  lemma PartRoundTrip(reader: Reader, chainId: string, index: nat, parentId: nat, piece: string)
    requires ReadsBack(reader) && IsPlainId(chainId)
    ensures ParseChainPart(reader, RenderPart(chainId, index, parentId, piece)) ==
      Some(PartHeader(chainId, index, Some(parentId), piece))
    ensures ParseChainStart(reader, RenderPart(chainId, index, parentId, piece)).None?
  {
    var text := RenderPart(chainId, index, parentId, piece);
    assert text[..|CHAIN_PART|] == CHAIN_PART;
    assert text[8] == '_' && CHAIN_START[8] == 'S' && text[..|CHAIN_START|][8] == text[8];
    NoLineBreak(PartJson(chainId, index, parentId));
    SplitOwnHeader(CHAIN_PART, PartJson(chainId, index, parentId), piece);
  }

  /** The three kinds of message the provider writes. */
  datatype Cell =
    | Whole(content: string)
    | Head(total: nat, chainId: string, piece: string)
    | Part(chainId: string, index: nat, parent: nat, piece: string)

  function Render(cell: Cell): string {
    match cell
    case Whole(content) => content
    case Head(total, chainId, piece) => RenderStart(total, chainId, piece)
    case Part(chainId, index, parent, piece) => RenderPart(chainId, index, parent, piece)
  }

  predicate IsWellFormed(reader: Reader, cell: Cell) {
    match cell
    case Whole(content) => |content| <= MAX_MESSAGE_LENGTH && IsUnambiguous(reader, content)
    case Head(_, chainId, _) => IsPlainId(chainId) && chainId != ""
    case Part(chainId, _, _, _) => IsPlainId(chainId) && chainId != ""
  }

  /** What `parseChainStart` and `parseChainPart` make of each kind of message. */
  function StartOf(cell: Cell): Option<StartHeader> {
    if cell.Head? then Some(StartHeader(cell.total, cell.chainId, cell.piece)) else None
  }

  function PartOf(cell: Cell): Option<PartHeader> {
    if cell.Part? then Some(PartHeader(cell.chainId, cell.index, Some(cell.parent), cell.piece)) else None
  }

  /** Each kind of message is recognised as what it is, and its fields are read back. */
  lemma CellRoundTrip(reader: Reader, cell: Cell)
    requires ReadsBack(reader) && IsWellFormed(reader, cell)
    ensures ParseChainStart(reader, Render(cell)) == StartOf(cell)
    ensures ParseChainPart(reader, Render(cell)) == PartOf(cell)
  {
    match cell
    case Whole(_) =>
    case Head(total, chainId, piece) => StartRoundTrip(reader, total, chainId, piece);
    case Part(chainId, index, parent, piece) => PartRoundTrip(reader, chainId, index, parent, piece);
  }

  /** Content the chain code never mistakes for one of its own messages. */
  predicate IsUnambiguous(reader: Reader, content: string) {
    |content| > MAX_MESSAGE_LENGTH || (ParseChainStart(reader, content).None? && ParseChainPart(reader, content).None?)
  }

  /** JSON text, which is all that the callers store, is of this kind. */
  lemma UnmarkedIsUnambiguous(reader: Reader, content: string)
    requires !IsPrefix("__CHAIN_", content)
    ensures IsUnambiguous(reader, content)
  {
    PrefixTransitive("__CHAIN_", CHAIN_START, content);
    PrefixTransitive("__CHAIN_", CHAIN_PART, content);
  }

  function SplitContent(content: string): seq<string> {
    Chunks(content, PIECE_LENGTH)
  }

  /**
   * A full part message stays within the limit exactly when its two counters have at most 119 digits together;
   * a head message when its counter has at most 125.
   */
  lemma RenderedLength(chainId: string, total: nat, index: nat, parentId: nat, piece: string)
    requires |chainId| == 36 && |piece| == PIECE_LENGTH
    ensures |RenderStart(total, chainId, piece)| <= MAX_MESSAGE_LENGTH <==> |Numeral(total)| <= 125
    ensures |RenderPart(chainId, index, parentId, piece)| <= MAX_MESSAGE_LENGTH
        <==> |Numeral(index)| + |Numeral(parentId)| <= 119
  {
  }
}
