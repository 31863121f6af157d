/** Files as media messages of a bucket channel: splitting, streaming uploads, multipart downloads and deletes. */
module FileStorage {
  import opened Wrappers
  import opened Text
  import opened MessageLog

  /** The most bytes of one media message: 1.9 * 1024^3, which is not a whole number. */
  const CHUNK_SIZE := 2040109465.6
  const PART_SIZE := 67108864

  type Byte = b: nat | b < 256

  datatype Post = Media(data: seq<Byte>) | Manifest(chunks: seq<nat>)

  type Posts = map<nat, Post>

  datatype FileRef = FileRef(messageId: nat, size: nat, chunks: seq<nat>, parts: seq<FileRef>)

  function MediaAt(posts: Posts, id: nat): Option<seq<Byte>> {
    if id in posts && posts[id].Media? then Some(posts[id].data) else None
  }

  function Joined(a: Option<seq<Byte>>, b: Option<seq<Byte>>): Option<seq<Byte>> {
    if a.Some? && b.Some? then Some(a.value + b.value) else None
  }

  function MediaOf(posts: Posts, ids: seq<nat>): Option<seq<Byte>> {
    if ids == [] then Some([])
    else Joined(MediaOf(posts, ids[..|ids| - 1]), MediaAt(posts, ids[|ids| - 1]))
  }

  /** What the provider downloads for a reference. */
  function Fetch(posts: Posts, file: FileRef): Option<seq<Byte>> {
    if file.chunks == [] then MediaAt(posts, file.messageId) else MediaOf(posts, file.chunks)
  }

  function FetchAll(posts: Posts, files: seq<FileRef>): Option<seq<Byte>> {
    if files == [] then Some([])
    else Joined(FetchAll(posts, files[..|files| - 1]), Fetch(posts, files[|files| - 1]))
  }

  /** `Buffer.concat(_, size)` cuts off or fills up with zeros. */
  function Fitted(data: seq<Byte>, size: nat): seq<Byte> {
    if size <= |data| then data[..size] else data + seq(size - |data|, _ => 0)
  }

  /** What the storage service downloads for a reference. */
  function FetchObject(posts: Posts, file: FileRef): Option<seq<Byte>> {
    if file.parts == [] then Fetch(posts, file)
    else match FetchAll(posts, file.parts)
      case Some(data) => Some(Fitted(data, file.size))
      case None => None
  }

  function Ids(file: FileRef): set<nat> {
    IdSet(file.chunks) + {file.messageId}
  }

  function IdSet(ids: seq<nat>): set<nat> {
    set id | id in ids
  }

  function IdsOfAll(files: seq<FileRef>): set<nat> {
    if files == [] then {} else IdsOfAll(files[..|files| - 1]) + Ids(files[|files| - 1])
  }

  function PartsOf(file: FileRef): seq<FileRef> {
    if file.parts == [] then [file] else file.parts
  }

  /** The messages that make up an object. */
  function ObjectIds(file: FileRef): set<nat> {
    IdsOfAll(PartsOf(file))
  }

  /** The channel gained messages under the ids given, and nothing else happened to it. */
  ghost predicate Gained(before: Posts, after: Posts, ids: set<nat>) {
    before.Keys !! ids && ids <= after.Keys && after - ids == before
  }

  lemma GainedTwice(a: Posts, b: Posts, c: Posts, first: set<nat>, second: set<nat>)
    requires Gained(a, b, first) && Gained(b, c, second)
    ensures Gained(a, c, first + second)
  {
    assert forall id :: id in a ==> id in b && id in c;
    assert forall id :: id in c ==> id in second || id in b;
    assert forall id :: id in b ==> b[id] == c[id];
  }

  lemma GainedKeeps(a: Posts, b: Posts, ids: set<nat>, id: nat)
    requires Gained(a, b, ids) && id in a
    ensures id in b && b[id] == a[id]
  {
    assert id in b - ids;
  }

  lemma {:induction false} MediaOfKept(a: Posts, b: Posts, more: set<nat>, ids: seq<nat>)
    requires Gained(a, b, more) && MediaOf(a, ids).Some?
    ensures MediaOf(b, ids) == MediaOf(a, ids)
  {
    if ids != [] {
      MediaOfKept(a, b, more, ids[..|ids| - 1]);
      GainedKeeps(a, b, more, ids[|ids| - 1]);
    }
  }

  /** A file that could be downloaded still can be. */
  lemma FetchKept(a: Posts, b: Posts, more: set<nat>, file: FileRef)
    requires Gained(a, b, more) && Fetch(a, file).Some?
    ensures Fetch(b, file) == Fetch(a, file)
  {
    if file.chunks == [] {
      GainedKeeps(a, b, more, file.messageId);
    } else {
      MediaOfKept(a, b, more, file.chunks);
    }
  }

  /** `files` are plain uploads of `datas`. */
  ghost predicate AreStored(posts: Posts, files: seq<FileRef>, datas: seq<seq<Byte>>) {
    |files| == |datas| && forall i :: 0 <= i < |files| ==> IsStored(posts, files[i], datas[i])
  }

  ghost predicate IsStored(posts: Posts, file: FileRef, data: seq<Byte>) {
    file.parts == [] && file.size == |data| && Fetch(posts, file) == Some(data)
  }

  lemma StoredKept(a: Posts, b: Posts, more: set<nat>, files: seq<FileRef>, datas: seq<seq<Byte>>)
    requires Gained(a, b, more) && AreStored(a, files, datas)
    ensures AreStored(b, files, datas)
  {
    forall i | 0 <= i < |files|
      ensures IsStored(b, files[i], datas[i])
    {
      assert IsStored(a, files[i], datas[i]);
      FetchKept(a, b, more, files[i]);
    }
  }

  lemma {:induction false} StoredFetched(posts: Posts, files: seq<FileRef>, datas: seq<seq<Byte>>)
    requires AreStored(posts, files, datas)
    ensures FetchAll(posts, files) == Some(Concat(datas))
  {
    if files != [] {
      var n := |files| - 1;
      assert IsStored(posts, files[n], datas[n]);
      forall i | 0 <= i < n
        ensures IsStored(posts, files[..n][i], datas[..n][i])
      {
        assert IsStored(posts, files[i], datas[i]);
      }
      StoredFetched(posts, files[..n], datas[..n]);
      assert datas == datas[..n] + [datas[n]];
      ConcatSnoc(datas[..n], datas[n]);
    }
  }

  lemma MediaOfSnoc(posts: Posts, ids: seq<nat>, id: nat)
    ensures MediaOf(posts, ids + [id]) == Joined(MediaOf(posts, ids), MediaAt(posts, id))
  {
    assert (ids + [id])[..|ids|] == ids;
  }

  lemma IdsSnoc(files: seq<FileRef>, file: FileRef)
    ensures IdsOfAll(files + [file]) == IdsOfAll(files) + Ids(file)
  {
    assert (files + [file])[..|files|] == files;
  }

  function Min(a: int, b: int): int {
    if a <= b then a else b
  }

  /** The pieces are not empty, follow each other without gap or overlap, and are a chunk long to within a byte. */
  ghost predicate IsSplit(chunks: seq<seq<Byte>>, data: seq<Byte>, chunkSize: real) {
    && Concat(chunks) == data
    && (forall i :: 0 <= i < |chunks| ==> 0.0 < |chunks[i]| as real < chunkSize + 1.0)
    && (forall i :: 0 <= i < |chunks| - 1 ==> chunkSize - 1.0 < |chunks[i]| as real)
  }

  /** `splitBuffer`: the positions are fractions, and taking a slice rounds both ends down. */
  method SplitBuffer(data: seq<Byte>, chunkSize: real) returns (chunks: seq<seq<Byte>>)
    requires chunkSize >= 1.0
    ensures IsSplit(chunks, data, chunkSize)
  {
    var index := 0.0;
    chunks := [];
    while index < |data| as real
      invariant 0.0 <= index
      invariant IsSplit(chunks, data[..Min(index.Floor, |data|)], chunkSize)
      invariant index < |data| as real ==> forall i :: 0 <= i < |chunks| ==> chunkSize - 1.0 < |chunks[i]| as real
      decreases |data| as real - index
    {
      var from, to := index.Floor, Min((index + chunkSize).Floor, |data|);
      ConcatSnoc(chunks, data[from..to]);
      assert data[..from] + data[from..to] == data[..to];
      chunks := chunks + [data[from..to]];
      index := index + chunkSize;
    }
    assert data[..|data|] == data;
  }

  /** What has to be stored for a file, whatever pieces it arrives in; an empty file is one empty part. */
  function Parts(data: seq<Byte>): seq<seq<Byte>> {
    if data == [] then [[]] else Chunks(data, PART_SIZE)
  }

  function ObjectOf(partRefs: seq<FileRef>, size: nat): FileRef
    requires partRefs != []
  {
    if |partRefs| == 1 then partRefs[0] else FileRef(partRefs[0].messageId, size, [], partRefs)
  }

  ghost predicate HoldsChunks(before: Posts, posts: Posts, ids: seq<nat>, data: seq<Byte>) {
    Gained(before, posts, IdSet(ids)) && MediaOf(posts, ids) == Some(data)
  }

  lemma IdSetSnoc(ids: seq<nat>, id: nat)
    ensures IdSet(ids + [id]) == IdSet(ids) + {id}
  {
  }

  lemma GainedOne(posts: Posts, id: nat, post: Post)
    requires id !in posts
    ensures Gained(posts, posts[id := post], {id})
  {
  }

  lemma HoldsNext(before: Posts, posts: Posts, ids: seq<nat>, data: seq<Byte>, id: nat, chunk: seq<Byte>)
    requires HoldsChunks(before, posts, ids, data) && id !in posts
    ensures HoldsChunks(before, posts[id := Media(chunk)], ids + [id], data + chunk)
  {
    var after := posts[id := Media(chunk)];
    assert MediaAt(after, id) == Some(chunk);
    GainedOne(posts, id, Media(chunk));
    MediaOfKept(posts, after, {id}, ids);
    MediaOfSnoc(after, ids, id);
    GainedTwice(before, posts, after, IdSet(ids), {id});
    IdSetSnoc(ids, id);
  }

  ghost predicate HoldsParts(before: Posts, posts: Posts, files: seq<FileRef>, datas: seq<seq<Byte>>) {
    Gained(before, posts, IdsOfAll(files)) && AreStored(posts, files, datas)
  }

  lemma HoldsOneMore(before: Posts, posts: Posts, after: Posts, files: seq<FileRef>, datas: seq<seq<Byte>>,
                     file: FileRef, data: seq<Byte>)
    requires HoldsParts(before, posts, files, datas) && Gained(posts, after, Ids(file)) && IsStored(after, file, data)
    ensures HoldsParts(before, after, files + [file], datas + [data])
  {
    StoredKept(posts, after, Ids(file), files, datas);
    GainedTwice(before, posts, after, IdsOfAll(files), Ids(file));
    IdsSnoc(files, file);
    forall i | 0 <= i < |files|
      ensures IsStored(after, files[i], datas[i])
    {
    }
  }

  lemma {:induction false} MediaOfMissing(posts: Posts, ids: seq<nat>, n: nat)
    requires n <= |ids| && MediaOf(posts, ids[..n]) == None
    ensures MediaOf(posts, ids) == None
    decreases |ids|
  {
    if n == |ids| {
      assert ids[..n] == ids;
    } else {
      assert ids[..|ids| - 1][..n] == ids[..n];
      MediaOfMissing(posts, ids[..|ids| - 1], n);
    }
  }

  lemma FetchAllSnoc(posts: Posts, files: seq<FileRef>, file: FileRef)
    ensures FetchAll(posts, files + [file]) == Joined(FetchAll(posts, files), Fetch(posts, file))
  {
    assert (files + [file])[..|files|] == files;
  }

  lemma {:induction false} FetchAllMissing(posts: Posts, files: seq<FileRef>, n: nat)
    requires n <= |files| && FetchAll(posts, files[..n]) == None
    ensures FetchAll(posts, files) == None
    decreases |files|
  {
    if n == |files| {
      assert files[..n] == files;
    } else {
      assert files[..|files| - 1][..n] == files[..n];
      FetchAllMissing(posts, files[..|files| - 1], n);
    }
  }

  /** Full parts went out, and with what is pending they are the bytes read. */
  ghost predicate IsBuffered(flushed: seq<seq<Byte>>, pending: seq<Byte>, read: seq<Byte>) {
    Concat(flushed) + pending == read && forall i :: 0 <= i < |flushed| ==> |flushed[i]| == PART_SIZE
  }

  lemma BufferMore(flushed: seq<seq<Byte>>, pending: seq<Byte>, read: seq<Byte>, more: seq<Byte>)
    requires IsBuffered(flushed, pending, read)
    ensures IsBuffered(flushed, pending + more, read + more)
  {
    assert (Concat(flushed) + pending) + more == Concat(flushed) + (pending + more);
  }

  lemma BufferLess(flushed: seq<seq<Byte>>, pending: seq<Byte>, read: seq<Byte>)
    requires IsBuffered(flushed, pending, read) && |pending| >= PART_SIZE
    ensures IsBuffered(flushed + [pending[..PART_SIZE]], pending[PART_SIZE..], read)
  {
    var part, rest := pending[..PART_SIZE], pending[PART_SIZE..];
    ConcatSnoc(flushed, part);
    assert pending == part + rest;
    assert (Concat(flushed) + part) + rest == Concat(flushed) + (part + rest);
  }

  lemma BufferDone(flushed: seq<seq<Byte>>, pending: seq<Byte>, read: seq<Byte>)
    requires IsBuffered(flushed, pending, read) && |pending| < PART_SIZE
    ensures if |pending| > 0 || flushed == [] then flushed + [pending] == Parts(read) else flushed == Parts(read)
  {
    var parts := if |pending| > 0 then flushed + [pending] else flushed;
    ConcatSnoc(flushed, pending);
    if pending == [] {
      assert Concat(flushed) + [] == Concat(flushed);
    }
    if flushed != [] {
      assert Concat(flushed) == flushed[0] + Concat(flushed[1..]);
    }
    assert IsPartition(parts, read, PART_SIZE);
    PartitionUnique(parts, read, PART_SIZE);
  }

  lemma ObjectFetched(posts: Posts, files: seq<FileRef>, datas: seq<seq<Byte>>, data: seq<Byte>)
    requires AreStored(posts, files, datas) && datas != [] && datas == Parts(data)
    ensures var file := ObjectOf(files, |data|);
      PartsOf(file) == files && FetchObject(posts, file) == Some(data) && file.size == |data|
  {
    StoredFetched(posts, files, datas);
    assert IsStored(posts, files[0], datas[0]);
    if data == [] {
      assert datas == [[]];
    } else {
      ChunksPartition(data, PART_SIZE);
    }
    if |files| == 1 {
      assert datas == [datas[0]];
      ConcatOne(datas[0]);
    }
    ConcatOne<Byte>([]);
    assert Fitted(data, |data|) == data;
  }

  /** The parts of a file are 64 MiB each, but for the last one. */
  lemma PartsAre(data: seq<Byte>)
    ensures data == [] ==> Parts(data) == [[]]
    ensures data != [] ==> IsPartition(Parts(data), data, 64 * 1024 * 1024)
  {
    ChunksPartition(data, 64 * 1024 * 1024);
  }

  /** What is downloaded has the size of the reference: the parts joined, cut off behind it or filled up with zeros. */
  lemma FittedMeans(data: seq<Byte>, size: nat)
    ensures |Fitted(data, size)| == size
    ensures forall i :: 0 <= i < size ==> Fitted(data, size)[i] == if i < |data| then data[i] else 0
  {
  }

  /** Each message holds less than 1.9 GiB and a byte. */
  ghost predicate AreSmall(posts: Posts, ids: seq<nat>) {
    forall id :: id in ids && id in posts && posts[id].Media? ==>
      |posts[id].data| as real < 1.9 * 1024.0 * 1024.0 * 1024.0 + 1.0
  }

  lemma SmallNext(before: Posts, ids: seq<nat>, id: nat, chunk: seq<Byte>)
    requires AreSmall(before, ids) && id !in before
    requires |chunk| as real < 1.9 * 1024.0 * 1024.0 * 1024.0 + 1.0
    ensures AreSmall(before[id := Media(chunk)], ids + [id])
  {
    var after := before[id := Media(chunk)];
    forall other | other in ids + [id] && other in after && after[other].Media?
      ensures |after[other].data| as real < 1.9 * 1024.0 * 1024.0 * 1024.0 + 1.0
    {
      assert other != id ==> other in ids && after[other] == before[other];
    }
  }

  /** A file that fits into one message. */
  lemma OneStored(posts: Posts, id: nat, data: seq<Byte>)
    requires id !in posts && |data| as real < 1.9 * 1024.0 * 1024.0 * 1024.0 + 1.0
    ensures var after, file := posts[id := Media(data)], FileRef(id, |data|, [], []);
      Gained(posts, after, Ids(file)) && IsStored(after, file, data) && AreSmall(after, [id] + file.chunks)
  {
    GainedOne(posts, id, Media(data));
  }

  /** A file in chunks, with its manifest behind them. */
  lemma ManyStored(before: Posts, posts: Posts, id: nat, ids: seq<nat>, data: seq<Byte>)
    requires HoldsChunks(before, posts, ids, data) && AreSmall(posts, ids) && ids != [] && id !in posts
    ensures var after, file := posts[id := Manifest(ids)], FileRef(id, |data|, ids, []);
      Gained(before, after, Ids(file)) && IsStored(after, file, data) && AreSmall(after, [id] + file.chunks)
  {
    GainedOne(posts, id, Manifest(ids));
    MediaOfKept(posts, posts[id := Manifest(ids)], {id}, ids);
    GainedTwice(before, posts, posts[id := Manifest(ids)], IdSet(ids), {id});
  }

  class StorageService {
    const channel: Channel<Post>

    constructor (channel: Channel<Post>)
      ensures this.channel == channel
    {
      this.channel := channel;
    }

    /** The provider's `uploadFile`. */
    method UploadFile(data: seq<Byte>) returns (file: FileRef)
      requires channel.Valid()
      modifies channel
      ensures channel.Valid() && Gained(old(channel.View()), channel.View(), Ids(file))
      ensures IsStored(channel.View(), file, data)
      ensures file.chunks == [] <==> |data| as real <= 1.9 * 1024.0 * 1024.0 * 1024.0
      ensures AreSmall(channel.View(), [file.messageId] + file.chunks)
    {
      ghost var before := channel.View();
      if |data| as real <= CHUNK_SIZE {
        var id := channel.Send(Media(data));
        OneStored(before, id, data);
        return FileRef(id, |data|, [], []);
      }
      var ids := SendChunks(data);
      ghost var posts := channel.View();
      var id := channel.Send(Manifest(ids));
      ManyStored(before, posts, id, ids, data);
      file := FileRef(id, |data|, ids, []);
    }

    method SendChunks(data: seq<Byte>) returns (ids: seq<nat>)
      requires channel.Valid() && data != []
      modifies channel
      ensures channel.Valid() && ids != [] && HoldsChunks(old(channel.View()), channel.View(), ids, data)
      ensures AreSmall(channel.View(), ids)
    {
      var chunks := SplitBuffer(data, CHUNK_SIZE);
      ids := [];
      for i := 0 to |chunks|
        invariant channel.Valid() && |ids| == i
        invariant HoldsChunks(old(channel.View()), channel.View(), ids, Concat(chunks[..i]))
        invariant AreSmall(channel.View(), ids)
      {
        ghost var posts := channel.View();
        var id := channel.Send(Media(chunks[i]));
        HoldsNext(old(channel.View()), posts, ids, Concat(chunks[..i]), id, chunks[i]);
        SmallNext(posts, ids, id, chunks[i]);
        assert chunks[..i + 1] == chunks[..i] + [chunks[i]];
        ConcatSnoc(chunks[..i], chunks[i]);
        ids := ids + [id];
      }
      assert chunks[..|chunks|] == chunks;
    }

    /** The provider's `downloadFile`; `None` when it throws because a message is missing. */
    method DownloadFile(file: FileRef) returns (data: Option<seq<Byte>>)
      requires channel.Valid()
      ensures data == Fetch(channel.View(), file)
    {
      if file.chunks == [] {
        data := DownloadMedia(file.messageId);
        return;
      }
      var buffers: seq<Byte> := [];
      for i := 0 to |file.chunks|
        invariant MediaOf(channel.View(), file.chunks[..i]) == Some(buffers)
      {
        var buffer := DownloadMedia(file.chunks[i]);
        MediaOfSnoc(channel.View(), file.chunks[..i], file.chunks[i]);
        assert file.chunks[..i + 1] == file.chunks[..i] + [file.chunks[i]];
        if buffer == None {
          MediaOfMissing(channel.View(), file.chunks, i + 1);
          return None;
        }
        buffers := buffers + buffer.value;
      }
      assert file.chunks[..|file.chunks|] == file.chunks;
      data := Some(buffers);
    }

    method DownloadMedia(id: nat) returns (data: Option<seq<Byte>>)
      requires channel.Valid()
      ensures data == MediaAt(channel.View(), id)
    {
      var post := channel.Get(id);
      data := if post.Some? && post.value.Media? then Some(post.value.data) else None;
    }

    /** The provider's `deleteFile`. */
    method DeleteFile(file: FileRef)
      requires channel.Valid()
      modifies channel
      ensures channel.Valid() && channel.View() == old(channel.View()) - Ids(file)
    {
      channel.Delete(Ids(file));
    }

    /** Cuts a stream of pieces of any length into parts of `PART_SIZE` bytes, which depend on the bytes alone. */
    method UploadStream(stream: seq<seq<Byte>>) returns (file: FileRef)
      requires channel.Valid()
      modifies channel
      ensures channel.Valid() && Gained(old(channel.View()), channel.View(), ObjectIds(file))
      ensures AreStored(channel.View(), PartsOf(file), Parts(Concat(stream)))
      ensures FetchObject(channel.View(), file) == Some(Concat(stream)) && file.size == |Concat(stream)|
    {
      var pending: seq<Byte> := [];
      var partRefs: seq<FileRef> := [];
      ghost var flushed: seq<seq<Byte>> := [];
      for i := 0 to |stream|
        invariant channel.Valid() && HoldsParts(old(channel.View()), channel.View(), partRefs, flushed)
        invariant |pending| < PART_SIZE && IsBuffered(flushed, pending, Concat(stream[..i]))
      {
        assert stream[..i + 1] == stream[..i] + [stream[i]];
        ConcatSnoc(stream[..i], stream[i]);
        BufferMore(flushed, pending, Concat(stream[..i]), stream[i]);
        pending := pending + stream[i];
        while |pending| >= PART_SIZE
          invariant channel.Valid() && HoldsParts(old(channel.View()), channel.View(), partRefs, flushed)
          invariant IsBuffered(flushed, pending, Concat(stream[..i + 1]))
        {
          BufferLess(flushed, pending, Concat(stream[..i + 1]));
          partRefs := FlushPart(old(channel.View()), partRefs, flushed, pending[..PART_SIZE]);
          flushed := flushed + [pending[..PART_SIZE]];
          pending := pending[PART_SIZE..];
        }
      }
      assert stream[..|stream|] == stream;
      BufferDone(flushed, pending, Concat(stream));
      if |pending| > 0 || |partRefs| == 0 {
        partRefs := FlushPart(old(channel.View()), partRefs, flushed, pending);
        flushed := flushed + [pending];
      }
      file := ObjectOf(partRefs, |Concat(stream)|);
      ObjectFetched(channel.View(), partRefs, flushed, Concat(stream));
    }

    method FlushPart(ghost before: Posts, files: seq<FileRef>, ghost datas: seq<seq<Byte>>, data: seq<Byte>)
      returns (files': seq<FileRef>)
      requires channel.Valid() && HoldsParts(before, channel.View(), files, datas)
      modifies channel
      ensures channel.Valid() && HoldsParts(before, channel.View(), files', datas + [data])
    {
      ghost var posts := channel.View();
      var file := UploadFile(data);
      HoldsOneMore(before, posts, channel.View(), files, datas, file, data);
      files' := files + [file];
    }

    method Download(file: FileRef) returns (data: Option<seq<Byte>>)
      requires channel.Valid()
      ensures data == FetchObject(channel.View(), file)
    {
      if file.parts == [] {
        data := DownloadFile(file);
        return;
      }
      var buffers: seq<Byte> := [];
      for i := 0 to |file.parts|
        invariant FetchAll(channel.View(), file.parts[..i]) == Some(buffers)
      {
        var buffer := DownloadFile(file.parts[i]);
        FetchAllSnoc(channel.View(), file.parts[..i], file.parts[i]);
        assert file.parts[..i + 1] == file.parts[..i] + [file.parts[i]];
        if buffer == None {
          FetchAllMissing(channel.View(), file.parts, i + 1);
          return None;
        }
        buffers := buffers + buffer.value;
      }
      assert file.parts[..|file.parts|] == file.parts;
      data := Some(Fitted(buffers, file.size));
    }

    /** Deleting what an upload returned takes away exactly the messages the upload added. */
    method DeleteObject(file: FileRef)
      requires channel.Valid()
      modifies channel
      ensures channel.Valid() && channel.View() == old(channel.View()) - ObjectIds(file)
    {
      if file.parts == [] {
        IdsSnoc([], file);
        DeleteFile(file);
        return;
      }
      for i := 0 to |file.parts|
        invariant channel.Valid() && channel.View() == old(channel.View()) - IdsOfAll(file.parts[..i])
      {
        IdsSnoc(file.parts[..i], file.parts[i]);
        assert file.parts[..i + 1] == file.parts[..i] + [file.parts[i]];
        DeleteFile(file.parts[i]);
      }
      assert file.parts[..|file.parts|] == file.parts;
    }
  }
}
