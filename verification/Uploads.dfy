/** Resumable uploads: the session the server keeps, and the client that feeds it chunk by chunk. */
module Uploads {
  import opened Wrappers
  import opened Text
  import opened FileStorage

  datatype UploadError =
    | AlreadyComplete
    | OffsetMismatch(expected: nat, received: nat)
    | Incomplete(expected: nat, received: nat)
    | NoFile

  /**
   * `file.write(chunk, 0, chunk.length, offset)`: bytes beyond the chunk stay, a gap before it is filled with zeros.
   */
  function WrittenAt(file: seq<Byte>, offset: nat, chunk: seq<Byte>): seq<Byte> {
    var before := if offset <= |file| then file[..offset] else file + seq(offset - |file|, _ => 0);
    before + chunk + if offset + |chunk| <= |file| then file[offset + |chunk|..] else []
  }

  /** Every byte is the chunk's where the chunk is written, elsewhere the file's, and 0 in a gap. */
  lemma WrittenAtMeans(file: seq<Byte>, offset: nat, chunk: seq<Byte>)
    ensures var after := WrittenAt(file, offset, chunk);
      && |after| == (if |file| < offset + |chunk| then offset + |chunk| else |file|)
      && forall i :: 0 <= i < |after| ==>
           after[i] == if offset <= i < offset + |chunk| then chunk[i - offset] else if i < |file| then file[i] else 0
  {
    if offset + |chunk| > |file| {
      assert WrittenAt(file, offset, chunk) ==
        (if offset <= |file| then file[..offset] else file + seq(offset - |file|, _ => 0)) + chunk;
    }
  }

  datatype Request = Request(offset: nat, chunk: seq<Byte>)

  /** What an open session holds after a request. */
  function Accepted(received: seq<Byte>, request: Request): seq<Byte> {
    if request.offset == |received| then received + request.chunk else received
  }

  function AcceptedAll(requests: seq<Request>): seq<Byte> {
    if requests == [] then [] else Accepted(AcceptedAll(requests[..|requests| - 1]), requests[|requests| - 1])
  }

  ghost predicate IsSliceOf(request: Request, blob: seq<Byte>) {
    request.offset + |request.chunk| <= |blob|
    && request.chunk == blob[request.offset..request.offset + |request.chunk|]
  }

  /** Repeated, reordered and differently cut requests for one blob never leave anything but a prefix of it. */
  lemma {:induction false} RetriesKeepPrefix(blob: seq<Byte>, requests: seq<Request>)
    requires forall i :: 0 <= i < |requests| ==> IsSliceOf(requests[i], blob)
    ensures AcceptedAll(requests) <= blob
  {
    if requests != [] {
      var n := |requests| - 1;
      RetriesKeepPrefix(blob, requests[..n]);
      var received := AcceptedAll(requests[..n]);
      assert IsSliceOf(requests[n], blob);
      if requests[n].offset == |received| {
        assert received + requests[n].chunk == blob[..|received| + |requests[n].chunk|];
      }
    }
  }

  class UploadSession {
    const chunkSize: nat
    const totalSize: Option<nat>
    var file: Option<seq<Byte>>
    var uploadedBytes: nat
    var completed: bool

    /** The bytes the session has received. */
    ghost function Received(): seq<Byte>
      reads this
    {
      if file.Some? then file.value else []
    }

    ghost predicate Valid()
      reads this
    {
      uploadedBytes == |Received()|
    }

    constructor (chunkSize: nat, totalSize: Option<nat>)
      ensures Valid() && Received() == [] && file == None && !completed
      ensures this.chunkSize == chunkSize && this.totalSize == totalSize
    {
      this.chunkSize, this.totalSize := chunkSize, totalSize;
      file, uploadedBytes, completed := None, 0, false;
    }

    /**
     * A chunk is taken only at the offset where the last one ended, so a repeated or reordered request changes nothing.
     */
    method AppendChunk(offset: nat, chunk: seq<Byte>) returns (error: Option<UploadError>)
      requires Valid()
      modifies this`file, this`uploadedBytes
      ensures Valid()
      ensures error == None <==> !completed && offset == |old(Received())|
      ensures error == None ==> file == Some(Accepted(old(Received()), Request(offset, chunk)))
      ensures error.Some? ==> file == old(file)
      ensures error.Some? ==> error.value == if completed then AlreadyComplete else OffsetMismatch(|Received()|, offset)
    {
      if completed {
        return Some(AlreadyComplete);
      }
      if offset != uploadedBytes {
        return Some(OffsetMismatch(uploadedBytes, offset));
      }
      var bytes := if file.Some? then file.value else [];
      assert bytes[..offset] == bytes && bytes + chunk + [] == bytes + chunk;
      file := Some(WrittenAt(bytes, offset, chunk));
      uploadedBytes := uploadedBytes + |chunk|;
      error := None;
    }

    /** Why a session that cannot be completed is refused. */
    ghost function CompletionError(): UploadError
      reads this
    {
      if completed then AlreadyComplete
      else if totalSize.Some? && totalSize.value != |Received()| then Incomplete(totalSize.value, |Received()|)
      else NoFile
    }

    /** `stream` is how the file happens to be cut when it is read back. */
    method CompleteSession(service: StorageService, stream: seq<seq<Byte>>)
      returns (result: Result<FileRef, UploadError>)
      requires Valid() && service.channel.Valid() && Concat(stream) == Received()
      modifies this`completed, this`file, this`uploadedBytes, service.channel
      ensures service.channel.Valid()
      ensures result.Ok? <==>
        !old(completed) && old(file).Some? && (totalSize.Some? ==> totalSize.value == |old(Received())|)
      ensures result.Ok? ==>
        completed && Gained(old(service.channel.View()), service.channel.View(), ObjectIds(result.value))
      ensures result.Ok? ==> AreStored(service.channel.View(), PartsOf(result.value), Parts(old(Received())))
      ensures result.Ok? ==> FetchObject(service.channel.View(), result.value) == Some(old(Received()))
      ensures result.Err? ==> result.error == CompletionError()
      ensures result.Err? ==> Valid() && completed == old(completed) && file == old(file)
      ensures result.Err? ==> service.channel.View() == old(service.channel.View())
    {
      if completed {
        return Err(AlreadyComplete);
      }
      if totalSize.Some? && uploadedBytes != totalSize.value {
        return Err(Incomplete(totalSize.value, uploadedBytes));
      }
      if file == None {
        return Err(NoFile);
      }
      var ref := service.UploadStream(stream);
      completed, file := true, None;
      result := Ok(ref);
    }
  }

  /** The client's loop. It succeeds for every blob but the empty one, for which the session never gets a file. */
  method UploadResumable(session: UploadSession, service: StorageService, blob: seq<Byte>, stream: seq<seq<Byte>>)
    returns (result: Result<FileRef, UploadError>)
    requires session.Valid() && session.Received() == [] && session.file == None && !session.completed
    requires session.chunkSize > 0 && (session.totalSize.Some? ==> session.totalSize.value == |blob|)
    requires service.channel.Valid() && Concat(stream) == blob
    modifies session, service.channel
    ensures service.channel.Valid()
    ensures result.Ok? <==> blob != []
    ensures result.Ok? ==> FetchObject(service.channel.View(), result.value) == Some(blob)
    ensures result.Ok? ==> AreStored(service.channel.View(), PartsOf(result.value), Parts(blob))
    ensures result.Ok? ==> Gained(old(service.channel.View()), service.channel.View(), ObjectIds(result.value))
    ensures result.Err? ==> service.channel.View() == old(service.channel.View())
  {
    var offset := 0;
    while offset < |blob|
      invariant offset <= |blob| && session.Valid() && !session.completed
      invariant session.Received() == blob[..offset] && (session.file.Some? <==> offset > 0)
      invariant service.channel.Valid() && service.channel.View() == old(service.channel.View())
    {
      var chunk := blob[offset..Min(offset + session.chunkSize, |blob|)];
      assert blob[..offset] + chunk == blob[..offset + |chunk|];
      var error := session.AppendChunk(offset, chunk);
      match error {
        case Some(e) => return Err(e);
        case None =>
      }
      offset := offset + |chunk|;
    }
    assert blob[..|blob|] == blob;
    result := session.CompleteSession(service, stream);
  }
}
