/** The Azure Blob Storage file service: existence-guarded delete and signed-URL
    generation, and the key lister that pages through a container's blob listing. */
module AzureFileService {
  import opened Wrappers
  import opened Int32
  import opened Errors
  import opened FileModels
  import opened ObjectStore
  import opened Paging

  class AzureFileService {
    const client: Store

    constructor (client: Store)
      ensures this.client == client
    {
      this.client := client;
    }

    /** Whether blob `blobName` is in container `containerName`. A 404 answer,
        whether for the blob or for its container, means it is not. */
    method DoesBlobExist(containerName: string, blobName: string, fault: Option<ErrorStatus>)
      returns (r: Result<bool, Error>)
      modifies client
      ensures client.objects == old(client.objects)
      ensures client.calls == old(client.calls) + [HeadRequest(containerName, blobName)]
      ensures fault.None? ==> r == Success(old(client.Contains(containerName, blobName)))
      ensures fault == Some(NotFound) ==> r == Success(false)
      ensures fault.Some? && fault.value != NotFound ==> r == Failure(BackendError(fault.value))
    {
      var status := client.Head(containerName, blobName, fault);
      if status == NotFound {
        return Success(false);
      }
      if status != 200 {
        return Failure(BackendError(status));
      }
      return Success(true);
    }

    /** Deletes the blob `file` names. A blob found missing is reported as an
        invalid operation, and then no delete request is issued. */
    method DeleteFile(file: Option<FileModel>, fault: Option<ErrorStatus>) returns (r: Result<(), Error>)
      modifies client
      ensures file.None? ==> r == Failure(ArgumentNull("file")) && unchanged(client)
      ensures file.Some? && !file.value.AzureBlobFileModel? ==>
        r == Failure(InvalidArgument(WrongFileModel)) && unchanged(client)
      ensures file.Some? && file.value.AzureBlobFileModel? ==>
        var container := file.value.containerName;
        var key := file.value.keyName;
        if fault.None? && old(client.Contains(container, key)) then
          && r == Success(())
          && client.calls == old(client.calls) + [HeadRequest(container, key), DeleteRequest(container, key)]
          && client.objects == old(client.objects)[container := old(client.objects)[container] - {key}]
        else
          && r == Failure(if fault.Some? && fault.value != NotFound then BackendError(fault.value) else InvalidOperation)
          && client.calls == old(client.calls) + [HeadRequest(container, key)]
          && client.objects == old(client.objects)
    {
      if file.None? {
        return Failure(ArgumentNull("file"));
      }
      if !file.value.AzureBlobFileModel? {
        return Failure(InvalidArgument(WrongFileModel));
      }
      var blob := file.value;
      var blobExists := DoesBlobExist(blob.containerName, blob.keyName, fault);
      if blobExists.Failure? {
        return Failure(blobExists.error);
      }
      if !blobExists.value {
        return Failure(InvalidOperation);
      }
      client.Delete(blob.containerName, blob.keyName);
      return Success(());
    }

    /** A read-only signed URL for the blob `file` names, valid for `expiration`.
        A blob found missing is reported as an invalid operation, and then no URL
        is generated. */
    method GetSignedUrl(file: Option<FileModel>, expiration: int, fault: Option<ErrorStatus>)
      returns (r: Result<SignedUrl, Error>)
      modifies client
      ensures client.objects == old(client.objects)
      ensures file.None? ==> r == Failure(ArgumentNull("file")) && unchanged(client)
      ensures file.Some? && !file.value.AzureBlobFileModel? ==>
        r == Failure(InvalidArgument(WrongFileModel)) && unchanged(client)
      ensures file.Some? && file.value.AzureBlobFileModel? ==>
        var container := file.value.containerName;
        var key := file.value.keyName;
        if fault.None? && old(client.Contains(container, key)) then
          && r == Success(SignedUrl(container, key, expiration))
          && client.calls == old(client.calls) + [HeadRequest(container, key), PresignRequest(container, key)]
        else
          && r == Failure(if fault.Some? && fault.value != NotFound then BackendError(fault.value) else InvalidOperation)
          && client.calls == old(client.calls) + [HeadRequest(container, key)]
    {
      if file.None? {
        return Failure(ArgumentNull("file"));
      }
      if !file.value.AzureBlobFileModel? {
        return Failure(InvalidArgument(WrongFileModel));
      }
      var blob := file.value;
      var blobExists := DoesBlobExist(blob.containerName, blob.keyName, fault);
      if blobExists.Failure? {
        return Failure(blobExists.error);
      }
      if !blobExists.value {
        return Failure(InvalidOperation);
      }
      var url := client.Presign(blob.containerName, blob.keyName, expiration);
      return Success(url);
    }

    /** Page `pageNumber` (1-based) of size `pageSize` of the container's keys.
        `pages` is the container's blob listing as the service delivers it, page
        after page; the arguments are checked before any of it is fetched, and
        `fetched` counts the listing pages the walk pulls. */
    method GetKeys(file: Option<FileModel>, pageNumber: int32, pageSize: int32, pages: seq<ListResponse>)
      returns (r: Result<seq<string>, Error>, ghost fetched: nat)
      ensures file.None? ==> r == Failure(ArgumentNull("file"))
      ensures file.Some? && !file.value.AzureBlobFileModel? ==> r == Failure(InvalidArgument(WrongFileModel))
      ensures file.Some? && file.value.AzureBlobFileModel? && (pageNumber <= 0 || pageSize <= 0) ==>
        r == Failure(InvalidArgument(NonPositivePaging))
      ensures file.Some? && file.value.AzureBlobFileModel? && pageNumber > 0 && pageSize > 0 ==>
        r == PageOf(Enumerate(pages), StartIndexAsWritten(pageNumber, pageSize) as int, pageSize as nat)
      ensures file.Some? && file.value.AzureBlobFileModel? && pageNumber > 0 && pageSize > 0
              && StartIndex(pageNumber as int, pageSize as int) < TwoTo31 ==>
        r == PageOf(Enumerate(pages), StartIndex(pageNumber as int, pageSize as int), pageSize as nat)
      ensures fetched == if file.Some? && file.value.AzureBlobFileModel? && pageNumber > 0 && pageSize > 0
                         then Consumed(pages, Lo(StartIndexAsWritten(pageNumber, pageSize) as int) + pageSize as int)
                         else 0
    {
      fetched := 0;
      if file.None? {
        return Failure(ArgumentNull("file")), fetched;
      }
      if !file.value.AzureBlobFileModel? {
        return Failure(InvalidArgument(WrongFileModel)), fetched;
      }
      if pageNumber <= 0 || pageSize <= 0 {
        return Failure(InvalidArgument(NonPositivePaging)), fetched;
      }
      var size := pageSize as int;
      var keys: seq<string> := [];
      // the skip count, as an unchecked 32-bit product
      var startIndex := StartIndexAsWritten(pageNumber, pageSize) as int;
      AsWrittenInRange(pageNumber, pageSize);
      var keysCount := 0;
      ghost var seen: seq<string> := [];  // the keys examined so far
      WalkStart(pages, startIndex, size);
      var i := 0;
      while i < |pages|
        invariant WalkAt(pages, i, seen, startIndex, size) && fetched == i
        invariant keysCount == |seen|
        invariant keys == Window(seen, startIndex, size) && |keys| < size
      {
        fetched := fetched + 1;
        match pages[i]
        case ListFailed(status) =>
          // the enumeration throws: the keys gathered so far are dropped
          WalkFailed(pages, i, seen, startIndex, size);
          return Failure(BackendError(status)), fetched;
        case Listed(items, token) =>
          ghost var examined;
          keys, keysCount, examined := TakeFromPage(items, startIndex, size, keys, keysCount, seen);
          // a full page ends the walk
          if |keys| >= size {
            WalkFull(pages, i, seen, examined, startIndex, size);
            break;
          }
          assert items[..examined] == items;
          if !HasToken(token) {
            // the listing has no further page
            WalkEnd(pages, i, seen, startIndex, size);
            break;
          }
          WalkNext(pages, i, seen, startIndex, size);
          seen := seen + items;
          i := i + 1;
      }
      if i == |pages| {
        WalkExhausted(pages, seen, startIndex, size);
      }
      return Success(keys), fetched;
    }
  }

  /** The inner `foreach` of `GetKeys` over the blobs of one listing page: each
      blob is counted, skipped while the count has not passed `startIndex`, and
      otherwise added, stopping as soon as `pageSize` keys are held. `seen` stands
      for the keys examined before this page; `examined` counts this page's. */
  method TakeFromPage(items: seq<string>, startIndex: int, pageSize: int,
                      keys0: seq<string>, keysCount0: int, ghost seen: seq<string>)
    returns (keys: seq<string>, keysCount: int, ghost examined: nat)
    requires pageSize >= 1 && keysCount0 == |seen|
    requires keys0 == Window(seen, startIndex, pageSize) && |keys0| < pageSize
    ensures examined <= |items| && keysCount == |seen| + examined
    ensures keys == Window(seen + items[..examined], startIndex, pageSize)
    ensures |keys| <= pageSize
    ensures |keys| < pageSize ==> examined == |items|
  {
    keys, keysCount := keys0, keysCount0;
    var j := 0;
    while j < |items|
      invariant 0 <= j <= |items| && keysCount == |seen| + j
      invariant keys == Window(seen + items[..j], startIndex, pageSize) && |keys| < pageSize
    {
      var item := items[j];
      ghost var before := seen + items[..j];
      WindowSnoc(before, item, startIndex, pageSize);
      assert seen + items[..j + 1] == before + [item];
      assert keysCount + 1 <= startIndex <==> |before| < Lo(startIndex);
      j := j + 1;
      // the blob is counted before it is tested
      keysCount := keysCount + 1;
      if keysCount <= startIndex {
        continue;
      }
      keys := keys + [item];
      if |keys| >= pageSize {
        break;
      }
    }
    examined := j;
  }
}
