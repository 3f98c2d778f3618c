/** The Amazon S3 file service: existence-guarded signed-URL generation and
    delete, and the key lister that pages through `ListObjectsV2` answers. */
module AwsFileService {
  import opened Wrappers
  import opened Int32
  import opened Errors
  import opened FileModels
  import opened ObjectStore
  import opened Paging

  class AwsFileService {
    const s3Client: Store

    constructor (s3Client: Store)
      ensures this.s3Client == s3Client
    {
      this.s3Client := s3Client;
    }

    /** Whether the object `file` names is in its bucket, by a metadata probe.
        A NotFound answer means it is not; any other failure propagates. */
    method DoesFileExist(file: Option<FileModel>, fault: Option<ErrorStatus>) returns (r: Result<bool, Error>)
      modifies s3Client
      ensures s3Client.objects == old(s3Client.objects)
      ensures file.None? ==> r == Failure(ArgumentNull("file")) && unchanged(s3Client)
      ensures file.Some? && !file.value.S3FileModel? ==>
        r == Failure(InvalidArgument(WrongFileModel)) && unchanged(s3Client)
      ensures file.Some? && file.value.S3FileModel? ==>
        var bucket := file.value.bucketName;
        var key := file.value.keyName;
        && s3Client.calls == old(s3Client.calls) + [HeadRequest(bucket, key)]
        && (fault.None? ==> r == Success(old(s3Client.Contains(bucket, key))))
        && (fault == Some(NotFound) ==> r == Success(false))
        && (fault.Some? && fault.value != NotFound ==> r == Failure(BackendError(fault.value)))
    {
      if file.None? {
        return Failure(ArgumentNull("file"));
      }
      if !file.value.S3FileModel? {
        return Failure(InvalidArgument(WrongFileModel));
      }
      var status := s3Client.Head(file.value.bucketName, file.value.keyName, fault);
      if status == NotFound {
        return Success(false);
      }
      if status != 200 {
        return Failure(BackendError(status));
      }
      return Success(true);
    }

    /** A pre-signed URL for the object `file` names, valid for `expiration`.
        An object found missing is reported as an invalid operation, and then no
        URL is generated. */
    method GetSignedUrl(file: Option<FileModel>, expiration: int, fault: Option<ErrorStatus>)
      returns (r: Result<SignedUrl, Error>)
      modifies s3Client
      ensures s3Client.objects == old(s3Client.objects)
      ensures file.None? ==> r == Failure(ArgumentNull("file")) && unchanged(s3Client)
      ensures file.Some? && !file.value.S3FileModel? ==>
        r == Failure(InvalidArgument(WrongFileModel)) && unchanged(s3Client)
      ensures file.Some? && file.value.S3FileModel? ==>
        var bucket := file.value.bucketName;
        var key := file.value.keyName;
        if fault.None? && old(s3Client.Contains(bucket, key)) then
          && r == Success(SignedUrl(bucket, key, expiration))
          && s3Client.calls == old(s3Client.calls) + [HeadRequest(bucket, key), PresignRequest(bucket, key)]
        else
          && r == Failure(if fault.Some? && fault.value != NotFound then BackendError(fault.value) else InvalidOperation)
          && s3Client.calls == old(s3Client.calls) + [HeadRequest(bucket, key)]
    {
      if file.None? {
        return Failure(ArgumentNull("file"));
      }
      if !file.value.S3FileModel? {
        return Failure(InvalidArgument(WrongFileModel));
      }
      var fileExists := DoesFileExist(file, fault);
      if fileExists.Failure? {
        return Failure(fileExists.error);
      }
      if !fileExists.value {
        return Failure(InvalidOperation);
      }
      var url := s3Client.Presign(file.value.bucketName, file.value.keyName, expiration);
      return Success(url);
    }

    /** Deletes the object `file` names. An object found missing is reported as an
        invalid operation, and then no delete request is issued. */
    method DeleteFile(file: Option<FileModel>, fault: Option<ErrorStatus>) returns (r: Result<(), Error>)
      modifies s3Client
      ensures file.None? ==> r == Failure(ArgumentNull("file")) && unchanged(s3Client)
      ensures file.Some? && !file.value.S3FileModel? ==>
        r == Failure(InvalidArgument(WrongFileModel)) && unchanged(s3Client)
      ensures file.Some? && file.value.S3FileModel? ==>
        var bucket := file.value.bucketName;
        var key := file.value.keyName;
        if fault.None? && old(s3Client.Contains(bucket, key)) then
          && r == Success(())
          && s3Client.calls == old(s3Client.calls) + [HeadRequest(bucket, key), DeleteRequest(bucket, key)]
          && s3Client.objects == old(s3Client.objects)[bucket := old(s3Client.objects)[bucket] - {key}]
        else
          && r == Failure(if fault.Some? && fault.value != NotFound then BackendError(fault.value) else InvalidOperation)
          && s3Client.calls == old(s3Client.calls) + [HeadRequest(bucket, key)]
          && s3Client.objects == old(s3Client.objects)
    {
      if file.None? {
        return Failure(ArgumentNull("file"));
      }
      if !file.value.S3FileModel? {
        return Failure(InvalidArgument(WrongFileModel));
      }
      var fileExists := DoesFileExist(file, fault);
      if fileExists.Failure? {
        return Failure(fileExists.error);
      }
      if !fileExists.value {
        return Failure(InvalidOperation);
      }
      s3Client.Delete(file.value.bucketName, file.value.keyName);
      return Success(());
    }

    /** Page `request.pageNumber` (1-based) of size `request.pageSize` of the
        bucket's keys. `responses` are the answers `ListObjectsV2` gives, request
        after request, each to the continuation token of the one before; the
        request is checked before any list request is made, and `fetched` counts
        the list requests issued. */
    method GetKeys(request: Option<GetAllKeysRequest>, responses: seq<ListResponse>)
      returns (r: Result<seq<string>, Error>, ghost fetched: nat)
      ensures request.None? ==> r == Failure(ArgumentNull("request"))
      ensures request.Some? && request.value.bucketOrContainer.None? ==>
        r == Failure(ArgumentNull("BucketOrContainer"))
      ensures request.Some? && request.value.bucketOrContainer.Some?
              && (request.value.pageNumber <= 0 || request.value.pageSize <= 0) ==>
        r == Failure(InvalidArgument(NonPositivePaging))
      ensures request.Some? && request.value.bucketOrContainer.Some?
              && request.value.pageNumber > 0 && request.value.pageSize > 0 ==>
        r == PageOf(Enumerate(responses), StartIndexAsWritten(request.value.pageNumber, request.value.pageSize) as int,
                    request.value.pageSize as int)
      ensures request.Some? && request.value.bucketOrContainer.Some?
              && request.value.pageNumber > 0 && request.value.pageSize > 0
              && StartIndex(request.value.pageNumber as int, request.value.pageSize as int) < TwoTo31 ==>
        r == PageOf(Enumerate(responses), StartIndex(request.value.pageNumber as int, request.value.pageSize as int),
                    request.value.pageSize as int)
      ensures fetched == if request.Some? && request.value.bucketOrContainer.Some?
                            && request.value.pageNumber > 0 && request.value.pageSize > 0
                         then var pageSize := request.value.pageSize as int;
                              Consumed(responses, Lo(StartIndexAsWritten(request.value.pageNumber, request.value.pageSize) as int) + pageSize)
                         else 0
    {
      fetched := 0;
      if request.None? {
        return Failure(ArgumentNull("request")), fetched;
      }
      if request.value.bucketOrContainer.None? {
        return Failure(ArgumentNull("BucketOrContainer")), fetched;
      }
      if request.value.pageNumber <= 0 || request.value.pageSize <= 0 {
        return Failure(InvalidArgument(NonPositivePaging)), fetched;
      }
      var pageSize := request.value.pageSize as int;
      var keys: seq<string> := [];
      var continuationToken: Option<string> := None;
      var itemsProcessed := 0;
      // the skip count, as an unchecked 32-bit product
      var itemsToSkip := StartIndexAsWritten(request.value.pageNumber, request.value.pageSize) as int;
      AsWrittenInRange(request.value.pageNumber, request.value.pageSize);
      ghost var seen: seq<string> := [];  // the keys examined so far
      WalkStart(responses, itemsToSkip, pageSize);
      var i := 0;
      // one request per iteration; the walk goes on while the answer carried a
      // token and the page is still short
      while i < |responses|
        invariant WalkAt(responses, i, seen, itemsToSkip, pageSize) && fetched == i
        invariant itemsProcessed == |seen|
        invariant keys == Window(seen, itemsToSkip, pageSize) && |keys| < pageSize
      {
        // ListObjectsV2 with MaxKeys = PageSize and the current continuation token
        var response := responses[i];
        fetched := fetched + 1;
        if response.ListFailed? {
          // an AmazonS3Exception, rethrown: the keys gathered so far are dropped
          WalkFailed(responses, i, seen, itemsToSkip, pageSize);
          return Failure(BackendError(response.status)), fetched;
        }
        ghost var examined;
        keys, itemsProcessed, examined := TakeFromBatch(response.keys, itemsToSkip, pageSize, keys, itemsProcessed, seen);
        continuationToken := response.nextToken;
        if |keys| >= pageSize {
          WalkFull(responses, i, seen, examined, itemsToSkip, pageSize);
          break;
        }
        assert response.keys[..examined] == response.keys;
        if !HasToken(continuationToken) {
          WalkEnd(responses, i, seen, itemsToSkip, pageSize);
          break;
        }
        WalkNext(responses, i, seen, itemsToSkip, pageSize);
        seen := seen + response.keys;
        i := i + 1;
      }
      if i == |responses| {
        WalkExhausted(responses, seen, itemsToSkip, pageSize);
      }
      return Success(keys), fetched;
    }
  }

  /** The inner `foreach` of `GetKeys` over the objects of one `ListObjectsV2`
      answer: an object is added when `itemsProcessed` (the objects examined
      before it) has reached `itemsToSkip`, the walk stops as soon as `pageSize`
      keys are held, and `itemsProcessed` is advanced after each object not
      stopped at. `seen` stands for the keys examined before this answer;
      `examined` counts this answer's. */
  method TakeFromBatch(objects: seq<string>, itemsToSkip: int, pageSize: int,
                       keys0: seq<string>, itemsProcessed0: int, ghost seen: seq<string>)
    returns (keys: seq<string>, itemsProcessed: int, ghost examined: nat)
    requires pageSize >= 1 && itemsProcessed0 == |seen|
    requires keys0 == Window(seen, itemsToSkip, pageSize) && |keys0| < pageSize
    ensures examined <= |objects|
    ensures keys == Window(seen + objects[..examined], itemsToSkip, pageSize)
    ensures |keys| <= pageSize
    ensures |keys| < pageSize ==> examined == |objects| && itemsProcessed == |seen| + examined
  {
    keys, itemsProcessed := keys0, itemsProcessed0;
    var j := 0;
    while j < |objects|
      invariant 0 <= j <= |objects| && itemsProcessed == |seen| + j
      invariant keys == Window(seen + objects[..j], itemsToSkip, pageSize) && |keys| < pageSize
    {
      var key := objects[j];
      ghost var before := seen + objects[..j];
      WindowSnoc(before, key, itemsToSkip, pageSize);
      assert seen + objects[..j + 1] == before + [key];
      assert itemsProcessed >= itemsToSkip <==> |before| >= Lo(itemsToSkip);
      if itemsProcessed >= itemsToSkip {
        keys := keys + [key];
        if |keys| >= pageSize {
          // stopped at this object: it is examined but not counted
          examined := j + 1;
          return;
        }
      }
      itemsProcessed := itemsProcessed + 1;
      j := j + 1;
    }
    examined := j;
  }
}
