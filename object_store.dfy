/** The remote storage service both file services talk to: containers (Azure Blob)
    or buckets (S3) of named objects, and a log of the calls made through its client.
    It stands for the vendor SDK clients (`BlobServiceClient`, `IAmazonS3`). */
module ObjectStore {
  import opened Wrappers

  /** An HTTP status the service may answer a request with instead of success. */
  type ErrorStatus = s: int | 400 <= s < 600 witness 500

  const NotFound: int := 404

  /** A call made through the SDK client. A probe and a delete go to the service;
      presigning is computed by the client itself and sends nothing. */
  datatype Call =
    | HeadRequest(container: string, key: string)     // existence / metadata probe
    | DeleteRequest(container: string, key: string)
    | PresignRequest(container: string, key: string)  // signing a URL locally

  /** A read-only URL for one object, valid for `lifetime` from the moment it is
      issued. Its text depends on the clock and on vendor signing. */
  datatype SignedUrl = SignedUrl(container: string, key: string, lifetime: int)

  class Store {
    /** Object contents by container (or bucket) name, then by key. */
    var objects: map<string, map<string, string>>
    /** Every call made so far, in order. */
    ghost var calls: seq<Call>

    constructor (objects: map<string, map<string, string>>)
      ensures this.objects == objects && calls == []
    {
      this.objects := objects;
      calls := [];
    }

    predicate Contains(container: string, key: string)
      reads this
    {
      container in objects && key in objects[container]
    }

    /** Probes one object. Answers 200 when it is there and 404 when it or its
        container is not, unless the request fails with `fault`. */
    method Head(container: string, key: string, fault: Option<ErrorStatus>) returns (status: int)
      modifies this
      ensures objects == old(objects)
      ensures calls == old(calls) + [HeadRequest(container, key)]
      ensures status == if fault.Some? then fault.value else if old(Contains(container, key)) then 200 else NotFound
    {
      calls := calls + [HeadRequest(container, key)];
      status := if fault.Some? then fault.value else if Contains(container, key) then 200 else NotFound;
    }

    /** Deletes one object; every other object is left as it was. */
    method Delete(container: string, key: string)
      modifies this
      ensures calls == old(calls) + [DeleteRequest(container, key)]
      ensures objects == if container in old(objects) then old(objects)[container := old(objects)[container] - {key}] else old(objects)
      ensures !Contains(container, key)
    {
      calls := calls + [DeleteRequest(container, key)];
      if container in objects {
        objects := objects[container := objects[container] - {key}];
      }
    }

    /** Issues a signed URL for one object; no object changes. */
    method Presign(container: string, key: string, lifetime: int) returns (url: SignedUrl)
      modifies this
      ensures objects == old(objects)
      ensures calls == old(calls) + [PresignRequest(container, key)]
      ensures url == SignedUrl(container, key, lifetime)
    {
      calls := calls + [PresignRequest(container, key)];
      url := SignedUrl(container, key, lifetime);
    }
  }
}
