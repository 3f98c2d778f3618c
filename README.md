# File storage service: paged key listing and existence guards

The repository puts one interface in front of two cloud object stores, Amazon S3
and Azure Blob Storage. Each provider class mostly forwards to its vendor SDK.
This model covers the two parts with logic of their own.

- **The paged key lister `GetKeysAsync`**, once per provider. Both versions
  answer "page `pageNumber` of size `pageSize`" the same way. They walk the
  provider's cursor-based listing from the start and discard the first
  `(pageNumber - 1) * pageSize` keys. They keep the next `pageSize` keys, and
  stop as soon as the page is full or the listing ends. Azure iterates
  `GetBlobsAsync().AsPages()`. S3 runs a `do … while` loop over `ListObjectsV2`
  answers, driven by the continuation token.
- **The existence guards** in front of delete and signed-URL generation. The
  object is probed first. A missing object raises `InvalidOperationException`,
  and then nothing is deleted and no URL is made. A 404 answer to the probe
  means "does not exist".

## How the model is built

- `wrappers.dfy`: `Option`, for a C# reference that may be null, and `Result`,
  for a call that returns or throws.
- `int32.dfy`: C#'s `int`, and `Wrap`, the wrap-around of unchecked 32-bit
  arithmetic.
- `errors.dfy`: the exceptions as values. `ArgumentNull` stands for
  `ArgumentNullException`, `InvalidArgument` for `ArgumentException`,
  `InvalidOperation` for `InvalidOperationException`, and `BackendError(status)`
  for an SDK failure.
- `file_models.dfy`: `FileModel`, with its S3 kind (bucket) and Azure kind
  (container); `GetAllKeysRequest`.
- `object_store.dfy`: class `Store`, the remote service. It holds the objects
  by container and key, plus a ghost log of the calls made through the client
  (probe and delete, which go to the service, and presigning, which the client
  computes locally).
- `paging.dfy`: the specification of the lister.
  - A listing is a sequence of `ListResponse` values. Each is one batch of keys
    with its continuation token, or one failed request.
  - `Enumerate` gives the keys the listing delivers. The listing ends at the
    first failure, or at the first batch whose token is null or empty. When
    the given answers run out, the last one given counts as the end even if it
    carries a token (see Left out).
  - `PageOf` gives the page a skip/take walk must return. `Window` cuts the
    keys; `Consumed` counts the requests the walk must issue.
  - Lemmas prove what the page is: its length, pages past the end, page 1, how
    consecutive pages tile the listing, independence from batching, and that no
    request is wasted.
  - The `Walk…` lemmas are the steps both loops share.
- `azure_file_service.dfy` and `aws_file_service.dfy`: the two provider
  classes, as imperative methods.
  - Each `GetKeys` keeps the source's loops and counters. The inner `foreach`
    over one batch is a helper method: `TakeFromPage` for Azure,
    `TakeFromBatch` for S3.
  - A ghost out-parameter `fetched` counts the responses pulled.
  - Both compute the skip count as the source does, as an unchecked 32-bit
    product (`StartIndexAsWritten`). Both are proved equal to
    `PageOf(Enumerate(listing), …)` and `Consumed(listing, …)` at that skip
    count. While the exact product fits in 32 bits, they are also proved equal
    to the page at the exact index `StartIndex`, about which the page lemmas
    are stated.
- `provider_agreement.dfy`: from those two contracts, the Azure lister and the S3
  lister return the same result on the same listing. They also issue the same
  number of requests. This holds although Azure counts a key before testing the
  skip count (`keysCount++; if (keysCount <= startIndex) continue;`), and S3
  tests before counting (`if (itemsProcessed >= itemsToSkip) …; itemsProcessed++`).

The listing, the probe's failure status and the signed URL's lifetime are
parameters: the model does no I/O. Two facts about the code:
- The S3 lister rejects only a null `BucketOrContainer`; an empty name goes on to
  the service. The Azure lister checks no container name.
- The Azure lister wraps every exception in a new `Exception`; the model keeps
  only the status (see Left out).

## Model

| member | source | states |
|---|---|---|
| `Int32.Wrap` | FileService.Azure/AzureFileService.cs:174 | an unchecked `int` result is the one 32-bit value congruent to the exact result modulo 2^32, and equals it when it is in range |
| `Paging.Window` | FileService.Azure/AzureFileService.cs:183-194 | the kept keys are the keys at positions skip, skip+1, … of the listing; there are min(size, N − skip) of them, or none when skip ≥ N; a negative skip discards nothing |
| `Paging.Consumed` | FileService.Azure/AzureFileService.cs:197-199 | a walk never issues more requests than the listing has answers, and issues at least one when there is one |
| `Paging.WindowSnoc` | FileService.Azure/AzureFileService.cs:182-194 | examining one more key discards it while the skip count is not passed, appends it while the page is short, and ignores it once the page is full |
| `Paging.WindowFull` | FileService.Azure/AzureFileService.cs:193-199 | once a page holds pageSize keys, no later key changes it |
| `Paging.WalkFull` | FileService.Azure/AzureFileService.cs:192-199 | when the page fills inside batch i, the walk returns that page and has fetched exactly i+1 batches |
| `Paging.WalkEnd` | FileService.AWS/AWSFileService.cs:224-228 | when a batch without a continuation token (null or empty) leaves the page short, the walk returns the short page and has fetched no further batch |
| `Paging.WalkFailed` | FileService.Azure/AzureFileService.cs:204-207 | a failed list request before the page is full fails the whole call with that status; no partial page is returned |
| `Paging.WalkNext` | FileService.AWS/AWSFileService.cs:211-226 | a batch that carries a token and leaves the page short moves the walk on to the next request with all its keys examined |
| `Paging.WalkExhausted` | FileService.Azure/AzureFileService.cs:178-202 | a walk that reaches the end of the listing returns the page it holds |
| `Paging.PageLength` | FileService.Azure/AzureFileService.cs:193-199 | a returned page has at most pageSize keys: exactly min(pageSize, N − startIndex), and 0 when startIndex ≥ N |
| `Paging.PastEndIsEmpty` | FileService.Azure/AzureFileService.cs:186-202 | a page that starts at or past the end of a listing that did not fail is an empty list, not an error; so is every page of an empty container |
| `Paging.FirstPage` | FileService.AWS/AWSFileService.cs:197-219 | page 1 is the first min(pageSize, N) keys |
| `Paging.FailsIffListingFailsEarly` | FileService.AWS/AWSFileService.cs:209-237 | the lister fails exactly when the listing fails before the page is full, and then carries the listing's status |
| `Paging.PagesTile` | FileService.AWS/AWSFileService.cs:197-219 | pages 1..k, each requested on its own with the same size and concatenated, are exactly the first min(N, k·pageSize) keys, with no gap and no repetition |
| `Paging.EnumerateBatches` | FileService.Azure/AzureFileService.cs:178-181 | a listing cut into batches, each but the last with a token, delivers their concatenation without failure |
| `Paging.PageIgnoresBatching` | FileService.Azure/AzureFileService.cs:178-200 | two batchings of the same keys give the same page: only the flattened order matters |
| `Paging.ConsumedSuffices` | FileService.Azure/AzureFileService.cs:197-199 | the requests a walk issues already decide its outcome: they are the whole listing, or they delivered every key the page needs, as a prefix of the listing |
| `Paging.ConsumedNecessary` | FileService.AWS/AWSFileService.cs:218-226 | no request is wasted: each one issued before the last had a token, and the keys gathered before the last request were too few to fill the page |
| `Paging.UnfetchedIrrelevant` | FileService.Azure/AzureFileService.cs:197-199 | answers after the last one fetched cannot change the result |
| `Paging.FiveKeysInBatchesOfTwo` | FileService.AWS/AWSFileService.cs:197-226 | keys a…e listed two per batch: page 2 of size 2 is [c, d], page 3 is [e], and page 4 is empty |
| `Paging.AsWrittenInRange` | FileService.AWS/AWSFileService.cs:197 | for positive page number and size, the 32-bit skip count equals the exact (pageNumber − 1)·pageSize if and only if that product is below 2^31 |
| `Paging.NegativeSkipIsFirstPage` | FileService.Azure/AzureFileService.cs:174-187 | a skip count that wrapped to a negative value comes from a product of at least 2^31, and the walk then returns page 1, since no key count is ever at or below it |
| `Paging.StartIndexOverflows` | FileService.Azure/AzureFileService.cs:174 | in 32 bits, (65537 − 1) · 65536 wraps to 0, where the exact skip count is 2^32 |
| `Paging.OverflowRepeatsFirstPage` | FileService.AWS/AWSFileService.cs:197 | as written, page 65537 of size 65536 of a non-empty listing with at most 2^32 keys repeats page 1; with the exact skip count it is empty |
| `ObjectStore.Store.Head` | FileService.AWS/AWSFileService.cs:62-68 | a probe changes no object, is logged, and answers 200 for a present object, 404 for an absent one, or the injected failure status |
| `ObjectStore.Store.Delete` | FileService.AWS/AWSFileService.cs:165-171 | a delete removes exactly that key from its container and is logged |
| `ObjectStore.Store.Presign` | FileService.AWS/AWSFileService.cs:131-138 | presigning changes no object, is logged, and yields the URL for that container, key and lifetime |
| `AzureFileService.AzureFileService.DoesBlobExist` | FileService.Azure/AzureFileService.cs:27-39 | true when the blob is in its container; a 404 answer means false; any other failure status is an error; only one probe is issued |
| `AzureFileService.AzureFileService.DeleteFile` | FileService.Azure/AzureFileService.cs:86-110 | a null file, or a file that is not an Azure blob model, fails before any request. If the blob exists, only it is removed, after one probe and one delete. Otherwise the call fails with `InvalidOperation` (or the probe's non-404 status), no delete is issued, and nothing changes |
| `AzureFileService.AzureFileService.GetSignedUrl` | FileService.Azure/AzureFileService.cs:112-154 | the same guards; an existing blob yields its URL after one probe and one presign; a missing one fails with `InvalidOperation` and no URL is generated; no object changes |
| `AzureFileService.AzureFileService.GetKeys` | FileService.Azure/AzureFileService.cs:156-208 | null file, wrong file model and non-positive page number or size fail, in that order, with no listing page fetched. Otherwise the result is `PageOf(Enumerate(listing), startIndex, pageSize)`, where startIndex is the unchecked 32-bit product (pageNumber − 1)·pageSize as line 174 computes it, and the number of pages fetched is `Consumed` for that walk. While the exact product is below 2^31, the result is the page at the exact index |
| `AzureFileService.TakeFromPage` | FileService.Azure/AzureFileService.cs:180-195 | the inner loop counts each blob before testing it against startIndex. It leaves the count equal to the blobs examined and the list equal to the window of all keys examined. It stops early only with a full page |
| `AwsFileService.AwsFileService.DoesFileExist` | FileService.AWS/AWSFileService.cs:51-79 | a null file or a non-S3 file model fails before any request; otherwise one metadata probe: present is true, NotFound is false, any other failure propagates |
| `AwsFileService.AwsFileService.GetSignedUrl` | FileService.AWS/AWSFileService.cs:114-146 | the same guards; an existing object yields its URL after one probe and one presign; a missing one fails with `InvalidOperation` before any presign call; no object changes |
| `AwsFileService.AwsFileService.DeleteFile` | FileService.AWS/AWSFileService.cs:148-177 | if the object exists, only it is removed, after one probe and one delete. Otherwise the call fails with `InvalidOperation` (or the probe's non-NotFound status), before any delete call, and nothing changes |
| `AwsFileService.AwsFileService.GetKeys` | FileService.AWS/AWSFileService.cs:179-238 | a null request, a null bucket and a non-positive page number or size fail, in that order, before any list request. Otherwise the result is `PageOf(Enumerate(responses), itemsToSkip, PageSize)`, where itemsToSkip is the unchecked 32-bit product (PageNumber − 1)·PageSize as line 197 computes it, and the number of list requests is `Consumed` for that walk. While the exact product is below 2^31, the result is the page at the exact index |
| `AwsFileService.TakeFromBatch` | FileService.AWS/AWSFileService.cs:211-223 | the inner loop appends a key only when itemsProcessed has reached itemsToSkip, and leaves the list equal to the window of all keys examined. Before a full page it has counted every object; it stops early only with a full page |
| `ProviderAgreement.PagersAgree` | FileService.AWS/AWSFileService.cs:197-226 | on the same listing, container, page number and page size, the Azure and S3 listers return the same result and issue the same number of list requests |

## Findings

| source | as written | input that shows it | evidently intended | confidence | as-written member | corrected member |
|---|---|---|---|---|---|---|
| FileService.Azure/AzureFileService.cs:174 | `int startIndex = (pageNumber - 1) * pageSize;` is a 32-bit product, so large pages wrap around | pageNumber = 65537, pageSize = 65536: startIndex becomes 0, so a page far past the end returns page 1 again | the exact index (a 64-bit product), so the page is empty | not executed | `AzureFileService.AzureFileService.GetKeys`, through `Paging.StartIndexAsWritten`; shown by `Paging.OverflowRepeatsFirstPage` | `Paging.StartIndex`, with `Paging.PastEndIsEmpty` |
| FileService.AWS/AWSFileService.cs:197 | `int itemsToSkip = (request.PageNumber - 1) * request.PageSize;` wraps the same way | PageNumber = 65537, PageSize = 65536: itemsToSkip becomes 0, so page 1 is returned | the exact index, so the page is empty | not executed | `AwsFileService.AwsFileService.GetKeys`, through `Paging.StartIndexAsWritten`; shown by `Paging.OverflowRepeatsFirstPage` | `Paging.StartIndex`, with `Paging.PastEndIsEmpty` |

The findings assume C#'s default unchecked context: the project files are not
part of this model. Both listers in the model compute the index as written.
`Paging.AsWrittenInRange` shows that this index is the exact one if and only if
the product is below 2^31. On those inputs the page lemmas, which are stated at
the corrected index `StartIndex`, apply to the listers unchanged. A product that wraps to a negative value (for example pageNumber = 32769,
pageSize = 65536, which gives −2^31) also returns page 1. The reason is that no
counter is ever below a negative skip count. `Paging.Lo` models this, and
`Paging.NegativeSkipIsFirstPage` proves it.

## Left out

- Upload and download (`UploadFileAsync`, `GetFileAsStringAsync`, `TransferUtility`, stream reading and UTF-8 decoding): vendor SDK and stream I/O with no logic of their own.
- The text of a signed URL (SAS builder, `GetPreSignedURL`, `UtcNow`): it depends on the clock and on vendor signing. `SignedUrl` only records the container, key and lifetime it is for.
- Async/await and `IAsyncEnumerable`: modelled as sequential loops over a given sequence of listing answers. Concurrent changes to a container between the probe and the delete, or during a listing, are not modelled.
- The order in which the vendor lists keys: the listing is an input.
- Exception messages, and the `catch` blocks that wrap a failure in a new `Exception` with a message (AzureFileService.cs:106-109, 150-153, 204-207, and for any non-S3 exception AWSFileService.cs:234-237): every SDK failure is `BackendError(status)`, on both providers.
- Failures of the delete or presign request itself, after a successful probe: the model lets them succeed.
- `ListObjectsV2Request.MaxKeys = PageSize`, which bounds each S3 batch: the model accepts batches of any size. This loses nothing, since the result depends only on the flattened listing (`Paging.PageIgnoresBatching`).
- AzureFileService.AzureFileService.GetKeys and AwsFileService.AwsFileService.GetKeys: when the given answers run out and the last one still carries a continuation token, the model treats the listing as ended there. The real `await foreach` and `do … while` would issue one more request, and `Paging.Consumed` does not count it. A listing given in full ends with an answer that has no token, and then nothing is lost.
- AzureFileService.AzureFileService.GetKeys and AwsFileService.AwsFileService.GetKeys: when the given sequence of answers is empty, the model issues no request (`fetched` is 0). The real `await foreach` over `GetBlobsAsync().AsPages()` always fetches a first page, and the real `do … while` always issues one first request. An empty sequence stands for an empty final answer, and the page is the same.
- AzureFileService.AzureFileService.GetKeys and AwsFileService.AwsFileService.GetKeys: the counters `keysCount` and `itemsProcessed` are unbounded. The real 32-bit counters would wrap only after 2^31 keys had been walked.
- AzureFileService.AzureFileService.GetKeys: a null `ContainerName` is not modelled; its behaviour lies inside the vendor SDK. The file model's strings are non-null.
- The constructors' null checks on the SDK client (`?? throw new ArgumentNullException`): the model's client is a non-null `Store`.
- The web host and controller, provider selection by configuration string, and dependency-injection wiring (FileService.Test, `*Extension.cs`): no logic to model.
- `IFileService`: an interface without logic. It declares `FileModel` rather than `FileModelBase`. `GetAllKeysRequest` is declared in a file that is not part of this model; its fields are taken from their uses at AWSFileService.cs:184-205.
