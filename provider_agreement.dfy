/** The two key listers page alike: over the same listing, with the same page
    number and size, the Azure lister and the S3 lister return the same result and
    issue the same number of list requests, although one counts a key before
    testing it against the skip count and the other after. */
module ProviderAgreement {
  import opened Wrappers
  import opened Int32
  import opened Errors
  import opened FileModels
  import opened Paging
  import AzureFileService
  import AwsFileService

  method PagersAgree(azure: AzureFileService.AzureFileService, aws: AwsFileService.AwsFileService,
                     container: string, pageNumber: int32, pageSize: int32, listing: seq<ListResponse>)
    returns (fromAzure: Result<seq<string>, Error>, fromAws: Result<seq<string>, Error>,
             ghost azureFetched: nat, ghost awsFetched: nat)
    ensures fromAzure == fromAws
    ensures azureFetched == awsFetched
  {
    fromAzure, azureFetched := azure.GetKeys(Some(AzureBlobFileModel("", "", container)), pageNumber, pageSize, listing);
    fromAws, awsFetched := aws.GetKeys(Some(GetAllKeysRequest(Some(container), pageNumber, pageSize)), listing);
  }
}
