/** The file descriptions the services accept. `FileModelBase` is abstract; its
    two concrete kinds name the object's bucket (S3) or container (Azure Blob). */
module FileModels {
  import opened Wrappers
  import opened Int32

  datatype FileModel =
    | S3FileModel(filePath: string, keyName: string, bucketName: string)
    | AzureBlobFileModel(filePath: string, keyName: string, containerName: string)

  /** The S3 listing request: the bucket (which may be null) and the 1-based page. */
  datatype GetAllKeysRequest =
    GetAllKeysRequest(bucketOrContainer: Option<string>, pageNumber: int32, pageSize: int32)
}
