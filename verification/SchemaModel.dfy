/** internal/module/registry/model/schema.go: a row of the event_schemas table. */
module SchemaModel {
  import opened Prelude

  datatype TrustTier = Community | Verified

  datatype Status = Draft | Published | Archived

  /** Times are nanoseconds since Go's zero time, so the zero time is 0. */
  datatype EventSchema = EventSchema(
    id: string,
    contractID: string,
    network: string,
    eventName: string,
    version: int,
    schemaBody: string,
    author: Option<string>,
    publisherUserID: Option<string>,
    trustTier: TrustTier,
    status: Status,
    verifiedWallet: Option<string>,
    verifiedAt: Option<int>,
    createdAt: int,
    updatedAt: int)
}
