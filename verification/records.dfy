/** The video metadata record that both handlers read with `GetVideo` and
    write back with `UpdateVideo`. The store itself is external; only the
    record's shape matters here. */
module Records {
  import opened Wrappers

  /** A 128-bit UUID, as its numeric value. */
  datatype Uuid = Uuid(value: nat)

  /** `uuid.Nil`, the all-zero UUID. */
  const NilUuid := Uuid(0)

  /** `database.Video`. The two URL fields are Go `*string`: `None` is nil.
      Timestamps are opaque instants. */
  datatype Video = Video(
    id: Uuid,
    createdAt: int,
    updatedAt: int,
    thumbnailURL: Option<string>,
    videoURL: Option<string>,
    title: string,
    description: string,
    userID: Uuid)

  /** `database.Video{}`, Go's zero value. */
  const ZeroVideo := Video(NilUuid, 0, 0, None, None, "", "", NilUuid)

  /** HTTP status codes the handlers answer with. */
  const StatusOK := 200
  const StatusBadRequest := 400
  const StatusUnauthorized := 401
  const StatusInternalServerError := 500
}
