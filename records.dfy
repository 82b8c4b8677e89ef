/**
 * The shape of a stored document record (the `Document` interface of the
 * local database). The database itself, its schema and its indexes are not
 * part of this model.
 */
module Records {
  import opened Optional

  /** One row of the `documents` table. Optional fields are `None` when
      absent; dates are clock readings in milliseconds; `id` is assigned by
      the database on insertion. */
  datatype StoredDocument = StoredDocument(
    id: Option<nat>,
    name: string,
    createdAt: int,
    updatedAt: int,
    pages: nat,
    size: nat,
    tags: seq<string>,
    folder: Option<string>,
    favorite: bool,
    ocrText: Option<string>,
    filePath: string,
    thumbnailPath: Option<string>)
}
