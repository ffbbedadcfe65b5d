/**
 * The JSON file `thumbnails.json` as a value: `None` while the file does not
 * exist, otherwise the user-id-to-file-id mapping it holds. Reading and writing
 * the file are whole-mapping operations.
 */
module Persistence {
  import opened Wrappers

  /** The mapping loaded at start-up: the file's mapping, or the empty mapping when there is no file. */
  function LoadThumbnailData(file: Option<map<string, string>>): (data: map<string, string>)
    ensures file.None? ==> data == map[]
    ensures file.Some? ==> data == file.value
  {
    match file
    case None => map[]
    case Some(m) => m
  }

  /** What saving `data` leaves on disk: the whole mapping, replacing the previous file. */
  function SaveThumbnailData(data: map<string, string>): (file: Option<map<string, string>>)
    ensures file.Some?
    ensures LoadThumbnailData(file) == data
  {
    Some(data)
  }
}
