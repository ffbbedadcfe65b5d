/**
 * The `/set_thumbnail` conversation and the per-user thumbnail store of the
 * rename bot. The store is the module-level dictionary `thumbnail_data`, keyed
 * by the decimal text of the user's id and holding the Telegram `file_id` of
 * the user's chosen photo; every successful set rewrites the JSON file with
 * the whole dictionary. Handlers do not send messages here: each returns the
 * reply it would send and, where the conversation library reads one, the next
 * conversation state.
 */
module Commands {
  import opened Wrappers
  import Decimal
  import Persistence

  const NoThumbnailText := "You have no thumbnail"
  const AskForPhotoText := "Please send the picture you want to set as your thumbnail."
  const NoPhotoText := "No photo detected. Please send a valid photo."
  const ThumbnailSetText := "Thumbnail set successfully!"
  const CancelledText := "Operation cancelled."

  /** The conversation states a handler returns: `WAIT_FOR_PHOTO` (the constant 1) and the library's END. */
  datatype ConvState = WaitForPhoto | End

  /** A reply the bot sends back: a text message or a photo given by its `file_id`. */
  datatype Reply = Text(text: string) | Photo(fileId: string)

  /** One resolution variant of a received photo; only its `file_id` is used. */
  datatype PhotoSize = PhotoSize(fileId: string)

  /** What a conversation handler produces: its reply and the state it returns. */
  datatype Handled = Handled(reply: Reply, next: ConvState)

  /** The store key of a user: `str(user_id)`. */
  function UserKey(userId: int): (key: string)
    ensures |key| >= 1
    ensures userId < 0 <==> key[0] == '-'
  {
    Decimal.IntToString(userId)
  }

  /** The thumbnail stored for a user, if any. */
  function Lookup(thumbs: map<string, string>, userId: int): (r: Option<string>)
    ensures r.Some? <==> UserKey(userId) in thumbs
    ensures r.Some? ==> r.value == thumbs[UserKey(userId)]
  {
    var key := UserKey(userId);
    if key in thumbs then Some(thumbs[key]) else None
  }

  /** The store after recording `fileId` as the user's thumbnail, replacing any earlier one. */
  function Store(thumbs: map<string, string>, userId: int, fileId: string): (r: map<string, string>)
    ensures r.Keys == thumbs.Keys + {UserKey(userId)}
    ensures r[UserKey(userId)] == fileId
    ensures forall k :: k in thumbs && k != UserKey(userId) ==> r[k] == thumbs[k]
  {
    thumbs[UserKey(userId) := fileId]
  }

  /** Looking a user up right after storing their thumbnail finds exactly that thumbnail. */
  lemma StoreThenLookup(thumbs: map<string, string>, userId: int, fileId: string)
    ensures Lookup(Store(thumbs, userId, fileId), userId) == Some(fileId)
  {
  }

  /** Storing one user's thumbnail changes no other user's lookup. */
  lemma {:induction false} StoreLeavesOthers(thumbs: map<string, string>, userId: int, other: int, fileId: string)
    requires other != userId
    ensures Lookup(Store(thumbs, userId, fileId), other) == Lookup(thumbs, other)
  {
    Decimal.IntToStringInjective(other, userId);
  }

  /** A later store for the same user wins: the earlier thumbnail leaves no trace. */
  lemma StoreOverwrites(thumbs: map<string, string>, userId: int, first: string, second: string)
    ensures Store(Store(thumbs, userId, first), userId, second) == Store(thumbs, userId, second)
  {
  }

  /**
   * The variant taken from a photo message: the last one, which Telegram lists
   * as the largest resolution.
   */
  function HighestQuality(photos: seq<PhotoSize>): (p: PhotoSize)
    requires |photos| > 0
    ensures p in photos
    ensures p == photos[|photos| - 1]
  {
    photos[|photos| - 1]
  }

  /** `set_thumbnail_command`: ask for a photo and enter WAIT_FOR_PHOTO; the store is not involved. */
  function SetThumbnailCommand(): (h: Handled)
    ensures h.next == WaitForPhoto
    ensures h.reply == Text(AskForPhotoText)
  {
    Handled(Text(AskForPhotoText), WaitForPhoto)
  }

  /** `cancel`: end the conversation whatever state it is in; the store is not involved. */
  function Cancel(): (h: Handled)
    ensures h.next == End
    ensures h.reply == Text(CancelledText)
  {
    Handled(Text(CancelledText), End)
  }

  /**
   * The bot's thumbnail state: `thumbs` is the in-memory dictionary
   * `thumbnail_data`, `persisted` the JSON file (None while it does not exist).
   */
  class ThumbnailBot {
    var thumbs: map<string, string>
    var persisted: Option<map<string, string>>

    /** Reloading the file at this moment would give back exactly the in-memory dictionary. */
    ghost predicate Valid()
      reads this
    {
      Persistence.LoadThumbnailData(persisted) == thumbs
    }

    /** Start-up: the dictionary is loaded from the file, or empty when there is no file. */
    constructor (file: Option<map<string, string>>)
      ensures Valid()
      ensures persisted == file
      ensures thumbs == Persistence.LoadThumbnailData(file)
    {
      persisted := file;
      thumbs := Persistence.LoadThumbnailData(file);
    }

    /** `view_thumbnail`: the stored photo, or a text saying there is none. */
    function ViewThumbnail(userId: int): (reply: Reply)
      reads this
      ensures reply == Text(NoThumbnailText) <==> UserKey(userId) !in thumbs
      ensures UserKey(userId) in thumbs ==> reply == Photo(thumbs[UserKey(userId)])
    {
      match Lookup(thumbs, userId)
      case None => Text(NoThumbnailText)
      case Some(fileId) => Photo(fileId)
    }

    /**
     * `photo_handler`: with no photo variants, re-prompt and stay in
     * WAIT_FOR_PHOTO; otherwise record the last variant's `file_id` for this
     * user, rewrite the file with the whole dictionary and end.
     */
    method PhotoHandler(userId: int, photos: seq<PhotoSize>) returns (h: Handled)
      requires Valid()
      modifies this
      ensures Valid()
      ensures photos == [] ==> h == Handled(Text(NoPhotoText), WaitForPhoto)
      ensures photos == [] ==> thumbs == old(thumbs) && persisted == old(persisted)
      ensures photos != [] ==> h == Handled(Text(ThumbnailSetText), End)
      ensures photos != [] ==> thumbs == Store(old(thumbs), userId, HighestQuality(photos).fileId)
      ensures photos != [] ==> persisted == Some(thumbs)
      ensures photos != [] ==> ViewThumbnail(userId) == Photo(photos[|photos| - 1].fileId)
      ensures forall other :: other != userId ==> ViewThumbnail(other) == old(ViewThumbnail(other))
      ensures old(thumbs).Keys <= thumbs.Keys
    {
      if photos == [] {
        return Handled(Text(NoPhotoText), WaitForPhoto);
      }
      var fileId := HighestQuality(photos).fileId;
      thumbs := thumbs[UserKey(userId) := fileId];
      persisted := Persistence.SaveThumbnailData(thumbs);
      h := Handled(Text(ThumbnailSetText), End);
      forall other | other != userId
        ensures Lookup(thumbs, other) == Lookup(old(thumbs), other)
      {
        StoreLeavesOthers(old(thumbs), userId, other, fileId);
      }
    }
  }

  /**
   * A restart after a successful set: a bot loaded from whatever file the
   * first one left behind shows the thumbnail that was just set.
   */
  method RestartKeepsThumbnail(file: Option<map<string, string>>, userId: int, photos: seq<PhotoSize>)
    returns (reply: Reply)
    requires photos != []
    ensures reply == Photo(photos[|photos| - 1].fileId)
  {
    var bot := new ThumbnailBot(file);
    var _ := bot.PhotoHandler(userId, photos);
    var restarted := new ThumbnailBot(bot.persisted);
    reply := restarted.ViewThumbnail(userId);
  }
}
