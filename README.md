# Thumbnail store and `/set_thumbnail` conversation of the rename bot

This project models the command handlers of the Telegram rename bot
(`bot/commands.py`): the per-user thumbnail store and the two-state
conversation that sets a thumbnail.

- The store is the dictionary `thumbnail_data`. It maps `str(user_id)` to the
  Telegram `file_id` of the user's chosen photo. It is loaded from
  `thumbnails.json` at start-up, or starts empty when that file does not
  exist. Every successful set rewrites the file with the whole dictionary.
- `/view_thumbnail` replies with the stored photo, or with "You have no thumbnail".
- `/set_thumbnail` asks for a picture and moves the conversation to
  `WAIT_FOR_PHOTO`.
- A photo in that state stores the `file_id` of the last size variant and ends
  the conversation. A message with no photo variants re-prompts and stays in
  `WAIT_FOR_PHOTO`.
- `cancel` ends the conversation from any state.

Layout:

- `wrappers.dfy`: module `Wrappers`, the `Option` type.
- `decimal.dfy`: module `Decimal`. Python's `str(int)` as a function, and the
  proof that distinct ids give distinct texts (via a parse round trip). This
  is what makes "only this user's entry changes" hold.
- `persistence.dfy`: module `Persistence`. The JSON file as a value:
  `None` while it does not exist, `Some(mapping)` after a save.
- `commands.dfy`: module `Commands`. Replies and conversation states as
  datatypes. Pure functions for the handlers that change nothing. A class
  `ThumbnailBot` whose fields are the in-memory dictionary and the file; its
  `PhotoHandler` method updates both in place.

Handlers do not send messages. Each returns the reply it would send
(`Reply`) and, where the conversation library reads one, the next state
(`ConvState`). `view_thumbnail`, `set_thumbnail_command` and `cancel` are
functions, so by construction they change neither the dictionary nor the
file. The class invariant `Valid()` says that reloading the file would give
back exactly the in-memory dictionary. The constructor establishes it and
`PhotoHandler` preserves it. This is the "survives a restart" property.

The model follows the code:

- the dictionary is updated before the file is written (bot/commands.py:48-49);
- the photo is always the last variant (bot/commands.py:44);
- `cancel` only replies and returns END (bot/commands.py:56-57).

## Model

| member | source | states |
|---|---|---|
| Decimal.NatToString | bot/commands.py:23 | the decimal text of a natural number is non-empty, made only of digits, and starts with `0` only for zero (no leading zeros) |
| Decimal.IntToString | bot/commands.py:23 | `str(i)` is non-empty, starts with `-` exactly for negative `i`, and is digits otherwise |
| Decimal.NatToStringRoundTrip | bot/commands.py:23 | reading back the digits of `NatToString(n)` gives `n` |
| Decimal.NatToStringInjective | bot/commands.py:23 | equal decimal texts come from equal numbers |
| Decimal.IntToStringInjective | bot/commands.py:37 | `str(a) == str(b)` exactly when `a == b`, so distinct user ids never share a store key |
| Commands.UserKey | bot/commands.py:37 | a user's key is a non-empty text that starts with `-` exactly for a negative id |
| Commands.Lookup | bot/commands.py:24-27 | a thumbnail is found exactly when the user's key is in the dictionary, and it is the stored value |
| Commands.Store | bot/commands.py:48 | after a store the user's key maps to the new `file_id`; the key set grows by that key only; every other entry keeps its value |
| Commands.StoreThenLookup | bot/commands.py:48 | a lookup right after a store for the same user finds exactly the stored `file_id` |
| Commands.StoreLeavesOthers | bot/commands.py:48 | a store for one user leaves every other user's lookup unchanged |
| Commands.StoreOverwrites | bot/commands.py:48 | a second store for the same user replaces the first entirely |
| Commands.HighestQuality | bot/commands.py:43-45 | for a non-empty variant list the chosen variant is one of them, namely the last |
| Commands.SetThumbnailCommand | bot/commands.py:30-33 | replies with the request for a picture and returns WAIT_FOR_PHOTO; as a function it changes neither the dictionary nor the file |
| Commands.Cancel | bot/commands.py:54-57 | replies "Operation cancelled." and returns END, whatever the state; the store is untouched |
| Persistence.LoadThumbnailData | bot/persistence.py:8-13 | an absent file loads as the empty dictionary; an existing file loads as its mapping |
| Persistence.SaveThumbnailData | bot/persistence.py:15-18 | saving leaves a file whose load gives back exactly the saved dictionary |
| Commands.ThumbnailBot.constructor | bot/commands.py:7-8 | start-up sets the dictionary to what the file loads to, so the file and the dictionary agree |
| Commands.ThumbnailBot.ViewThumbnail | bot/commands.py:21-28 | replies "You have no thumbnail" exactly when the user's key is absent; otherwise replies with the stored `file_id`; it reads and does not change the dictionary |
| Commands.ThumbnailBot.PhotoHandler | bot/commands.py:35-52 | with no variants: re-prompts, returns WAIT_FOR_PHOTO, and leaves the dictionary and the file unchanged. Otherwise: stores the last variant's `file_id` under the user's key, overwriting any earlier one; rewrites the file with the whole new dictionary; replies success and returns END; a view for this user then shows that photo; every other user's view is unchanged; no key is lost; the file and the dictionary still agree |
| Commands.RestartKeepsThumbnail | bot/commands.py:48-49 | after a successful set, a bot restarted from the file left behind shows the photo just set |

## Left out

- `start` (bot/commands.py:13-19): it only sends a constant welcome text and has no state.
- `bot/main.py`: building the Telethon client from environment variables, registering handlers and running the event loop. The handler names it registers (`handle_document`, `callback_handler`, `handle_new_name`, `check_thumbnail_photo`, `check_new_name` and the `cmd_*` names) are not defined in `bot/commands.py`. The document download, rename and re-upload flow has no source here and is not part of this model.
- The conversation library (`ConversationHandler`) that holds the returned state and routes updates to handlers is not part of this model. Only the state each handler returns is modelled.
- Sending replies (`reply_text`, `reply_photo`) is modelled as returned `Reply` values, not as effects. Transport failures are not modelled.
- File I/O in `bot/persistence.py`: the file is a value. JSON encoding and decoding are taken to round-trip a string-to-string mapping exactly. Failures to open, read or write the file are not modelled, so the model does not show the in-memory dictionary running ahead of the file after a failed save.
- Concurrency between handlers of different users, and races on the JSON file, belong to the async runtime and are not modelled.
- Commands.HighestQuality: states the code's rule (the last variant) and not "highest resolution". Telegram's ordering of variants is outside the code.
