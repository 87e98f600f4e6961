# Dafny model of the CSV-to-Anki bot

The system turns a word list into an Anki flashcard deck. A Telegram bot
(`bot/index.ts`) accepts an uploaded `.txt` or `.csv` file. It turns down
other extensions and files over 4,000,000 bytes. For an accepted file it posts
the file's download link and unique id to a Flask handler
(`app.py`, `create_deck`). The handler streams the file line by line. It
keeps the lines that have the same comma-separated field count as the first
non-empty line and turns each into a `(word, definition)` note. After every
note it rewrites the deck file `anki_deck_<file_id>.apkg`. It replies with a
link to that file, and the bot sends the document at that link when the
reply's status is `success`.

The model is pure functions over strings and sequences, in five modules:

- `Wrappers` (`wrappers.dfy`): `Option` and `Result`.
- `Fields` (`fields.dfy`): splitting on one separator the way Python's
  `str.split(",")` and JavaScript's `split(".")` do it. `n` separators always
  give `n + 1` fields, and the empty text gives one empty field. `Join` is the
  inverse of `Split`, proved in both directions.
- `DeckBuilder` (`deck.dfy`): the handler's loop as a left fold (`Step`,
  `Run`, `Build`). Its state holds the notes, `total_cards`, `line_length`
  and a snapshot of what the deck file holds. It stops at the first
  `ValueError`. `Expected` defines the result without a state, and
  `BuildMeetsReference` proves the fold equal to it.
- `CreateDeck` (`handler.dfy`): the handler from the upstream response on.
  The upstream response (`r.ok` and its lines) is a parameter. The reply and
  the deck-file path are both derived from `file_id`.
- `Upload` (`upload.dfy`): the bot's upload verdict, its refusal texts, the
  payload, the success test, and a lemma that follows an accepted upload
  through the handler and back.

Behaviours the model follows from the code:

- A "blank" line is the empty string only, because that is Python's falsiness
  of `str`. A line of spaces is not skipped.
- `word, definition = line.split(",")` raises when the matching count is not
  2. The first matching line is the first non-empty line itself, so the
  handler then fails before any note or file exists. Flask turns the escaped
  exception into an internal-server-error reply (`Reply.InternalServerError`).
  A line that does not match `line_length` is dropped silently.
- When the upstream response is not ok, nothing is read or written, and the
  reply is still `{"status": "success", "link": …}`.
- On the bot side, a missing document or file name gives an undefined
  extension, which is turned down. A missing file size compares false against
  `4e6`, so that file is accepted. An undefined `file_path` is concatenated
  as the text `undefined`.

The handler reads only `link` and `file_id` from the request and replies
only `status` and `link`.

## Model

| member | source | states |
|---|---|---|
| `Fields.Split` | app.py:63-65 | the number of fields is the number of separators plus one, so a split never gives zero fields, and no field contains the separator |
| `Fields.JoinSplit` | app.py:63-65 | joining the fields of a split with the separator gives back the original line |
| `Fields.SplitJoin` | app.py:65 | splitting the join of separator-free fields gives back exactly those fields |
| `Fields.SplitAround` | bot/index.ts:17 | splitting at one separator splits the text on each side independently |
| `Fields.LastFieldIsAfterLastSeparator` | bot/index.ts:17 | `split(sep).at(-1)` is a separator-free suffix of the text; it is the whole text exactly when there is no separator, and otherwise a separator comes right before it |
| `DeckBuilder.FieldCount` | app.py:63 | `len(line.split(","))` is one more than the number of commas, hence at least 1 |
| `DeckBuilder.ToCard` | app.py:65-66 | an accepted two-field line becomes a note whose word, a comma and its definition spell out the line, and neither field holds a comma |
| `DeckBuilder.CardOfLineRoundTrip` | app.py:65-66 | a comma-free word and definition written as `word,definition` are accepted and give back the same note |
| `DeckBuilder.Step` | app.py:60-71 | an empty line leaves the state unchanged; the state invariant (count equals cards, file equals the deck so far, fixed count at least 1, count 2 once a card exists) is preserved; cards are only ever appended, one at a time, and only from a two-field line; a fixed `line_length` never changes; a failure leaves the file untouched and happens only before any card exists |
| `DeckBuilder.Run` | app.py:59-71 | over any sequence of lines the invariant is preserved, earlier cards stay a prefix of the deck, a fixed `line_length` never changes, and a failure leaves no deck file |
| `DeckBuilder.FirstNonBlank` | app.py:61-63 | the line that fixes `line_length` is non-empty and every line before it is empty, and there is none exactly when every line is empty |
| `DeckBuilder.StepOnFixedCount` | app.py:64-65 | once `line_length` is fixed, a non-empty line is appended exactly when its field count equals it, fails exactly when that count is not 2, and is otherwise dropped with the state unchanged |
| `DeckBuilder.FirstLineFixesCount` | app.py:62-65 | the first non-empty line sets `line_length` to its own field count, after which `bool(line_length)` holds; it fails exactly when that count is not 2 |
| `DeckBuilder.StepFixedAtTwo` | app.py:64-71 | with the count fixed at 2, a two-field line appends its note and updates the count and the file, and any other line leaves the state as it was |
| `DeckBuilder.RunFixedAtTwo` | app.py:64-71 | once the count is fixed at 2, the loop appends the notes of exactly the two-field lines, in input order, and the deck file holds the whole deck |
| `DeckBuilder.Build` | app.py:56-71 | the loop over all lines ends in a state keeping the invariant (count equals cards, file equals deck, count 2 once a card exists), or in the unpacking error of a field count other than 2 with no deck file written |
| `DeckBuilder.RunFromNothing` | app.py:56-71 | from the empty start, the loop's result (state or failure) is the one the reference definition gives |
| `DeckBuilder.BuildMeetsReference` | app.py:56-71 | the loop fails exactly when the first non-empty line does not have two fields, and then with that count and no file; otherwise its cards are the notes of all two-field lines in order, `total_cards` counts them, the file holds exactly them (none written when there are none), and `line_length` is the first non-empty line's count |
| `DeckBuilder.BlankLinesChangeNothing` | app.py:61 | running the loop over the lines gives the same result as running it over the non-empty lines alone |
| `DeckBuilder.CardsOfAtMostNonBlank` | app.py:61-64 | there are never more cards than non-empty lines, and exactly as many when every non-empty line has two fields |
| `DeckBuilder.UniformInputKeepsEveryLine` | app.py:57-71 | when every non-empty line has two fields the loop succeeds and `total_cards` equals the number of non-empty lines |
| `CreateDeck.DeckPath` | app.py:69 | the deck file's path reads back, through the independent `FileIdOfPath` (upload directory, `/anki_deck_` prefix, `.apkg` suffix), as exactly its `file_id`, and no other identifier is written to the same path |
| `CreateDeck.DownloadLink` | app.py:77 | the reply's link reads back as exactly the `file_id` it was built from |
| `CreateDeck.SuccessResponse` | app.py:75-78 | the reply has status `success` and a link from which exactly this `file_id` is read back |
| `CreateDeck.LinkRoundTrip` | app.py:77 | the identifier read from a download link is the one it was built from |
| `CreateDeck.LinkOfFileId` | app.py:77 | a text that reads as the download link of an identifier is that link |
| `CreateDeck.DownloadLinkInjective` | app.py:77 | two different identifiers never get the same download link |
| `CreateDeck.Handle` | app.py:50-78 | when the upstream response is not ok, nothing is written and the success reply is returned; every JSON reply is the success reply for `file_id`; a file, when written, is at the path of `file_id` and holds at least one card |
| `CreateDeck.HandleMeetsReference` | app.py:52-71 | on an ok response the handler fails exactly when the reference fails, and then writes no file; otherwise the file holds exactly the reference's cards in order, and no file is written when there are none |
| `CreateDeck.LinkNamesTheDeckFile` | app.py:69-77 | the reply's link and the written file's path end in the same file name, and the link reads back to the request's `file_id` |
| `Upload.Extension` | bot/index.ts:16-17 | the extension is defined exactly when there is a document with a file name |
| `Upload.ExtensionIsAfterLastDot` | bot/index.ts:17 | the extension is the dot-free suffix after the last dot, and the whole name when there is no dot |
| `Upload.AllowedFieldGivesAllowedName` | bot/index.ts:17-19 | when the last dot-field of a name is `txt` or `csv`, the name is exactly that or ends in `.txt` or `.csv` |
| `Upload.AllowedNameGivesAllowedField` | bot/index.ts:17-19 | a name that is `txt` or `csv` or ends in `.txt` or `.csv` has that last dot-field |
| `Upload.AllowedExtensionOf` | bot/index.ts:16-19 | the extension test passes exactly when there is a document whose name is `txt` or `csv` or ends in `.txt` or `.csv` |
| `Upload.Check` | bot/index.ts:19-27 | an upload is accepted exactly when its name is `txt` or `csv` or ends in `.txt` or `.csv` (case-sensitive) and its size, when known, is at most 4,000,000; it is too big exactly when the name passes and the size exceeds 4,000,000; every other upload is unsupported |
| `Upload.BareCsvNameAccepted` | bot/index.ts:17-24 | a file named exactly `csv` of exactly 4,000,000 bytes is accepted |
| `Upload.UpperCaseExtensionRefused` | bot/index.ts:10-19 | any name ending in `.CSV` is unsupported, whatever its size |
| `Upload.LastExtensionCheckedFirst` | bot/index.ts:17-27 | a `.csv.zip` name is unsupported whatever its size, while an over-size `.txt` is too big |
| `Upload.RefusalText` | bot/index.ts:19-26 | no text for an accepted upload; "Format is not supported! Supported formats: [txt,csv]." for an unsupported one, with the list rendered as `Array.toString()` does; "The file is too big! Max file size is 4MB!" for a too-big one |
| `Upload.SendsDeckBack` | bot/index.ts:51-55 | the document is sent for every JSON reply the deck handler builds and never for its internal-error reply |
| `Upload.MakePayload` | bot/index.ts:31-37 | the payload's `file_id` is the file's unique id; its link starts with the files URL, the bot key and `/`, and what follows renders only as the file path (an undefined path as `undefined`) |
| `Upload.PayloadLinkIsFilePath` | bot/index.ts:31 | those two link clauses pin the link down: it is exactly the files URL, the bot key, `/` and the file path |
| `Upload.RoundTripThroughHandler` | bot/index.ts:34-55 | after posting the payload, the bot sends the document at the reply's link exactly when the handler did not fail, which is unless the fetch was ok and the first non-empty line did not have two fields; that link names the deck of the file's unique id; this request writes a deck file exactly when the fetch was ok, the handler did not fail and some line had two fields; otherwise it writes none |

## Left out

- Flask routing, JSON parsing of the request body, and the `KeyError` a missing `link` or `file_id` raises: HTTP plumbing. `Request` always carries both strings.
- The `/uploads/<filename>` download route (app.py:101-105): file serving. It reads from `anki_decks` under the application root, not from `UPLOADS_PATH`. So the link reaches the written file only when the two directories coincide, and the model does not relate them.
- The streamed `requests.get`, `iter_lines` and the UTF-8 default (app.py:50-59): network I/O. The upstream response is the parameter `Fetched(ok, lines)`, with the lines already split and always complete.
- `CreateDeck.HandleMeetsReference`: exceptions raised by `requests.get` or while reading the stream are not modelled. In the handler they end the request with an internal error. When the read fails partway through, the deck file already written after the last accepted card stays on disk. So "a failure writes no file" holds only for the unpacking error the model covers.
- The genanki `Model`, `Deck`, `Note` and `Package.write_to_file` (app.py:28-45, 66-69): an external binary serializer. The deck file is the sequence of cards it holds, and a write failure is not modelled.
- The random model and deck ids (app.py:25-26) and `os.mkdir` (app.py:47-48): randomness and the filesystem. The upload directory is the parameter `uploadsPath`.
- The log line (app.py:72) and the commented-out dictionary code (app.py:80-98): output and dead code.
- `ctx.getFile`, `ctx.reply`, `fetch`, `request.json()`, `editMessageText`, `replyWithDocument`, `bot.start`, `bot.catch` and the `try`/`catch` (bot/index.ts:29, 39-78): asynchronous network I/O and logging. The reply the bot reads is the handler's `Reply`, and a non-JSON reply counts as no success.
- Deck files left on disk by earlier requests: `file_unique_id` is the same when a file is uploaded again, and earlier decks persist, so a link whose request wrote no file may still reach an older deck. Each request is modelled on its own, without the filesystem's history.
- `BOT_KEY` comes from the environment and is the string parameter `botKey`. A missing key is not modelled.
- `Upload.Check`: JavaScript compares `file_size` as a double against `4e6`. The model uses an exact natural number, which agrees for every integer size.
