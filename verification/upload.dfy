/**
 The bot's `message:file` handler (bot/index.ts:14-61), without its network
 calls: which uploads it turns down and with which reply, the payload it
 posts to the deck handler, and when it sends the document at the reply's link.
 */
module Upload {
  import opened Wrappers
  import Fields
  import DeckBuilder
  import CreateDeck

  /** The message's document: `file_name` and `file_size` may each be absent. */
  datatype Document = Document(fileName: Option<string>, fileSize: Option<nat>)

  /** What the handler decides about an upload. */
  datatype Verdict = Unsupported | TooBig | Accepted

  /** The file Telegram reports for the upload. */
  datatype TelegramFile = TelegramFile(fileUniqueId: string, filePath: Option<string>)

  /** The body posted to the deck handler. */
  datatype Payload = Payload(link: string, fileId: string)

  const AllowedExtensions: seq<string> := ["txt", "csv"]

  /** The largest accepted size in bytes, `4e6`. */
  const MaxFileSize: nat := 4000000

  const FilesUrl: string := "https://api.telegram.org/file/bot"

  /** `doc?.file_name?.split('.').at(-1)`: undefined without a document or a name. */
  function Extension(doc: Option<Document>): (ext: Option<string>)
    ensures ext.Some? <==> doc.Some? && doc.value.fileName.Some?
  {
    match doc
    case None => None
    case Some(d) =>
      match d.fileName
      case None => None
      case Some(name) => Some(Fields.LastField(name, '.'))
  }

  /** `ALLOWED_EXTENSIONS.includes(extension)`: exact, case-sensitive comparison. */
  predicate IsAllowed(ext: Option<string>)
  {
    ext.Some? && ext.value in AllowedExtensions
  }

  /** `doc?.file_size! > 4e6`: an absent size compares as false. */
  predicate IsTooBig(doc: Option<Document>)
  {
    doc.Some? && doc.value.fileSize.Some? && doc.value.fileSize.value > MaxFileSize
  }

  /** A file name that ends in `.txt` or `.csv`, or is exactly `txt` or `csv`. */
  predicate HasAllowedName(name: string)
  {
    || name == "txt" || name == "csv"
    || (|name| >= 4 && (name[|name| - 4..] == ".txt" || name[|name| - 4..] == ".csv"))
  }

  /** A last dot-field `txt` or `csv` is either the whole name or follows its last dot. */
  lemma AllowedFieldGivesAllowedName(name: string)
    requires Fields.LastField(name, '.') == "txt" || Fields.LastField(name, '.') == "csv"
    ensures HasAllowedName(name)
  {
    var r := Fields.LastField(name, '.');
    Fields.LastFieldIsAfterLastSeparator(name, '.');
    if |r| < |name| {
      assert name[|name| - 4..] == [name[|name| - 4]] + name[|name| - 3..];
    } else {
      assert name == name[0..];
    }
  }

  /** A name with an allowed ending has `txt` or `csv` as its last dot-field. */
  lemma AllowedNameGivesAllowedField(name: string)
    requires HasAllowedName(name)
    ensures Fields.LastField(name, '.') == "txt" || Fields.LastField(name, '.') == "csv"
  {
    if name == "txt" || name == "csv" {
      Fields.SplitWithoutSeparator(name, '.');
    } else {
      var stem, ext := name[..|name| - 4], name[|name| - 3..];
      assert name[|name| - 4..] == ['.'] + ext;
      assert ext == "txt" || ext == "csv";
      assert name == stem + ['.'] + ext;
      Fields.LastFieldAfter(stem, ext, '.');
      Fields.SplitWithoutSeparator(ext, '.');
    }
  }

  /** The extension test reads as a test on the document's name. */
  lemma AllowedExtensionOf(doc: Option<Document>)
    ensures IsAllowed(Extension(doc)) <==>
      doc.Some? && doc.value.fileName.Some? && HasAllowedName(doc.value.fileName.value)
  {
    if doc.Some? && doc.value.fileName.Some? {
      var name := doc.value.fileName.value;
      if HasAllowedName(name) {
        AllowedNameGivesAllowedField(name);
      } else if IsAllowed(Extension(doc)) {
        AllowedFieldGivesAllowedName(name);
      }
    }
  }

  /**
   The two checks, the extension first. An upload is accepted exactly when
   it has a name with an allowed ending and its size, when known, is at
   most 4,000,000 bytes; it is too big exactly when the name is allowed and
   the size exceeds that.
   */
  function Check(doc: Option<Document>): (v: Verdict)
    ensures v == Accepted <==>
      && doc.Some? && doc.value.fileName.Some? && HasAllowedName(doc.value.fileName.value)
      && (doc.value.fileSize.Some? ==> doc.value.fileSize.value <= MaxFileSize)
    ensures v == TooBig <==>
      && doc.Some? && doc.value.fileName.Some? && HasAllowedName(doc.value.fileName.value)
      && doc.value.fileSize.Some? && doc.value.fileSize.value > MaxFileSize
  {
    AllowedExtensionOf(doc);
    if !IsAllowed(Extension(doc)) then Unsupported
    else if IsTooBig(doc) then TooBig
    else Accepted
  }

  /** The reply sent for a refused upload; none for an accepted one. */
  function RefusalText(v: Verdict): (t: Option<string>)
    ensures t.None? <==> v == Accepted
    ensures v == Unsupported ==> t == Some("Format is not supported! Supported formats: [txt,csv].")
    ensures v == TooBig ==> t == Some("The file is too big! Max file size is 4MB!")
  {
    match v
    case Unsupported =>
      var listed := Fields.Join(AllowedExtensions, ',');
      assert AllowedExtensions[1..] == ["csv"];
      assert listed == "txt,csv";
      assert "Format is not supported! Supported formats: [" + listed + "]."
        == "Format is not supported! Supported formats: [txt,csv].";
      Some("Format is not supported! Supported formats: [" + listed + "].")
    case TooBig => Some("The file is too big! Max file size is 4MB!")
    case Accepted => None
  }

  /** How JavaScript's `+` renders a possibly undefined string. */
  function JsText(s: Option<string>): string
  {
    match s
    case None => "undefined"
    case Some(v) => v
  }

  /** The payload: the download link of the file under the bot's key, and its unique id. */
  function MakePayload(botKey: string, file: TelegramFile): (p: Payload)
    ensures p.fileId == file.fileUniqueId
    ensures FilesUrl + botKey + "/" <= p.link
    ensures forall other :: FilesUrl + botKey + "/" + JsText(other) == p.link ==>
      JsText(other) == JsText(file.filePath)
  {
    var head := FilesUrl + botKey + "/";
    var p := Payload(head + JsText(file.filePath), file.fileUniqueId);
    forall other | FilesUrl + botKey + "/" + JsText(other) == p.link
      ensures JsText(other) == JsText(file.filePath)
    {
      assert JsText(other) == (head + JsText(other))[|head|..];
      assert JsText(file.filePath) == (head + JsText(file.filePath))[|head|..];
    }
    p
  }

  /**
   The two clauses of `MakePayload` about the link pin it down: a link that
   starts with the files URL and key, and whose rest renders only as the
   file path, is exactly the files URL, the key, `/` and the file path.
   */
  lemma PayloadLinkIsFilePath(botKey: string, path: Option<string>, link: string)
    requires FilesUrl + botKey + "/" <= link
    requires forall other :: FilesUrl + botKey + "/" + JsText(other) == link ==>
      JsText(other) == JsText(path)
    ensures link == FilesUrl + botKey + "/" + JsText(path)
  {
    var head := FilesUrl + botKey + "/";
    var rest := Some(link[|head|..]);
    assert head + JsText(rest) == link;
  }

  /**
   `response.status === 'success'`: only then is the document at the reply's
   link sent back. Every JSON reply the deck handler builds passes, and its
   internal-error reply does not.
   */
  predicate SendsDeckBack(reply: CreateDeck.Reply)
    ensures reply == CreateDeck.InternalServerError ==> !SendsDeckBack(reply)
    ensures forall id :: reply == CreateDeck.Json(CreateDeck.SuccessResponse(id)) ==> SendsDeckBack(reply)
  {
    reply.Json? && reply.body.status == "success"
  }

  /** The extension is a dot-free suffix of the name, the whole name when it has no dot. */
  lemma ExtensionIsAfterLastDot(name: string)
    ensures var ext := Extension(Some(Document(Some(name), None))).value;
      && |ext| <= |name|
      && ext == name[|name| - |ext|..]
      && '.' !in ext
      && ('.' !in name ==> ext == name)
      && ('.' in name ==> name[|name| - |ext| - 1] == '.')
  {
    Fields.LastFieldIsAfterLastSeparator(name, '.');
  }

  /** A file named exactly `csv` passes, even at exactly 4,000,000 bytes. */
  lemma BareCsvNameAccepted()
    ensures Check(Some(Document(Some("csv"), Some(MaxFileSize)))) == Accepted
  {
    Fields.SplitWithoutSeparator("csv", '.');
  }

  /** The comparison is case-sensitive: a name ending in `.CSV` is turned down. */
  lemma UpperCaseExtensionRefused(stem: string, size: Option<nat>)
    ensures Check(Some(Document(Some(stem + ".CSV"), size))) == Unsupported
  {
    assert stem + ".CSV" == stem + ['.'] + "CSV";
    Fields.LastFieldAfter(stem, "CSV", '.');
    Fields.SplitWithoutSeparator("CSV", '.');
  }

  /**
   Only the last extension counts, and it is checked before the size: a
   `.csv.zip` is unsupported whatever its size, a big `.txt` is too big.
   */
  lemma LastExtensionCheckedFirst(stem: string, size: Option<nat>, big: nat)
    requires big > MaxFileSize
    ensures Check(Some(Document(Some(stem + ".csv.zip"), size))) == Unsupported
    ensures Check(Some(Document(Some(stem + ".txt"), Some(big)))) == TooBig
  {
    assert stem + ".csv.zip" == (stem + ".csv") + ['.'] + "zip";
    Fields.LastFieldAfter(stem + ".csv", "zip", '.');
    Fields.SplitWithoutSeparator("zip", '.');
    assert stem + ".txt" == stem + ['.'] + "txt";
    Fields.LastFieldAfter(stem, "txt", '.');
    Fields.SplitWithoutSeparator("txt", '.');
  }

  /**
   From an accepted upload to the document coming back: the deck handler
   gets the file's unique id, and the bot sends the document at the reply's
   link exactly when the handler did not fail, that is, unless the fetch was
   ok and the first non-empty line did not have two fields. That link names
   the deck file of that unique id. This request writes a deck file exactly
   when the fetch was ok, the handler did not fail and some line had two
   fields; otherwise it writes none (a file an earlier request with the same
   unique id left behind is outside this lemma).
   */
  lemma RoundTripThroughHandler(
    botKey: string, file: TelegramFile, uploadsPath: string, fetched: CreateDeck.Fetched)
    ensures var p := MakePayload(botKey, file);
      var o := CreateDeck.Handle(uploadsPath, CreateDeck.Request(p.link, p.fileId), fetched);
      && (SendsDeckBack(o.reply) <==> !(fetched.ok && DeckBuilder.Expected(fetched.lines).Err?))
      && (SendsDeckBack(o.reply) ==>
            CreateDeck.FileIdOfLink(o.reply.body.link) == Some(file.fileUniqueId))
      && (o.file.Some? <==>
            fetched.ok && DeckBuilder.Expected(fetched.lines).Ok? &&
            DeckBuilder.Expected(fetched.lines).value != [])
  {
    var p := MakePayload(botKey, file);
    if fetched.ok {
      CreateDeck.HandleMeetsReference(uploadsPath, CreateDeck.Request(p.link, p.fileId), fetched);
    }
  }
}
