/**
 The deck handler `create_deck` (app.py:50-78), from the upstream response
 on: when the response is not ok nothing is read or written; otherwise the
 lines go through the line-to-card filter, the deck file is rewritten after
 every accepted card, and the reply names the deck file by `file_id`. A
 `ValueError` in the filter escapes the handler and becomes the server's
 internal-error reply.
 */
module CreateDeck {
  import opened Wrappers
  import Fields
  import opened DeckBuilder

  /** The JSON body of the request: the link to fetch and the file identifier. */
  datatype Request = Request(link: string, fileId: string)

  /** What the streamed fetch of `link` delivered: `r.ok` and the lines of the body. */
  datatype Fetched = Fetched(ok: bool, lines: seq<string>)

  /** The JSON reply `{"status": ..., "link": ...}`. */
  datatype Response = Response(status: string, link: string)

  /** The HTTP reply: a JSON body, or the internal error an escaped exception causes. */
  datatype Reply = Json(body: Response) | InternalServerError

  /** A deck file on disk: its path and the cards it holds. */
  datatype DeckFile = DeckFile(path: string, cards: seq<Card>)

  /** Everything the handler leaves behind: its reply and the deck file, if one was written. */
  datatype Outcome = Outcome(reply: Reply, file: Option<DeckFile>)

  /** The address the reply's link points at. */
  const DownloadPrefix: string := "http://127.0.0.1:5000/uploads/"

  const FileNamePrefix: string := "anki_deck_"
  const FileNameSuffix: string := ".apkg"

  /** The name of the deck file of request `fileId`. */
  function FileName(fileId: string): string
  {
    FileNamePrefix + fileId + FileNameSuffix
  }

  /**
   Where the deck file is written, inside the configured upload directory:
   the path reads back as its `file_id`, and no other identifier is written
   to the same path, so two requests share a deck file only when they carry
   the same `file_id`.
   */
  function DeckPath(uploadsPath: string, fileId: string): (path: string)
    ensures FileIdOfPath(uploadsPath, path) == Some(fileId)
    ensures forall other :: uploadsPath + "/" + FileName(other) == path ==> other == fileId
  {
    var path := uploadsPath + "/" + FileName(fileId);
    var head := uploadsPath + "/" + FileNamePrefix;
    assert path == head + (fileId + FileNameSuffix);
    var rest := fileId + FileNameSuffix;
    assert Fields.StripPrefix(head, path) == Some(rest);
    assert rest[|rest| - |FileNameSuffix|..] == FileNameSuffix;
    assert rest[..|rest| - |FileNameSuffix|] == fileId;
    forall other | uploadsPath + "/" + FileName(other) == path
      ensures other == fileId
    {
      assert uploadsPath + "/" + FileName(other) == head + other + FileNameSuffix;
      assert path == head + fileId + FileNameSuffix;
      assert |other| == |fileId|;
      assert other == (head + other + FileNameSuffix)[|head|..|head| + |other|];
      assert fileId == (head + fileId + FileNameSuffix)[|head|..|head| + |fileId|];
    }
    path
  }

  /** The identifier a path in the upload directory names, if it is a deck file's path. */
  function FileIdOfPath(uploadsPath: string, path: string): Option<string>
  {
    match Fields.StripPrefix(uploadsPath + "/" + FileNamePrefix, path)
    case None => None
    case Some(rest) => Fields.StripSuffix(FileNameSuffix, rest)
  }

  /** The link of the reply: it reads back as exactly the identifier it was built from. */
  function DownloadLink(fileId: string): (link: string)
    ensures FileIdOfLink(link) == Some(fileId)
  {
    var link := DownloadPrefix + FileName(fileId);
    assert link == (DownloadPrefix + FileNamePrefix) + (fileId + FileNameSuffix);
    var rest := fileId + FileNameSuffix;
    assert Fields.StripPrefix(DownloadPrefix + FileNamePrefix, link) == Some(rest);
    assert rest[|rest| - |FileNameSuffix|..] == FileNameSuffix;
    assert rest[..|rest| - |FileNameSuffix|] == fileId;
    link
  }

  /** The reply body: it depends on `file_id` only. */
  function SuccessResponse(fileId: string): (r: Response)
    ensures r.status == "success"
    ensures FileIdOfLink(r.link) == Some(fileId)
  {
    Response("success", DownloadLink(fileId))
  }

  /** The identifier a download link names, if it is one. */
  function FileIdOfLink(link: string): Option<string>
  {
    match Fields.StripPrefix(DownloadPrefix + FileNamePrefix, link)
    case None => None
    case Some(rest) => Fields.StripSuffix(FileNameSuffix, rest)
  }

  /** A download link gives back its identifier. */
  lemma LinkRoundTrip(fileId: string)
    ensures FileIdOfLink(DownloadLink(fileId)) == Some(fileId)
  {
  }

  /** Only download links give back an identifier, and only their own. */
  lemma LinkOfFileId(link: string, fileId: string)
    requires FileIdOfLink(link) == Some(fileId)
    ensures link == DownloadLink(fileId)
  {
  }

  /** Different identifiers give different links, so a link names exactly one deck file. */
  lemma DownloadLinkInjective(a: string, b: string)
    requires DownloadLink(a) == DownloadLink(b)
    ensures a == b
  {
    LinkRoundTrip(a);
    LinkRoundTrip(b);
  }

  /** The deck file left by the loop, at the path of `fileId`. */
  function FileAt(uploadsPath: string, fileId: string, snapshot: Option<seq<Card>>): Option<DeckFile>
  {
    match snapshot
    case None => None
    case Some(cs) => Some(DeckFile(DeckPath(uploadsPath, fileId), cs))
  }

  /** The handler, given the upload directory, the request and what the fetch delivered. */
  function Handle(uploadsPath: string, req: Request, fetched: Fetched): (o: Outcome)
    ensures !fetched.ok ==> o == Outcome(Json(SuccessResponse(req.fileId)), None)
    ensures o.reply.Json? ==> o.reply.body == SuccessResponse(req.fileId)
    ensures o.file.Some? ==> o.file.value.path == DeckPath(uploadsPath, req.fileId) && o.file.value.cards != []
  {
    if !fetched.ok then Outcome(Json(SuccessResponse(req.fileId)), None)
    else
      match Build(fetched.lines)
      case Ok(b) => Outcome(Json(SuccessResponse(req.fileId)), FileAt(uploadsPath, req.fileId, b.deckFile))
      case Err(e) => Outcome(InternalServerError, FileAt(uploadsPath, req.fileId, e.deckFile))
  }

  /**
   What the handler leaves, stated by the reference definition: when the
   fetch is ok, it fails exactly when the first non-empty line does not have
   two fields, and then writes no file; otherwise the file holds exactly the
   notes of the two-field lines in input order, and none is written when
   there are no such lines.
   */
  lemma HandleMeetsReference(uploadsPath: string, req: Request, fetched: Fetched)
    requires fetched.ok
    ensures Handle(uploadsPath, req, fetched).reply == InternalServerError <==>
      Expected(fetched.lines).Err?
    ensures Expected(fetched.lines).Err? ==> Handle(uploadsPath, req, fetched).file == None
    ensures Expected(fetched.lines).Ok? ==>
      Handle(uploadsPath, req, fetched).file ==
        FileAt(uploadsPath, req.fileId, Snapshot(Expected(fetched.lines).value))
  {
    BuildMeetsReference(fetched.lines);
  }

  /**
   The reply's link and the deck file are named by the same identifier: the
   file's path ends with the very file name the link ends with.
   */
  lemma LinkNamesTheDeckFile(uploadsPath: string, req: Request, fetched: Fetched)
    requires Handle(uploadsPath, req, fetched).file.Some?
    ensures var o := Handle(uploadsPath, req, fetched);
      && o.reply.body.link == DownloadPrefix + FileName(req.fileId)
      && o.file.value.path == uploadsPath + "/" + FileName(req.fileId)
      && FileIdOfLink(o.reply.body.link) == Some(req.fileId)
  {
  }
}
