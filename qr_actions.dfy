/** The QR-code endpoints: creating a QR code for the caller, editing one (with its images
    redrawn), and listing the caller's QR codes one page at a time. */
module QrActions {
  import opened Wrappers
  import opened Strings
  import opened Php
  import Colors
  import Urls
  import QrCodes
  import Files
  import PublicDirectory
  import QrCreator
  import QrSubscriptionActions

  // ---------------------------------------------------------------------------------------
  // Create

  /** What creation answers: an error with its status, or (status 201) the creator's result. */
  datatype CreateReply = CreateRefused(status: int, error: string) | CreatedReply(result: QrCreator.Created)

  /** POST: an empty or missing target_url is a 400 before the token is looked at; a token
      without a subject (array or object alike) is a 401; otherwise the creator runs, and its
      failure is a 400 carrying its message. */
  method CreateAction(data: Value, jwt: Value, qrs: QrCodes.QrCodeTable, fs: Files.FileSystem,
                      codeDir: PublicDirectory.Path, urlBase: Option<string>, random: seq<nat>,
                      renderPng: QrCreator.QrImage -> string, renderSvg: QrCreator.QrImage -> string,
                      owners: map<int, QrCodes.Owner>, now: int)
    returns (reply: CreateReply)
    requires qrs.Valid()
    requires Bytes(random) && |random| == QrCreator.TokenBytes
    modifies qrs, fs
    ensures qrs.Valid()
    ensures QrCreator.RequiredTarget(data).None? ==>
      && reply == CreateRefused(400, "target_url is required")
      && qrs.rows == old(qrs.rows) && qrs.nextId == old(qrs.nextId)
      && fs.files == old(fs.files) && fs.dirs == old(fs.dirs)
    ensures QrCreator.RequiredTarget(data).Some? && QrSubscriptionActions.GetAuthContext(jwt).userId.None? ==>
      && reply == CreateRefused(401, "unauthenticated")
      && qrs.rows == old(qrs.rows) && qrs.nextId == old(qrs.nextId)
      && fs.files == old(fs.files) && fs.dirs == old(fs.dirs)
    ensures QrCreator.RequiredTarget(data).Some? && QrSubscriptionActions.GetAuthContext(jwt).userId.Some? ==>
      var userId := QrSubscriptionActions.GetAuthContext(jwt).userId.value;
      var token := Bin2Hex(random);
      var target := QrCreator.RequiredTarget(data).value;
      var tmpDir := QrCreator.TmpDir(PublicDirectory.PublicDirOf(codeDir));
      var image := QrCreator.ImageOf(data, urlBase, token);
      && reply == CreatedReply(QrCreator.Created(
           QrCreator.NewRecord(token, userId, target, QrCreator.NameOf(data), now).(
             id := Some(old(qrs.nextId)),
             ownerName := QrCodes.OwnerName(owners, userId),
             ownerEmail := QrCodes.OwnerEmail(owners, userId)),
           QrCreator.LinksOf(urlBase, token)))
      && qrs.rows == old(qrs.rows) + [QrCodes.QrRow(old(qrs.nextId), token, userId, target,
                                                     QrCreator.NameOf(data), None, None, Some(now))]
      && qrs.nextId == old(qrs.nextId) + 1
      && fs.files == old(fs.files)[tmpDir + "/" + token + ".png" := renderPng(image)]
                                  [tmpDir + "/" + token + ".svg" := renderSvg(image)]
      && fs.dirs == old(fs.dirs) + {tmpDir}
  {
    if Falsy(Coalesce(data, "target_url").GetOr(Null)) {
      return CreateRefused(400, "target_url is required");
    }
    var userId := QrSubscriptionActions.GetAuthContext(jwt).userId;
    if userId.None? {
      return CreateRefused(401, "unauthenticated");
    }
    var result := QrCreator.CreateFromData(data, userId.value, qrs, fs, codeDir, urlBase, random,
                                           renderPng, renderSvg, owners, now);
    match result
    case Failure(message) =>
      reply := CreateRefused(400, message);
    case Ok(created) =>
      reply := CreatedReply(created);
  }

  // ---------------------------------------------------------------------------------------
  // Edit

  /** The editable fields a request provides: `isset` ones, cast to text and trimmed. A
      provided empty text still counts as provided. */
  datatype Fields = Fields(target: Option<string>, name: Option<string>,
                           foreground: Option<string>, background: Option<string>)

  function Field(data: Value, key: string): (r: Option<string>)
    ensures r.Some? <==> IsSet(data, key)
    ensures r.Some? ==> r.value == Trim(ToStr(Entry(data, key).value))
  {
    if IsSet(data, key) then Some(Trim(ToStr(Entry(data, key).value))) else None
  }

  function FieldsOf(data: Value): Fields
  {
    Fields(Field(data, "target_url"), Field(data, "name"), Field(data, "foreground"), Field(data, "background"))
  }

  predicate NoFields(f: Fields) {
    f.target.None? && f.name.None? && f.foreground.None? && f.background.None?
  }

  /** The edit endpoint reads the token itself, unlike getAuthContext: only an object token
      with a subject authenticates, and it may edit when its role is exactly 'admin' or its
      subject is the owner. An array-shaped token never may. */
  predicate MayEdit(jwt: Value, owner: int) {
    && jwt.Obj? && IsSet(jwt, "sub")
    && (Entry(jwt, "rol") == Some(Str("admin")) || ToInt(Entry(jwt, "sub").value) == owner)
  }

  /** The new record: provided fields replace the loaded values, absent ones keep them; the
      id, token, owner, creation time and owner columns are the loaded record's. */
  function Merge(qr: QrCodes.QrCode, f: Fields): (r: QrCodes.QrCode)
    ensures r.id == qr.id && r.token == qr.token && r.ownerUserId == qr.ownerUserId
    ensures r.createdAt == qr.createdAt && r.ownerName == qr.ownerName && r.ownerEmail == qr.ownerEmail
    ensures r.targetUrl == (if f.target.Some? then f.target.value else qr.targetUrl)
    ensures r.name == (if f.name.Some? then f.name else qr.name)
    ensures r.foreground == (if f.foreground.Some? then f.foreground else qr.foreground)
    ensures r.background == (if f.background.Some? then f.background else qr.background)
  {
    qr.(targetUrl := f.target.GetOr(qr.targetUrl),
        name := if f.name.Some? then f.name else qr.name,
        foreground := if f.foreground.Some? then f.foreground else qr.foreground,
        background := if f.background.Some? then f.background else qr.background)
  }

  /** The QR writer's two renderings. */
  datatype Images = Images(png: string, svg: string)

  /** What editing answers: an error with its status, or (status 200, images_present) the
      record and its links. */
  datatype EditReply = EditRefused(status: int, error: string) | Edited(qr: QrCodes.QrCode, links: QrCreator.Links)

  /** The images are redrawn in the provided colours, or black on white, never in the stored
      colours. */
  function RedrawColors(f: Fields): (Colors.Color, Colors.Color)
  {
    (Colors.ParseHexColor(f.foreground.GetOr(QrCreator.DefaultForeground)),
     Colors.ParseHexColor(f.background.GetOr(QrCreator.DefaultBackground)))
  }

  /** The record the response carries: the re-read record after a successful update, the
      loaded one when the update failed. */
  function Reread(loaded: QrCodes.QrCode, reread: Option<QrCodes.QrCode>): QrCodes.QrCode
  {
    if reread.Some? then reread.value else loaded
  }

  /** The files left after the old images are unlinked. */
  function WithoutImages(files: map<string, string>, publicDir: string, token: string): map<string, string>
  {
    files - {publicDir + QrCreator.PngLink(token), publicDir + QrCreator.SvgLink(token)}
  }

  /** Reads the request's fields, the gate and the update; the drawing is in Redraw. */
  method EditAction(idArg: string, data: Value, jwt: Value, qrs: QrCodes.QrCodeTable,
                    storage: PublicDirectory.LocalFileStorage, resolverDir: PublicDirectory.Path,
                    urlBase: Option<string>, generate: (string, Colors.Color, Colors.Color) -> Option<Images>,
                    updateFails: bool, owners: map<int, QrCodes.Owner>, now: int)
    returns (reply: EditReply)
    requires qrs.Valid()
    modifies qrs, storage.fs
    ensures qrs.Valid()
    ensures NoFields(FieldsOf(data)) ==>
      && reply == EditRefused(400, "No fields to update")
      && qrs.rows == old(qrs.rows) && storage.fs.files == old(storage.fs.files) && storage.fs.dirs == old(storage.fs.dirs)
    ensures !NoFields(FieldsOf(data)) && QrCodes.QrOfId(old(qrs.rows), IntArg(idArg), owners, now).None? ==>
      && reply == EditRefused(404, "QR not found")
      && qrs.rows == old(qrs.rows) && storage.fs.files == old(storage.fs.files) && storage.fs.dirs == old(storage.fs.dirs)
    ensures !NoFields(FieldsOf(data)) && QrCodes.QrOfId(old(qrs.rows), IntArg(idArg), owners, now).Some? ==>
      var loaded := QrCodes.QrOfId(old(qrs.rows), IntArg(idArg), owners, now).value;
      var f := FieldsOf(data);
      if !MayEdit(jwt, loaded.ownerUserId) then
        && reply == EditRefused(403, "forbidden")
        && qrs.rows == old(qrs.rows) && storage.fs.files == old(storage.fs.files) && storage.fs.dirs == old(storage.fs.dirs)
      else
        var newRows := if updateFails then old(qrs.rows) else QrCodes.UpdateRows(old(qrs.rows), Merge(loaded, f));
        var qr := if updateFails then loaded else Reread(loaded, QrCodes.QrOfId(newRows, IntArg(idArg), owners, now));
        var links := QrCreator.LinksOf(urlBase, qr.token);
        var publicDir := PublicDirectory.PublicDirOf(resolverDir);
        var generated := generate(links.redirect, RedrawColors(f).0, RedrawColors(f).1);
        var fullPng := PublicDirectory.FullPath(storage.publicDir, links.png);
        var fullSvg := PublicDirectory.FullPath(storage.publicDir, links.svg);
        && qrs.rows == newRows
        && (generated.None? ==>
              && reply == EditRefused(500, "failed to regenerate images")
              && storage.fs.files == WithoutImages(old(storage.fs.files), publicDir, qr.token)
              && storage.fs.dirs == old(storage.fs.dirs))
        && (generated.Some? ==>
              && reply == Edited(qr, links)
              && storage.fs.files == WithoutImages(old(storage.fs.files), publicDir, qr.token)
                                       [fullPng := generated.value.png][fullSvg := generated.value.svg]
              && storage.fs.dirs == old(storage.fs.dirs) + {Files.DirName(fullPng)} + {Files.DirName(fullSvg)})
  {
    var id := IntArg(idArg);
    var f := FieldsOf(data);
    if NoFields(f) {
      return EditRefused(400, "No fields to update");
    }
    var found := qrs.FindOfId(id, owners, now);
    if found.None? {
      return EditRefused(404, "QR not found");
    }
    var qr := found.value;
    if !MayEdit(jwt, qr.ownerUserId) {
      return EditRefused(403, "forbidden");
    }
    qr := ApplyUpdate(id, qr, f, qrs, updateFails, owners, now);
    reply := Redraw(qr, f, storage, resolverDir, urlBase, generate);
  }

  /** The update step: the merged record is written unless the update fails, and the record
      read back replaces the loaded one when there is one; a failure is only logged. */
  method ApplyUpdate(id: int, loaded: QrCodes.QrCode, f: Fields, qrs: QrCodes.QrCodeTable, updateFails: bool,
                     owners: map<int, QrCodes.Owner>, now: int)
    returns (qr: QrCodes.QrCode)
    requires qrs.Valid()
    requires loaded.id == Some(id)
    modifies qrs
    ensures qrs.Valid()
    ensures qrs.rows == if updateFails then old(qrs.rows) else QrCodes.UpdateRows(old(qrs.rows), Merge(loaded, f))
    ensures qr == if updateFails then loaded else Reread(loaded, QrCodes.QrOfId(qrs.rows, id, owners, now))
  {
    qr := loaded;
    if !updateFails {
      var reread := qrs.Update(Merge(loaded, f), owners, now);
      if reread.Some? {
        qr := reread.value;
      }
    }
  }

  /** `if (is_file($p)) @unlink($p)` for both images. */
  method UnlinkImages(fs: Files.FileSystem, pngFull: string, svgFull: string)
    modifies fs
    ensures fs.files == old(fs.files) - {pngFull, svgFull} && fs.dirs == old(fs.dirs)
  {
    if pngFull in fs.files {
      fs.Unlink(pngFull);
    }
    if svgFull in fs.files {
      fs.Unlink(svgFull);
    }
  }

  /** The redrawing half of the edit: the old images are unlinked, new ones generated and
      saved through the storage; a failed generation is a 500 after the unlinking. */
  method Redraw(qr: QrCodes.QrCode, f: Fields, storage: PublicDirectory.LocalFileStorage,
                resolverDir: PublicDirectory.Path, urlBase: Option<string>,
                generate: (string, Colors.Color, Colors.Color) -> Option<Images>)
    returns (reply: EditReply)
    modifies storage.fs
    ensures var links := QrCreator.LinksOf(urlBase, qr.token);
      var publicDir := PublicDirectory.PublicDirOf(resolverDir);
      var generated := generate(links.redirect, RedrawColors(f).0, RedrawColors(f).1);
      var fullPng := PublicDirectory.FullPath(storage.publicDir, links.png);
      var fullSvg := PublicDirectory.FullPath(storage.publicDir, links.svg);
      && (generated.None? ==>
            && reply == EditRefused(500, "failed to regenerate images")
            && storage.fs.files == WithoutImages(old(storage.fs.files), publicDir, qr.token)
            && storage.fs.dirs == old(storage.fs.dirs))
      && (generated.Some? ==>
            && reply == Edited(qr, links)
            && storage.fs.files == WithoutImages(old(storage.fs.files), publicDir, qr.token)
                                     [fullPng := generated.value.png][fullSvg := generated.value.svg]
            && storage.fs.dirs == old(storage.fs.dirs) + {Files.DirName(fullPng)} + {Files.DirName(fullSvg)})
  {
    var colors := RedrawColors(f);
    var token := qr.token;
    var pngRel := QrCreator.QrFolder + "/" + token + ".png";
    var svgRel := QrCreator.QrFolder + "/" + token + ".svg";
    var links := QrCreator.Links(pngRel, svgRel, Urls.BuildRedirectUrl(urlBase, token));

    var publicDir := PublicDirectory.GetPublicDir(resolverDir);
    var pngFull := publicDir + pngRel;
    var svgFull := publicDir + svgRel;
    UnlinkImages(storage.fs, pngFull, svgFull);
    assert storage.fs.files == WithoutImages(old(storage.fs.files), publicDir, token);

    var generated := generate(links.redirect, colors.0, colors.1);
    if generated.None? {
      return EditRefused(500, "failed to regenerate images");
    }
    storage.Save(LTrim(pngRel, '/'), generated.value.png);
    storage.Save(LTrim(svgRel, '/'), generated.value.svg);
    LTrimIdempotent(pngRel, '/');
    LTrimIdempotent(svgRel, '/');
    reply := Edited(qr, links);
  }

  /** After a successful update the response carries exactly the merged record: the provided
      fields, and the loaded record's id, token, owner and creation time. */
  lemma EditedRecordIsMerge(rows: seq<QrCodes.QrRow>, id: int, f: Fields, owners: map<int, QrCodes.Owner>, now: int)
    requires QrCodes.QrOfId(rows, id, owners, now).Some?
    ensures var loaded := QrCodes.QrOfId(rows, id, owners, now).value;
      QrCodes.QrOfId(QrCodes.UpdateRows(rows, Merge(loaded, f)), id, owners, now) == Some(Merge(loaded, f))
  {
    var loaded := QrCodes.QrOfId(rows, id, owners, now).value;
    QrCodes.UpdateReadsBack(rows, Merge(loaded, f), id);
  }

  // ---------------------------------------------------------------------------------------
  // List

  /** What listing answers (status 200): nothing for a token without a subject, else one page
      with its pagination numbers and the URL prefix of the tokens. */
  datatype ListReply =
    | NoListing
    | Listing(items: seq<QrCodes.QrCode>, page: int, perPage: nat, total: nat, totalPages: nat, urlBaseToken: string)

  /** The page parameter: `(int)` of it when set, 1 otherwise, and never below 1. */
  function PageOf(params: Value): (p: int)
    ensures p >= 1
    ensures IsSet(params, "page") && ToInt(Entry(params, "page").value) >= 1 ==> p == ToInt(Entry(params, "page").value)
    ensures !IsSet(params, "page") || ToInt(Entry(params, "page").value) < 1 ==> p == 1
  {
    var p := if IsSet(params, "page") then ToInt(Entry(params, "page").value) else 1;
    if p < 1 then 1 else p
  }

  /** The query parameter, trimmed, when set. */
  function QueryOf(params: Value): Option<string>
  {
    if IsSet(params, "query") then Some(Trim(ToStr(Entry(params, "query").value))) else None
  }

  /** `(int)($settings->get('pagination.per_page') ?? getenv('PER_PAGE') ?? ...)`, then 20
      below 1. `getenv` answers false, not null, for an unset variable, so the later
      alternatives are never reached and an unset PER_PAGE casts to 0, hence 20. */
  function PerPageOf(setting: Value, perPageEnv: Option<string>): (n: nat)
    ensures n >= 1
    ensures var raw := if !setting.Null? then setting else if perPageEnv.Some? then Str(perPageEnv.value) else Bool(false);
      n == if ToInt(raw) < 1 then 20 else ToInt(raw)
  {
    var raw := if !setting.Null? then setting else if perPageEnv.Some? then Str(perPageEnv.value) else Bool(false);
    var n := ToInt(raw);
    if n < 1 then 20 else n
  }

  /** `(int)ceil($total / $perPage)`, in exact integer arithmetic. */
  function TotalPages(total: nat, perPage: nat): (r: nat)
    requires perPage >= 1
  {
    (total + perPage - 1) / perPage
  }

  /** total_pages is the ceiling: that many pages hold every record, one fewer do not. */
  lemma TotalPagesIsCeiling(total: nat, perPage: nat)
    requires perPage >= 1
    ensures total <= TotalPages(total, perPage) * perPage
    ensures total == 0 <==> TotalPages(total, perPage) == 0
    ensures TotalPages(total, perPage) > 0 ==> (TotalPages(total, perPage) - 1) * perPage < total
  {
    var t := total + perPage - 1;
    var q := t / perPage;
    assert t == q * perPage + t % perPage;
  }

  /** The pages numbered 1 to total_pages are the non-empty ones. */
  lemma PagesAreNonEmptyUpToTotal<T>(all: seq<T>, page: int, perPage: nat)
    requires perPage >= 1 && page >= 1
    ensures |QrCodes.Page(all, QrCodes.Offset(page, perPage), perPage)| > 0 <==> page <= TotalPages(|all|, perPage)
  {
    QrCodes.OffsetOfPage(page, perPage);
    BelowCeiling(|all|, perPage, page - 1);
  }

  /** k full pages leave records over exactly when k is below the page count. */
  lemma BelowCeiling(total: nat, perPage: nat, k: nat)
    requires perPage >= 1
    ensures k * perPage < total <==> k < TotalPages(total, perPage)
  {
    var tp := TotalPages(total, perPage);
    TotalPagesIsCeiling(total, perPage);
    if k < tp {
      MulMonotone(k, tp - 1, perPage);
    } else {
      MulMonotone(tp, k, perPage);
    }
  }

  lemma {:induction false} MulMonotone(a: nat, b: nat, c: nat)
    requires a <= b
    ensures a * c <= b * c
  {
    if a < b {
      MulMonotone(a, b - 1, c);
      assert b * c == (b - 1) * c + c;
    }
  }

  /** GET: a token without a subject gets an empty answer. Otherwise an admin lists every QR
      code and anyone else their own, one page of them, with the pagination numbers and the
      URL prefix of the tokens. */
  method ListAction(jwt: Value, params: Value, perPageSetting: Value, perPageEnv: Option<string>,
                    urlBase: Option<string>, qrs: QrCodes.QrCodeTable, owners: map<int, QrCodes.Owner>, now: int)
    returns (reply: ListReply)
    ensures QrSubscriptionActions.GetAuthContext(jwt).userId.None? ==> reply == NoListing
    ensures QrSubscriptionActions.GetAuthContext(jwt).userId.Some? ==>
      var auth := QrSubscriptionActions.GetAuthContext(jwt);
      var owner := if auth.isAdmin then None else auth.userId;
      var page := PageOf(params);
      var perPage := PerPageOf(perPageSetting, perPageEnv);
      var all := QrCodes.NewestFirst(qrs.rows, QrCodes.Cond(QueryOf(params), owner, owners));
      reply == Listing(QrCodes.MapQrs(QrCodes.Page(all, QrCodes.Offset(page, perPage), perPage), owners, now),
                       page, perPage, |all|, TotalPages(|all|, perPage), Urls.UrlBaseToken(urlBase))
  {
    var auth := QrSubscriptionActions.GetAuthContext(jwt);
    if auth.userId.None? {
      return NoListing;
    }
    var page := PageOf(params);
    var query := QueryOf(params);
    var perPage := PerPageOf(perPageSetting, perPageEnv);
    var items, total;
    if auth.isAdmin {
      items, total := qrs.List(page, perPage, query, None, owners, now);
    } else {
      items, total := qrs.List(page, perPage, query, auth.userId, owners, now);
    }
    var baseUrl := Urls.BaseUrl(urlBase);
    var urlBaseToken := (if baseUrl != "" then baseUrl else "") + "/r/";
    reply := Listing(items, page, perPage, total, TotalPages(total, perPage), urlBaseToken);
  }
}
