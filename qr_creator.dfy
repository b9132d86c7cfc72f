/** QrCodeCreator.createFromData: validate the request data, store a new QR record with a
    fresh random token, render its PNG and SVG images into the public tmp/qrcodes folder and
    return the stored record with the images' links and the redirect URL the images encode. */
module QrCreator {
  import opened Wrappers
  import opened Strings
  import opened Php
  import Colors
  import Urls
  import QrCodes
  import Files
  import PublicDirectory

  /** The token is bin2hex of this many random bytes. */
  const TokenBytes: nat := 16

  /** The images' folder below the public directory, which is also their URL prefix. */
  const QrFolder := "/tmp/qrcodes"

  /** Rendering parameters of both images. */
  const ImageSize: nat := 1000
  const ImageMargin: nat := 10

  const DefaultForeground := "#000000"
  const DefaultBackground := "#ffffff"

  /** What the QR renderer is given; the rendered bytes are a parameter of the model. */
  datatype QrImage = QrImage(data: string, size: nat, margin: nat, foreground: Colors.Color, background: Colors.Color)

  /** The 'links' of a response. */
  datatype Links = Links(png: string, svg: string, redirect: string)

  /** createFromData's result: the stored record and its links. */
  datatype Created = Created(qr: QrCodes.QrCode, links: Links)

  function PngLink(token: string): string { QrFolder + "/" + token + ".png" }

  function SvgLink(token: string): string { QrFolder + "/" + token + ".svg" }

  /** The links of a token: both images and the redirect URL. */
  function LinksOf(urlBase: Option<string>, token: string): Links
  {
    Links(PngLink(token), SvgLink(token), Urls.BuildRedirectUrl(urlBase, token))
  }

  /** `$data['target_url'] ?? null`, unless empty(): the target as the text it is stored as. */
  function RequiredTarget(data: Value): (r: Option<string>)
    ensures r.None? <==> Coalesce(data, "target_url").None? || Falsy(Coalesce(data, "target_url").value)
    ensures r.Some? ==> r.value == ToStr(Entry(data, "target_url").value)
  {
    match Coalesce(data, "target_url")
    case None => None
    case Some(v) => if Falsy(v) then None else Some(ToStr(v))
  }

  /** `$data['name'] ?? null`. */
  function NameOf(data: Value): Option<string>
  {
    match Coalesce(data, "name")
    case None => None
    case Some(v) => Some(ToStr(v))
  }

  /** `$data[$key] ?? $default` for a colour. */
  function ColorText(data: Value, key: string, default: string): (r: string)
    ensures !IsSet(data, key) ==> r == default
    ensures IsSet(data, key) ==> r == ToStr(Entry(data, key).value)
  {
    match Coalesce(data, key)
    case None => default
    case Some(v) => ToStr(v)
  }

  /** The image both renderers draw: the redirect URL in the requested colours. */
  function ImageOf(data: Value, urlBase: Option<string>, token: string): QrImage
  {
    QrImage(Urls.BuildRedirectUrl(urlBase, token), ImageSize, ImageMargin,
            Colors.ParseHexColor(ColorText(data, "foreground", DefaultForeground)),
            Colors.ParseHexColor(ColorText(data, "background", DefaultBackground)))
  }

  /** The images' directory on disk. */
  function TmpDir(publicDir: string): string { publicDir + QrFolder }

  /** The record create() is given: no id yet, the token, owner, target and name; colours are
      not passed on. */
  function NewRecord(token: string, userId: int, target: string, name: Option<string>, now: int): QrCodes.QrCode
  {
    QrCodes.QrCode(None, token, userId, target, name, None, None, now, None, None)
  }

  /** createFromData. An empty or missing target_url fails before anything is stored or
      written. Otherwise one row is added, the images' folder exists, the two images are
      written into it, and the result is the stored record with its links. */
  method CreateFromData(data: Value, userId: int, qrs: QrCodes.QrCodeTable, fs: Files.FileSystem,
                        codeDir: PublicDirectory.Path, urlBase: Option<string>, random: seq<nat>,
                        renderPng: QrImage -> string, renderSvg: QrImage -> string,
                        owners: map<int, QrCodes.Owner>, now: int)
    returns (r: Result<Created>)
    requires qrs.Valid()
    requires Bytes(random) && |random| == TokenBytes
    modifies qrs, fs
    ensures qrs.Valid()
    ensures RequiredTarget(data).None? ==>
      && r == Failure("target_url is required")
      && qrs.rows == old(qrs.rows) && qrs.nextId == old(qrs.nextId)
      && fs.files == old(fs.files) && fs.dirs == old(fs.dirs)
    ensures RequiredTarget(data).Some? ==>
      var token := Bin2Hex(random);
      var target := RequiredTarget(data).value;
      var tmpDir := TmpDir(PublicDirectory.PublicDirOf(codeDir));
      var image := ImageOf(data, urlBase, token);
      && qrs.rows == old(qrs.rows) + [QrCodes.QrRow(old(qrs.nextId), token, userId, target, NameOf(data), None, None, Some(now))]
      && qrs.nextId == old(qrs.nextId) + 1
      && r == Ok(Created(NewRecord(token, userId, target, NameOf(data), now).(
                           id := Some(old(qrs.nextId)),
                           ownerName := QrCodes.OwnerName(owners, userId),
                           ownerEmail := QrCodes.OwnerEmail(owners, userId)),
                         LinksOf(urlBase, token)))
      && fs.files == old(fs.files)[tmpDir + "/" + token + ".png" := renderPng(image)]
                                  [tmpDir + "/" + token + ".svg" := renderSvg(image)]
      && fs.dirs == old(fs.dirs) + {tmpDir}
  {
    var target := RequiredTarget(data);
    if target.None? {
      return Failure("target_url is required");
    }
    var name := NameOf(data);
    var foreground := ColorText(data, "foreground", DefaultForeground);
    var background := ColorText(data, "background", DefaultBackground);
    var token := Bin2Hex(random);
    var created := qrs.Create(NewRecord(token, userId, target.value, name, now), owners, now);

    var publicDir := PublicDirectory.GetPublicDir(codeDir);
    var tmpDir := TmpDir(publicDir);
    var fgColor := Colors.ParseHexColor(foreground);
    var bgColor := Colors.ParseHexColor(background);

    var baseUrl := Urls.BaseUrl(urlBase);
    var qrData := (if baseUrl != "" then baseUrl else "") + "/r/" + token;
    var image := QrImage(qrData, ImageSize, ImageMargin, fgColor, bgColor);
    WriteImages(fs, tmpDir, token, renderPng(image), renderSvg(image));

    var links := Links(QrFolder + "/" + token + ".png", QrFolder + "/" + token + ".svg", qrData);
    r := Ok(Created(created, links));
  }

  /** The folder is created when missing, then file_put_contents of both images. */
  method WriteImages(fs: Files.FileSystem, tmpDir: string, token: string, png: string, svg: string)
    modifies fs
    ensures fs.files == old(fs.files)[tmpDir + "/" + token + ".png" := png][tmpDir + "/" + token + ".svg" := svg]
    ensures fs.dirs == old(fs.dirs) + {tmpDir}
  {
    if tmpDir !in fs.dirs {
      fs.MakeDirs(tmpDir);
    }
    var pngPath := tmpDir + "/" + token + ".png";
    var svgPath := tmpDir + "/" + token + ".svg";
    fs.Write(pngPath, png);
    fs.Write(svgPath, svg);
  }

  /** The token is 32 lower-case hex digits. */
  lemma TokenShape(random: seq<nat>)
    requires Bytes(random) && |random| == TokenBytes
    ensures |Bin2Hex(random)| == 32
    ensures forall k :: 0 <= k < 32 ==> IsLowerHexDigit(Bin2Hex(random)[k])
  {
  }

  /** Without colours in the request the images are black on white. */
  lemma DefaultColours(data: Value, urlBase: Option<string>, token: string)
    requires !IsSet(data, "foreground") && !IsSet(data, "background")
    ensures ImageOf(data, urlBase, token).foreground == Colors.Color(0, 0, 0)
    ensures ImageOf(data, urlBase, token).background == Colors.Color(255, 255, 255)
  {
    Colors.Defaults();
  }

  /** The links point at the written files: saving or serving a link below the public
      directory names the file the creator wrote, and the redirect link is the token URL. */
  lemma LinksServeFiles(publicDir: string, urlBase: Option<string>, token: string)
    ensures PublicDirectory.FullPath(publicDir, LinksOf(urlBase, token).png) == TmpDir(publicDir) + "/" + token + ".png"
    ensures PublicDirectory.FullPath(publicDir, LinksOf(urlBase, token).svg) == TmpDir(publicDir) + "/" + token + ".svg"
    ensures publicDir + LinksOf(urlBase, token).png == TmpDir(publicDir) + "/" + token + ".png"
    ensures LinksOf(urlBase, token).redirect == Urls.UrlBaseToken(urlBase) + token
  {
    LinkBelowPublicDir(publicDir, token + ".png");
    assert PngLink(token) == QrFolder + "/" + (token + ".png");
    assert TmpDir(publicDir) + "/" + token + ".png" == TmpDir(publicDir) + "/" + (token + ".png");
    LinkBelowPublicDir(publicDir, token + ".svg");
    assert SvgLink(token) == QrFolder + "/" + (token + ".svg");
    assert TmpDir(publicDir) + "/" + token + ".svg" == TmpDir(publicDir) + "/" + (token + ".svg");
    Urls.RedirectIsBaseTokenPlusToken(urlBase, token);
  }

  lemma LinkBelowPublicDir(publicDir: string, file: string)
    ensures PublicDirectory.FullPath(publicDir, QrFolder + "/" + file) == TmpDir(publicDir) + "/" + file
  {
    var s := QrFolder + "/" + file;
    var rest := "tmp/qrcodes/" + file;
    assert s == "/" + rest;
    assert s[1..] == rest;
    assert rest[0] == 't';
    assert LTrim(s, '/') == LTrim(rest, '/');
    assert LTrim(rest, '/') == rest;
    assert publicDir + "/" + rest == TmpDir(publicDir) + "/" + file;
  }
}
