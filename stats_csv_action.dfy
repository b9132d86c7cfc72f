/** The on-demand scan export of one QR code: its newest scans (at most 10000) written as a
    CSV file under the public directory's tmp/reports folder, whose download URL is returned.
    The file name carries the QR id and twelve random hex digits. */
module StatsCsvAction {
  import opened Wrappers
  import opened Strings
  import opened Php
  import Scans
  import Csv
  import QrCodes
  import Files
  import PublicDirectory

  /** The export's LIMIT on findByQrCode. */
  const ExportLimit: nat := 10000

  /** The folder below the public directory, which is also the URL prefix. */
  const ReportsFolder := "/tmp/reports"

  /** The random part of the name comes from six random bytes. */
  const RandomBytes: nat := 6

  /** sprintf('qrcode_%d_scans_%s.csv', $id, bin2hex(random_bytes(6))). */
  function Filename(id: int, bs: seq<nat>): string
    requires Bytes(bs)
  {
    "qrcode_" + IntToDecimal(id) + "_scans_" + Bin2Hex(bs) + ".csv"
  }

  /** The file name has no '/', so it names a file directly inside the reports folder; its
      random part is twelve lower-case hex digits just before '.csv'. */
  lemma FilenameShape(id: int, bs: seq<nat>)
    requires Bytes(bs) && |bs| == RandomBytes
    ensures var name := Filename(id, bs);
      && |name| >= 16 + 12
      && name[|name| - 16..|name| - 4] == Bin2Hex(bs)
      && name[|name| - 4..] == ".csv"
      && (forall k :: 0 <= k < |name| ==> name[k] != '/')
  {
    var d := IntToDecimal(id);
    var h := Bin2Hex(bs);
    var name := Filename(id, bs);
    assert name == "qrcode_" + d + "_scans_" + h + ".csv";
    assert name[|name| - 4..] == ".csv";
    assert name[|name| - 16..|name| - 4] == h;
    forall k | 0 <= k < |d|
      ensures d[k] != '/'
    {
      DecimalHasNoSlash(id, k);
    }
  }

  lemma DecimalHasNoSlash(id: int, k: nat)
    requires k < |IntToDecimal(id)|
    ensures IntToDecimal(id)[k] != '/'
  {
    DigitsOrMinus(id);
  }

  /** A decimal text is digits, after a '-' for a negative number. */
  lemma DigitsOrMinus(i: int)
    ensures forall k :: 0 <= k < |IntToDecimal(i)| ==> IsDigit(IntToDecimal(i)[k]) || IntToDecimal(i)[k] == '-'
  {
    if i < 0 {
      DigitRunAll(NatToDecimal(-i));
      assert IntToDecimal(i) == "-" + NatToDecimal(-i);
    } else {
      DigitRunAll(NatToDecimal(i));
    }
  }

  /** Every scan the repository returns is a Scan object, so no entry is skipped. */
  function AsItems(scans: seq<Scans.Scan>): (r: seq<Csv.Item>)
    ensures |r| == |scans|
    ensures forall i :: 0 <= i < |scans| ==> r[i] == Csv.ScanItem(scans[i])
  {
    if |scans| == 0 then [] else AsItems(scans[..|scans| - 1]) + [Csv.ScanItem(scans[|scans| - 1])]
  }

  datatype Reply = NotFound(error: string) | Download(downloadUrl: string)

  /** `$publicDir . '/tmp/reports'`. */
  function ReportsDir(publicDir: string): string { publicDir + ReportsFolder }

  /** `$tmpDir . DIRECTORY_SEPARATOR . $filename`, with '/' as the separator. */
  function InDir(dir: string, name: string): string { dir + "/" + name }

  /** `$city`: the 'city' query parameter when set and not empty. It is read, and then used by
      nothing. */
  function CityOf(query: Value): Option<string>
  {
    if IsSet(query, "city") && Entry(query, "city").value != Str("") then Some(ToStr(Entry(query, "city").value))
    else None
  }

  /** Reading the parameter. */
  method ReadCity(query: Value) returns (city: Option<string>)
    ensures city == CityOf(query)
  {
    city := CityOf(query);
  }

  /** The export proper, once the QR code is known to exist: the reports folder is created
      when missing and the CSV of the QR's newest scans is written to a fresh name in it;
      returns that file's URL. */
  method Export(id: int, scans: Scans.ScanTable, fs: Files.FileSystem, codeDir: PublicDirectory.Path,
                random: seq<nat>, formatTime: int -> string)
    returns (downloadUrl: string)
    requires scans.Valid()
    requires Bytes(random) && |random| == RandomBytes
    modifies fs
    ensures downloadUrl == InDir(ReportsFolder, Filename(id, random))
    ensures fs.files == old(fs.files)[InDir(ReportsDir(PublicDirectory.PublicDirOf(codeDir)), Filename(id, random)) :=
                                      Csv.CsvDocument(AsItems(Scans.Latest(scans.rows, id, ExportLimit)), formatTime)]
    ensures fs.dirs == old(fs.dirs) + {ReportsDir(PublicDirectory.PublicDirOf(codeDir))}
  {
    var found := scans.FindByQrCode(id, ExportLimit);
    var csv := Csv.BuildCsv(AsItems(found), formatTime);
    var publicDir := PublicDirectory.GetPublicDir(codeDir);
    var filename := Filename(id, random);
    SaveReport(fs, ReportsDir(publicDir), filename, csv);
    downloadUrl := InDir(ReportsFolder, filename);
  }

  /** `is_dir` / `mkdir` of the reports folder, then `file_put_contents` of the file in it. */
  method SaveReport(fs: Files.FileSystem, tmpDir: string, filename: string, csv: string)
    modifies fs
    ensures fs.files == old(fs.files)[InDir(tmpDir, filename) := csv]
    ensures fs.dirs == old(fs.dirs) + {tmpDir}
  {
    if tmpDir !in fs.dirs {
      fs.MakeDirs(tmpDir);
    }
    fs.Write(InDir(tmpDir, filename), csv);
  }

  /** The action. An unknown QR code is a 404 and writes nothing; otherwise the reply is the
      URL of the exported file. The city parameter is read and changes nothing. */
  method Action(idArg: string, query: Value, qrs: QrCodes.QrCodeTable, scans: Scans.ScanTable,
                fs: Files.FileSystem, codeDir: PublicDirectory.Path, random: seq<nat>,
                formatTime: int -> string, owners: map<int, QrCodes.Owner>, now: int)
    returns (reply: Reply)
    requires scans.Valid()
    requires Bytes(random) && |random| == RandomBytes
    modifies fs
    ensures qrs.FindOfId(IntArg(idArg), owners, now).None? ==>
      reply == NotFound("QR not found") && fs.files == old(fs.files) && fs.dirs == old(fs.dirs)
    ensures qrs.FindOfId(IntArg(idArg), owners, now).Some? ==>
      var id := IntArg(idArg);
      var tmpDir := ReportsDir(PublicDirectory.PublicDirOf(codeDir));
      var name := Filename(id, random);
      && reply == Download(InDir(ReportsFolder, name))
      && fs.files == old(fs.files)[InDir(tmpDir, name) :=
                                   Csv.CsvDocument(AsItems(Scans.Latest(scans.rows, id, ExportLimit)), formatTime)]
      && fs.dirs == old(fs.dirs) + {tmpDir}
  {
    var id := IntArg(idArg);
    var qr := qrs.FindOfId(id, owners, now);
    if qr.None? {
      return NotFound("QR not found");
    }
    var city := ReadCity(query);
    var url := Export(id, scans, fs, codeDir, random, formatTime);
    reply := Download(url);
  }

  /** The exported file reads back as the header and one record per scan, at most 10000 of
      them, all of that QR code, newest first. */
  lemma ExportReadsBack(rows: seq<Scans.Scan>, nextId: int, id: int, formatTime: int -> string)
    requires Scans.WellFormedRows(rows, nextId)
    ensures var found := Scans.Latest(rows, id, ExportLimit);
      var doc := Csv.ParseDocument(Csv.CsvDocument(AsItems(found), formatTime));
      && doc.Some? && |doc.value| == 1 + |found| && doc.value[0] == Csv.Header
      && |found| <= ExportLimit
      && (forall k :: 0 <= k < |found| ==> found[k].qrCodeId == id)
  {
    var found := Scans.Latest(rows, id, ExportLimit);
    Scans.LatestProperties(rows, nextId, id, ExportLimit);
    Csv.CsvRoundTrip(AsItems(found), formatTime);
    RecordsOfScans(found, formatTime);
  }

  /** Each item of a scan list yields one record. */
  lemma {:induction false} RecordsOfScans(scans: seq<Scans.Scan>, formatTime: int -> string)
    ensures |Csv.ScanRecords(AsItems(scans), formatTime)| == |scans|
  {
    if |scans| > 0 {
      RecordsOfScans(scans[..|scans| - 1], formatTime);
      RecordsAppend(AsItems(scans[..|scans| - 1]), Csv.ScanItem(scans[|scans| - 1]), formatTime);
    }
  }

  lemma RecordsAppend(items: seq<Csv.Item>, item: Csv.Item, formatTime: int -> string)
    ensures |Csv.ScanRecords(items + [item], formatTime)| ==
            |Csv.ScanRecords(items, formatTime)| + (if item.ScanItem? then 1 else 0)
  {
    assert (items + [item])[..|items|] == items;
  }
}
