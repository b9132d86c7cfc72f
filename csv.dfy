/** The scan export CSV shared by the monthly/weekly report attachments and the on-demand
    export: a header line and one line per scan, fields joined by ',', lines by CR LF.
    A field is escaped by doubling its quotes and is wrapped in quotes when it then holds a
    quote, a comma, a CR or a LF.

    The partner of the writer is a reader (`ParseDocument`, RFC 4180 style): reading a written
    document gives back the header and every scan's fields, with a null field read as "". */
module Csv {
  import opened Wrappers
  import opened Strings
  import opened Scans

  const Header: seq<string> := ["id", "qrcode_id", "scanned_at", "ip", "user_agent", "city", "country"]

  /** The characters of the quoting test: `"`, `,`, LF and CR. */
  predicate Special(c: char) { c == '"' || c == ',' || c == '\n' || c == '\r' }

  predicate HasSpecial(s: string)
  {
    |s| > 0 && (Special(s[0]) || HasSpecial(s[1..]))
  }

  predicate HasQuote(s: string)
  {
    |s| > 0 && (s[0] == '"' || HasQuote(s[1..]))
  }

  /** Every `"` becomes `""`. */
  function DoubleQuotes(s: string): string
  {
    if |s| == 0 then ""
    else (if s[0] == '"' then "\"\"" else [s[0]]) + DoubleQuotes(s[1..])
  }

  /** Doubling quotes neither adds nor removes a character of the quoting test, and leaves a
      text without quotes as it is. */
  lemma {:induction false} DoubleQuotesSpecial(s: string)
    ensures HasSpecial(DoubleQuotes(s)) == HasSpecial(s)
    ensures !HasQuote(s) ==> DoubleQuotes(s) == s
  {
    if |s| > 0 {
      DoubleQuotesSpecial(s[1..]);
      var head := if s[0] == '"' then "\"\"" else [s[0]];
      assert DoubleQuotes(s) == head + DoubleQuotes(s[1..]);
      assert (head + DoubleQuotes(s[1..]))[1..] == head[1..] + DoubleQuotes(s[1..]);
      if s[0] == '"' {
        assert (head[1..] + DoubleQuotes(s[1..]))[0] == '"';
      } else {
        assert (head + DoubleQuotes(s[1..]))[1..] == DoubleQuotes(s[1..]);
      }
    }
  }

  lemma {:induction false} QuoteIsSpecial(s: string)
    ensures HasQuote(s) ==> HasSpecial(s)
  {
    if |s| > 0 {
      QuoteIsSpecial(s[1..]);
    }
  }

  /** The escaping of one field: null is empty, a text without any of `"`, `,`, CR, LF is
      written as it is, and any other text is written between quotes. */
  function EscapeField(v: Option<string>): (r: string)
    ensures v.None? ==> r == ""
    ensures v.Some? && !HasSpecial(v.value) ==> r == v.value
    ensures v.Some? && HasSpecial(v.value) ==> |r| >= 2 && r[0] == '"' && r[|r| - 1] == '"'
  {
    match v
    case None => ""
    case Some(s) =>
      DoubleQuotesSpecial(s);
      QuoteIsSpecial(s);
      var t := DoubleQuotes(s);
      if HasSpecial(t) then "\"" + t + "\"" else t
  }

  function EscapeAll(vs: seq<Option<string>>): (r: seq<string>)
    ensures |r| == |vs|
    ensures forall i :: 0 <= i < |vs| ==> r[i] == EscapeField(vs[i])
  {
    if |vs| == 0 then [] else [EscapeField(vs[0])] + EscapeAll(vs[1..])
  }

  /** One CSV line. */
  function Line(vs: seq<Option<string>>): string
  {
    Join(EscapeAll(vs), ",")
  }

  /** What a reader gets back for a line's values: null reads as the empty text. */
  function Values(vs: seq<Option<string>>): (r: seq<string>)
    ensures |r| == |vs|
    ensures forall i :: 0 <= i < |vs| ==> r[i] == vs[i].GetOr("")
  {
    if |vs| == 0 then [] else [vs[0].GetOr("")] + Values(vs[1..])
  }

  function LinesOf(rs: seq<seq<Option<string>>>): (r: seq<string>)
    ensures |r| == |rs|
    ensures forall i :: 0 <= i < |rs| ==> r[i] == Line(rs[i])
  {
    if |rs| == 0 then [] else [Line(rs[0])] + LinesOf(rs[1..])
  }

  function ValuesOf(rs: seq<seq<Option<string>>>): (r: seq<seq<string>>)
    ensures |r| == |rs|
    ensures forall i :: 0 <= i < |rs| ==> r[i] == Values(rs[i])
  {
    if |rs| == 0 then [] else [Values(rs[0])] + ValuesOf(rs[1..])
  }

  lemma {:induction false} LinesOfAppend(rs: seq<seq<Option<string>>>, r: seq<Option<string>>)
    ensures LinesOf(rs + [r]) == LinesOf(rs) + [Line(r)]
  {
    if |rs| > 0 {
      assert (rs + [r])[1..] == rs[1..] + [r];
      LinesOfAppend(rs[1..], r);
    } else {
      assert rs + [r] == [r];
    }
  }

  // ---------------------------------------------------------------------------------------
  // The reader

  /** Reads the rest of a quoted field, just after its opening quote: `""` is one quote and a
      lone `"` closes the field. None when the closing quote is missing. */
  function ReadQuoted(s: string): (r: Option<(string, string)>)
    ensures r.Some? ==> |r.value.1| < |s|
  {
    if |s| == 0 then None
    else if s[0] == '"' then
      if |s| >= 2 && s[1] == '"' then
        match ReadQuoted(s[2..])
        case None => None
        case Some((v, rest)) => Some(("\"" + v, rest))
      else Some(("", s[1..]))
    else
      match ReadQuoted(s[1..])
      case None => None
      case Some((v, rest)) => Some(([s[0]] + v, rest))
  }

  /** Length of an unquoted field: up to the first comma, CR or LF. */
  function FieldEnd(s: string): (k: nat)
    ensures k <= |s|
  {
    if |s| == 0 || s[0] == ',' || s[0] == '\r' || s[0] == '\n' then 0
    else 1 + FieldEnd(s[1..])
  }

  /** Reads one field; returns its value and the text after it. */
  function ParseField(s: string): (r: Option<(string, string)>)
    ensures r.Some? ==> |r.value.1| <= |s|
  {
    if |s| > 0 && s[0] == '"' then ReadQuoted(s[1..])
    else
      var k := FieldEnd(s);
      Some((s[..k], s[k..]))
  }

  /** Reads the comma-separated fields of one record; the text after it is returned. */
  function ParseRecord(s: string): (r: Option<(seq<string>, string)>)
    ensures r.Some? ==> |r.value.1| <= |s|
    decreases |s|
  {
    match ParseField(s)
    case None => None
    case Some((f, rest)) =>
      if |rest| > 0 && rest[0] == ',' then
        match ParseRecord(rest[1..])
        case None => None
        case Some((fs, after)) => Some(([f] + fs, after))
      else Some(([f], rest))
  }

  /** Reads CR LF separated records up to the end of the text. */
  function ParseDocument(s: string): Option<seq<seq<string>>>
    decreases |s|
  {
    match ParseRecord(s)
    case None => None
    case Some((fs, rest)) =>
      if |rest| == 0 then Some([fs])
      else if |rest| >= 2 && rest[0] == '\r' && rest[1] == '\n' then
        match ParseDocument(rest[2..])
        case None => None
        case Some(more) => Some([fs] + more)
      else None
  }

  // ---------------------------------------------------------------------------------------
  // Round trip

  lemma {:induction false} ReadQuotedDoubled(x: string, rest: string)
    requires |rest| == 0 || rest[0] != '"'
    ensures ReadQuoted(DoubleQuotes(x) + "\"" + rest) == Some((x, rest))
  {
    var s := DoubleQuotes(x) + "\"" + rest;
    if |x| == 0 {
      assert s == "\"" + rest;
      assert s[1..] == rest;
    } else {
      ReadQuotedDoubled(x[1..], rest);
      var tail := DoubleQuotes(x[1..]) + "\"" + rest;
      if x[0] == '"' {
        assert s == "\"\"" + tail;
        assert s[2..] == tail;
        assert "\"" + x[1..] == x;
      } else {
        assert s == [x[0]] + tail;
        assert s[1..] == tail;
        assert [x[0]] + x[1..] == x;
      }
    }
  }

  lemma {:induction false} FieldEndPlain(t: string, rest: string)
    requires !HasSpecial(t)
    requires |rest| == 0 || rest[0] == ',' || rest[0] == '\r'
    ensures FieldEnd(t + rest) == |t|
  {
    if |t| > 0 {
      assert (t + rest)[1..] == t[1..] + rest;
      FieldEndPlain(t[1..], rest);
    } else {
      assert t + rest == rest;
    }
  }

  /** An escaped field followed by a comma, a CR or nothing reads back as its value. */
  lemma ParseEscapedField(v: Option<string>, rest: string)
    requires |rest| == 0 || rest[0] == ',' || rest[0] == '\r'
    ensures ParseField(EscapeField(v) + rest) == Some((v.GetOr(""), rest))
  {
    var x := v.GetOr("");
    var e := EscapeField(v);
    if v.Some? && HasSpecial(x) {
      DoubleQuotesSpecial(x);
      var t := DoubleQuotes(x);
      assert e == "\"" + t + "\"";
      assert (e + rest)[1..] == t + "\"" + rest;
      ReadQuotedDoubled(x, rest);
    } else {
      assert e == x;
      QuoteIsSpecial(x);
      FieldEndPlain(x, rest);
      if |x| > 0 {
        assert (e + rest)[0] == x[0];
      } else if |rest| > 0 {
        assert (e + rest)[0] == rest[0];
      }
      assert (x + rest)[..|x|] == x && (x + rest)[|x|..] == rest;
    }
  }

  lemma RecordMore(s: string, f: string, rest: string, fs: seq<string>, after: string)
    requires ParseField(s) == Some((f, rest)) && |rest| > 0 && rest[0] == ','
    requires ParseRecord(rest[1..]) == Some((fs, after))
    ensures ParseRecord(s) == Some(([f] + fs, after))
  {
  }

  lemma RecordLast(s: string, f: string, rest: string)
    requires ParseField(s) == Some((f, rest)) && (|rest| == 0 || rest[0] == '\r')
    ensures ParseRecord(s) == Some(([f], rest))
  {
  }

  lemma DocumentMore(s: string, fs: seq<string>, rest: string, more: seq<seq<string>>)
    requires ParseRecord(s) == Some((fs, rest))
    requires |rest| >= 2 && rest[0] == '\r' && rest[1] == '\n'
    requires ParseDocument(rest[2..]) == Some(more)
    ensures ParseDocument(s) == Some([fs] + more)
  {
  }

  lemma DocumentLast(s: string, fs: seq<string>)
    requires ParseRecord(s) == Some((fs, ""))
    ensures ParseDocument(s) == Some([fs])
  {
  }

  lemma ConcatRegroup(a: string, b: string, c: string)
    ensures a + "," + b + c == a + ("," + (b + c))
  {
  }

  lemma LineCons(vs: seq<Option<string>>)
    requires |vs| >= 2
    ensures Line(vs) == EscapeField(vs[0]) + "," + Line(vs[1..])
    ensures Values(vs) == [vs[0].GetOr("")] + Values(vs[1..])
  {
    assert EscapeAll(vs) == [EscapeField(vs[0])] + EscapeAll(vs[1..]);
    JoinCons(EscapeField(vs[0]), EscapeAll(vs[1..]), ",");
  }

  lemma LineSingle(vs: seq<Option<string>>)
    requires |vs| == 1
    ensures Line(vs) == EscapeField(vs[0])
    ensures Values(vs) == [vs[0].GetOr("")]
  {
    assert vs[1..] == [];
    assert EscapeAll(vs) == [EscapeField(vs[0])];
  }

  lemma ParseLineStep(vs: seq<Option<string>>, rest: string)
    requires |vs| >= 2
    requires |rest| == 0 || rest[0] == '\r'
    requires ParseRecord(Line(vs[1..]) + rest) == Some((Values(vs[1..]), rest))
    ensures ParseRecord(Line(vs) + rest) == Some((Values(vs), rest))
  {
    var e0 := EscapeField(vs[0]);
    var tailLine := Line(vs[1..]);
    var after := "," + (tailLine + rest);
    LineCons(vs);
    assert Line(vs) + rest == e0 + after by {
      ConcatRegroup(e0, tailLine, rest);
    }
    ParseEscapedField(vs[0], after);
    assert after[1..] == tailLine + rest;
    RecordMore(e0 + after, vs[0].GetOr(""), after, Values(vs[1..]), rest);
  }

  /** A line of at least one field, followed by CR LF or nothing, reads back as its values. */
  lemma {:induction false} ParseLine(vs: seq<Option<string>>, rest: string)
    requires |vs| >= 1
    requires |rest| == 0 || rest[0] == '\r'
    ensures ParseRecord(Line(vs) + rest) == Some((Values(vs), rest))
  {
    if |vs| == 1 {
      LineSingle(vs);
      ParseEscapedField(vs[0], rest);
      RecordLast(EscapeField(vs[0]) + rest, vs[0].GetOr(""), rest);
    } else {
      ParseLine(vs[1..], rest);
      ParseLineStep(vs, rest);
    }
  }

  /** Records of at least one field each, written as CR LF separated lines, read back as
      their values. */
  lemma {:induction false} ParseLines(rs: seq<seq<Option<string>>>)
    requires |rs| >= 1
    requires forall i :: 0 <= i < |rs| ==> |rs[i]| >= 1
    ensures ParseDocument(Join(LinesOf(rs), "\r\n")) == Some(ValuesOf(rs))
  {
    var l0 := Line(rs[0]);
    if |rs| == 1 {
      assert rs[1..] == [];
      assert LinesOf(rs) == [l0];
      ParseLine(rs[0], "");
      assert l0 + "" == l0;
      DocumentLast(l0, Values(rs[0]));
      assert ValuesOf(rs) == [Values(rs[0])];
    } else {
      var tail := rs[1..];
      assert LinesOf(rs) == [l0] + LinesOf(tail);
      JoinCons(l0, LinesOf(tail), "\r\n");
      var after := "\r\n" + Join(LinesOf(tail), "\r\n");
      assert Join(LinesOf(rs), "\r\n") == l0 + after;
      ParseLine(rs[0], after);
      assert after[2..] == Join(LinesOf(tail), "\r\n");
      ParseLines(tail);
      DocumentMore(l0 + after, Values(rs[0]), after, ValuesOf(tail));
      assert ValuesOf(rs) == [Values(rs[0])] + ValuesOf(tail);
    }
  }

  // ---------------------------------------------------------------------------------------
  // The scan export

  /** An element of the list handed to the writer; anything but a scan object is skipped. */
  datatype Item = ScanItem(scan: Scan) | OtherItem

  /** The seven fields of a scan as `toArray` lists them; `scanned_at` is rendered by the
      given 'Y-m-d H:i:s' formatter. */
  function ScanFields(s: Scan, formatTime: int -> string): (r: seq<Option<string>>)
    ensures |r| == |Header|
  {
    [ (match s.id case Some(i) => Some(IntToDecimal(i)) case None => None),
      Some(IntToDecimal(s.qrCodeId)),
      Some(formatTime(s.scannedAt)),
      s.ip, s.userAgent, s.city, s.country ]
  }

  /** The field lists of the scan objects among the items, in order. */
  function ScanRecords(items: seq<Item>, formatTime: int -> string): (r: seq<seq<Option<string>>>)
    ensures forall i :: 0 <= i < |r| ==> |r[i]| == |Header|
    ensures |r| <= |items|
  {
    if |items| == 0 then []
    else
      var last := items[|items| - 1];
      ScanRecords(items[..|items| - 1], formatTime)
        + (if last.ScanItem? then [ScanFields(last.scan, formatTime)] else [])
  }

  function Somes(names: seq<string>): (r: seq<Option<string>>)
    ensures |r| == |names|
  {
    if |names| == 0 then [] else [Some(names[0])] + Somes(names[1..])
  }

  /** Names without any of `"`, `,`, CR, LF are written unchanged and read back unchanged. */
  lemma {:induction false} PlainNames(names: seq<string>)
    requires AllPlain(names)
    ensures EscapeAll(Somes(names)) == names
    ensures Values(Somes(names)) == names
  {
    if |names| > 0 {
      PlainNames(names[1..]);
      assert Somes(names)[1..] == Somes(names[1..]);
    }
  }

  function CsvDocument(items: seq<Item>, formatTime: int -> string): string
  {
    Join([Join(Header, ",")] + LinesOf(ScanRecords(items, formatTime)), "\r\n")
  }

  // Each header name is checked on its own: evaluating the test on a literal is cheap only
  // one literal at a time.
  lemma ShortHeaderNamesPlain()
    ensures !HasSpecial("id") && !HasSpecial("ip") && !HasSpecial("city") && !HasSpecial("country")
  {
  }

  lemma QrCodeIdPlain() ensures !HasSpecial("qrcode_id") {}
  lemma ScannedAtPlain() ensures !HasSpecial("scanned_at") {}
  lemma UserAgentPlain() ensures !HasSpecial("user_agent") {}

  predicate AllPlain(names: seq<string>)
  {
    |names| == 0 || (!HasSpecial(names[0]) && AllPlain(names[1..]))
  }

  lemma HeaderNamesPlain()
    ensures AllPlain(Header)
  {
    ShortHeaderNamesPlain();
    QrCodeIdPlain();
    ScannedAtPlain();
    UserAgentPlain();
  }

  lemma HeaderLine()
    ensures Join(Header, ",") == Line(Somes(Header))
    ensures Values(Somes(Header)) == Header
  {
    HeaderNamesPlain();
    PlainNames(Header);
  }

  /** Reading an export gives back the header and then one record per scan object, in order,
      with each of the seven fields as written and nulls as empty texts. */
  lemma CsvRoundTrip(items: seq<Item>, formatTime: int -> string)
    ensures ParseDocument(CsvDocument(items, formatTime))
      == Some([Header] + ValuesOf(ScanRecords(items, formatTime)))
  {
    var records := ScanRecords(items, formatTime);
    var rs := [Somes(Header)] + records;
    HeaderLine();
    assert rs[1..] == records;
    assert LinesOf(rs) == [Join(Header, ",")] + LinesOf(records);
    ParseLines(rs);
    assert ValuesOf(rs) == [Header] + ValuesOf(records);
  }

  lemma LinesStep(items: seq<Item>, i: nat, formatTime: int -> string)
    requires i < |items|
    ensures LinesOf(ScanRecords(items[..i + 1], formatTime)) == LinesOf(ScanRecords(items[..i], formatTime))
      + (if items[i].ScanItem? then [Line(ScanFields(items[i].scan, formatTime))] else [])
  {
    assert items[..i + 1][..i] == items[..i];
    var before := ScanRecords(items[..i], formatTime);
    if items[i].ScanItem? {
      LinesOfAppend(before, ScanFields(items[i].scan, formatTime));
    } else {
      assert before + [] == before;
      assert LinesOf(before) + [] == LinesOf(before);
    }
  }

  /** Writes the export: the header line, then a line per scan object. */
  method BuildCsv(items: seq<Item>, formatTime: int -> string) returns (csv: string)
    ensures csv == CsvDocument(items, formatTime)
  {
    var lines := [Join(Header, ",")];
    for i := 0 to |items|
      invariant |lines| >= 1 && lines[0] == Join(Header, ",")
      invariant lines[1..] == LinesOf(ScanRecords(items[..i], formatTime))
    {
      LinesStep(items, i, formatTime);
      if items[i].ScanItem? {
        lines := lines + [Join(EscapeAll(ScanFields(items[i].scan, formatTime)), ",")];
      }
    }
    assert items[..|items|] == items;
    assert lines == [lines[0]] + lines[1..];
    csv := Join(lines, "\r\n");
  }
}
