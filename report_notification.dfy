/** The periodic report run (ReportNotificationService): when the active report settings are
    due, every subscribed user whose account exists gets one mail with a summary line and a CSV
    attachment per subscribed QR code that still exists, and the settings record the run.

    The scan repository's range queries, the mailer, the date formatters and the calendar
    arithmetic of the time zone are parameters; the tables are the repository classes. */
module ReportNotification {
  import opened Wrappers
  import opened Strings
  import opened ReportSettingsDomain
  import ReportSchedule
  import ReportSettingsRepository
  import QrSubscriptions
  import Users
  import QrCodes
  import Scans
  import Csv

  /** The LIMIT of the scans exported per QR code. */
  const ScanLimit: nat := 10000

  // ---------------------------------------------------------------------------------------
  // htmlspecialchars (ENT_QUOTES, as PHP 8.1 defaults)

  function EscapeChar(c: char): string
  {
    if c == '&' then "&amp;"
    else if c == '<' then "&lt;"
    else if c == '>' then "&gt;"
    else if c == '"' then "&quot;"
    else if c == '\'' then "&#039;"
    else [c]
  }

  /** The characters that could open or close markup or an attribute value. */
  predicate IsMarkup(c: char) { c == '<' || c == '>' || c == '"' || c == '\'' }

  /** Text htmlspecialchars leaves as it is. */
  predicate PlainText(s: string) {
    forall i :: 0 <= i < |s| ==> !IsMarkup(s[i]) && s[i] != '&'
  }

  /** The escaped text holds no markup character, so a name or URL cannot open a tag or leave
      an attribute value. */
  function HtmlEscape(s: string): (r: string)
    ensures forall i :: 0 <= i < |r| ==> !IsMarkup(r[i])
    ensures |r| >= |s|
  {
    if |s| == 0 then "" else EscapeChar(s[0]) + HtmlEscape(s[1..])
  }

  /** Plain text is left unchanged. */
  lemma {:induction false} HtmlEscapePlain(s: string)
    requires PlainText(s)
    ensures HtmlEscape(s) == s
  {
    if |s| > 0 {
      HtmlEscapePlain(s[1..]);
    }
  }

  predicate StartsWith(s: string, p: string) { |p| <= |s| && s[..|p|] == p }

  /** The entity that starts the text, with its length, if any of the five does. */
  function EntityAt(s: string): Option<(char, nat)>
  {
    if |s| >= 5 && s[0] == '&' && s[1] == 'a' && s[2] == 'm' && s[3] == 'p' && s[4] == ';' then Some(('&', 5))
    else if |s| >= 4 && s[0] == '&' && s[1] == 'l' && s[2] == 't' && s[3] == ';' then Some(('<', 4))
    else if |s| >= 4 && s[0] == '&' && s[1] == 'g' && s[2] == 't' && s[3] == ';' then Some(('>', 4))
    else if |s| >= 6 && s[0] == '&' && s[1] == 'q' && s[2] == 'u' && s[3] == 'o' && s[4] == 't' && s[5] == ';' then Some(('"', 6))
    else if |s| >= 6 && s[0] == '&' && s[1] == '#' && s[2] == '0' && s[3] == '3' && s[4] == '9' && s[5] == ';' then Some(('\'', 6))
    else None
  }

  /** Reading the five entities back (what a browser shows). */
  function HtmlUnescape(s: string): string
    decreases |s|
  {
    if |s| == 0 then ""
    else
      match EntityAt(s)
      case Some(e) => (if e.1 <= |s| then [e.0] + HtmlUnescape(s[e.1..]) else "")
      case None => [s[0]] + HtmlUnescape(s[1..])
  }

  /** The escaped text shows as the original: escaping loses nothing. */
  lemma {:induction false} HtmlEscapeRoundTrip(s: string)
    ensures HtmlUnescape(HtmlEscape(s)) == s
  {
    if |s| > 0 {
      var rest := HtmlEscape(s[1..]);
      HtmlEscapeRoundTrip(s[1..]);
      EscapeCharStep(s[0], rest);
      assert s == [s[0]] + s[1..];
    }
  }

  lemma EscapeCharStep(c: char, rest: string)
    ensures HtmlUnescape(EscapeChar(c) + rest) == [c] + HtmlUnescape(rest)
  {
    var e := EscapeChar(c);
    var t := e + rest;
    assert t[|e|..] == rest;
    assert forall i :: 0 <= i < |e| ==> t[i] == e[i];
    if c != '&' && c != '<' && c != '>' && c != '"' && c != '\'' {
      assert t[0] == c && t[1..] == rest;
    }
  }

  // ---------------------------------------------------------------------------------------
  // The mail

  /** PHP's `?:` and `empty()` on a nullable string: null, '' and '0' count as empty. */
  predicate EmptyText(s: Option<string>) { s.None? || s.value == "" || s.value == "0" }

  datatype Summary = Summary(id: int, name: string, total: nat, period: nat)

  datatype Attachment = Attachment(filename: string, content: string, mime: string)

  datatype Mail = Mail(to: string, subject: string, body: string, attachments: seq<Attachment>)

  /** One list item of the body. */
  function ItemHtml(s: Summary): string
  {
    "<li><strong>" + HtmlEscape(s.name) + "</strong> - Total: " + NatToDecimal(s.total)
      + ", Periodo: " + NatToDecimal(s.period) + "</li>"
  }

  function ItemsHtml(ss: seq<Summary>): string
  {
    if |ss| == 0 then "" else ItemsHtml(ss[..|ss| - 1]) + ItemHtml(ss[|ss| - 1])
  }

  /** The dashboard paragraph, left out when the URL is empty. */
  function LookerHtml(lookerUrl: Option<string>): string
  {
    if EmptyText(lookerUrl) then ""
    else
      var safe := HtmlEscape(lookerUrl.value);
      "<p>Dashboard interactivo: <a href=\"" + safe + "\">" + safe + "</a></p>"
  }

  function Greeting(userName: string): string { "<p>Hola " + HtmlEscape(userName) + ",</p>" }

  const Footer := "<p>Se adjunta un CSV con el detalle de scans por QR.</p>"

  function Intro(rangeLabel: string): string
  {
    "<p>Resumen de tus QRs para el periodo " + rangeLabel + ":</p>"
  }

  function Body(userName: string, ss: seq<Summary>, lookerUrl: Option<string>, startLabel: string,
                endLabel: string): string
  {
    Greeting(userName) + Intro(startLabel + " a " + endLabel) + "<ul>" + ItemsHtml(ss) + "</ul>"
      + LookerHtml(lookerUrl) + Footer
  }

  /** buildBody: the list items are appended one summary at a time. */
  method BuildBody(userName: string, ss: seq<Summary>, lookerUrl: Option<string>, startLabel: string,
                   endLabel: string) returns (body: string)
    ensures body == Body(userName, ss, lookerUrl, startLabel, endLabel)
  {
    var rangeLabel := startLabel + " a " + endLabel;
    var itemsHtml := "";
    for i := 0 to |ss|
      invariant itemsHtml == ItemsHtml(ss[..i])
    {
      assert ss[..i + 1][..i] == ss[..i];
      itemsHtml := itemsHtml + ItemHtml(ss[i]);
    }
    assert ss[..|ss|] == ss;
    var lookerHtml := "";
    if !EmptyText(lookerUrl) {
      var safeUrl := HtmlEscape(lookerUrl.value);
      lookerHtml := "<p>Dashboard interactivo: <a href=\"" + safeUrl + "\">" + safeUrl + "</a></p>";
    }
    assert lookerHtml == LookerHtml(lookerUrl);
    body := Greeting(userName) + Intro(rangeLabel) + "<ul>" + itemsHtml + "</ul>" + lookerHtml + Footer;
  }

  /** Every summary has its own list item in the body, in order. */
  lemma {:induction false} ItemsHtmlHasEach(ss: seq<Summary>)
    ensures forall k :: 0 <= k < |ss| ==> IsInfix(ItemHtml(ss[k]), ItemsHtml(ss))
  {
    if |ss| > 0 {
      var init := ss[..|ss| - 1];
      ItemsHtmlHasEach(init);
      var pre := ItemsHtml(init);
      var last := ItemHtml(ss[|ss| - 1]);
      forall k | 0 <= k < |ss|
        ensures IsInfix(ItemHtml(ss[k]), ItemsHtml(ss))
      {
        if k < |ss| - 1 {
          assert init[k] == ss[k];
          InfixLeft(ItemHtml(ss[k]), pre, last);
        } else {
          InfixSelf(last);
          InfixRight(last, pre, last);
        }
      }
    }
  }

  lemma InfixLeft(x: string, p: string, q: string)
    requires IsInfix(x, p)
    ensures IsInfix(x, p + q)
  {
    var i :| 0 <= i <= |p| && OccursAt(x, p, i);
    assert (p + q)[i..i + |x|] == p[i..i + |x|];
    assert OccursAt(x, p + q, i);
  }

  lemma InfixRight(x: string, p: string, q: string)
    requires IsInfix(x, q)
    ensures IsInfix(x, p + q)
  {
    var i :| 0 <= i <= |q| && OccursAt(x, q, i);
    assert (p + q)[|p| + i..|p| + i + |x|] == q[i..i + |x|];
    assert OccursAt(x, p + q, |p| + i);
  }

  lemma InfixSelf(x: string)
    ensures IsInfix(x, x)
  {
    assert x[0..|x|] == x;
    assert OccursAt(x, x, 0);
  }

  /** The body begins with the greeting by the escaped name. */
  lemma BodyGreets(userName: string, ss: seq<Summary>, lookerUrl: Option<string>,
                   startLabel: string, endLabel: string)
    ensures StartsWith(Body(userName, ss, lookerUrl, startLabel, endLabel), Greeting(userName))
  {
    var g := Greeting(userName);
    var b := Body(userName, ss, lookerUrl, startLabel, endLabel);
    assert b == g + (b[|g|..]);
  }

  /** Every summary's list item is in the body. */
  lemma BodyListsEverySummary(userName: string, ss: seq<Summary>, lookerUrl: Option<string>,
                              startLabel: string, endLabel: string)
    ensures forall k :: 0 <= k < |ss| ==> IsInfix(ItemHtml(ss[k]), Body(userName, ss, lookerUrl, startLabel, endLabel))
  {
    ItemsHtmlHasEach(ss);
    var a := Greeting(userName) + Intro(startLabel + " a " + endLabel) + "<ul>";
    var items := ItemsHtml(ss);
    forall k | 0 <= k < |ss|
      ensures IsInfix(ItemHtml(ss[k]), Body(userName, ss, lookerUrl, startLabel, endLabel))
    {
      var x := ItemHtml(ss[k]);
      InfixRight(x, a, items);
      InfixLeft(x, a + items, "</ul>");
      InfixLeft(x, a + items + "</ul>", LookerHtml(lookerUrl));
      InfixLeft(x, a + items + "</ul>" + LookerHtml(lookerUrl), Footer);
    }
  }

  /** The dashboard link is in the body exactly when a URL is set (escaped). */
  lemma BodyShowsLooker(userName: string, ss: seq<Summary>, lookerUrl: Option<string>,
                        startLabel: string, endLabel: string)
    ensures EmptyText(lookerUrl) ==> LookerHtml(lookerUrl) == ""
    ensures !EmptyText(lookerUrl) ==>
      IsInfix(HtmlEscape(lookerUrl.value), Body(userName, ss, lookerUrl, startLabel, endLabel))
  {
    if !EmptyText(lookerUrl) {
      var safe := HtmlEscape(lookerUrl.value);
      var pre := "<p>Dashboard interactivo: <a href=\"";
      InfixSelf(safe);
      InfixRight(safe, pre, safe);
      InfixLeft(safe, pre + safe, "\">");
      InfixLeft(safe, pre + safe + "\">", safe);
      InfixLeft(safe, pre + safe + "\">" + safe, "</a></p>");
      var a := Greeting(userName) + Intro(startLabel + " a " + endLabel) + "<ul>" + ItemsHtml(ss) + "</ul>";
      InfixRight(safe, a, LookerHtml(lookerUrl));
      InfixLeft(safe, a + LookerHtml(lookerUrl), Footer);
    }
  }

  /** The summary name: the QR's name unless empty, else 'QR #<id>'. */
  function QrName(qr: QrCodes.QrCode, qrId: int): string
  {
    if EmptyText(qr.name) then "QR #" + IntToDecimal(qrId) else qr.name.value
  }

  /** The attachment name 'qrcode_<id>_scans_<start Ymd>_<end Ymd>.csv'. */
  function Filename(qrId: int, startCompact: string, endCompact: string): string
  {
    "qrcode_" + IntToDecimal(qrId) + "_scans_" + startCompact + "_" + endCompact + ".csv"
  }

  /** The summary name is never empty: a QR without a name is called 'QR #' and its id, and
      that id reads back from the name. */
  lemma QrNameOf(qr: QrCodes.QrCode, qrId: int)
    ensures |QrName(qr, qrId)| > 0
    ensures !EmptyText(qr.name) ==> QrName(qr, qrId) == qr.name.value
    ensures EmptyText(qr.name) ==>
      var r := QrName(qr, qrId);
      |r| > 4 && r[..4] == "QR #" && StringToInt(r[4..]) == qrId
  {
    if EmptyText(qr.name) {
      var r := QrName(qr, qrId);
      assert r[4..] == IntToDecimal(qrId) + "";
      IntToDecimalPrefix(qrId, "");
    }
  }

  /** The attachment name starts 'qrcode_', ends '.csv', and the QR code's id reads back from
      the text after 'qrcode_'. */
  lemma FilenameNamesQr(qrId: int, startCompact: string, endCompact: string)
    ensures var f := Filename(qrId, startCompact, endCompact);
      && |f| > 11 && f[..7] == "qrcode_" && f[|f| - 4..] == ".csv"
      && StringToInt(f[7..]) == qrId
  {
    var f := Filename(qrId, startCompact, endCompact);
    var n := IntToDecimal(qrId);
    var rest := "_scans_" + startCompact + "_" + endCompact + ".csv";
    var head := "qrcode_" + n + "_scans_" + startCompact + "_" + endCompact;
    assert f == "qrcode_" + (n + rest);
    assert f == head + ".csv";
    assert f[..7] == "qrcode_" && f[7..] == n + rest;
    assert f[|f| - 4..] == ".csv";
    assert rest[0] == '_';
    IntToDecimalPrefix(qrId, rest);
  }

  // ---------------------------------------------------------------------------------------
  // The run

  /** What the run needs from outside: the scan repository's range queries (count and rows,
      UTC bounds), the formatters ('Y-m-d H:i:s' for CSV times, 'Y-m-d' and 'Ymd' for local
      dates) and whether the mailer throws for a mail. */
  datatype Env = Env(
    countInRange: (int, int, int) -> nat,
    scansInRange: (int, int, int, nat) -> seq<Csv.Item>,
    formatDateTime: int -> string,
    formatDate: int -> string,
    formatCompact: int -> string,
    sendFails: Mail -> bool)

  /** One run's fixed data: the period (local seconds), the local offset, the owners map the
      QR repository joins and the current UTC time. */
  datatype Ctx = Ctx(env: Env, range: ReportSchedule.Range, offset: int,
                     owners: map<int, QrCodes.Owner>, nowUtc: int)

  function StartUtc(ctx: Ctx): int { ctx.range.start - ctx.offset }
  function EndUtc(ctx: Ctx): int { ctx.range.end - ctx.offset }

  /** The attachment and the summary of one subscription; none when the QR is gone. */
  function QrReport(sub: QrSubscriptions.QrSubscription, qrs: seq<QrCodes.QrRow>, scans: seq<Scans.Scan>,
                    ctx: Ctx): Option<(Attachment, Summary)>
  {
    var qrId := sub.qrCodeId;
    match QrCodes.QrOfId(qrs, qrId, ctx.owners, ctx.nowUtc)
    case None => None
    case Some(qr) =>
      var csv := Csv.CsvDocument(ctx.env.scansInRange(qrId, StartUtc(ctx), EndUtc(ctx), ScanLimit),
                                 ctx.env.formatDateTime);
      var fname := Filename(qrId, ctx.env.formatCompact(ctx.range.start), ctx.env.formatCompact(ctx.range.end));
      Some((Attachment(fname, csv, "text/csv"),
            Summary(qrId, QrName(qr, qrId), Scans.CountOf(scans, qrId), ctx.env.countInRange(qrId, StartUtc(ctx), EndUtc(ctx)))))
  }

  /** The attachments and summaries of one user's subscriptions, in subscription order. */
  function Collect(subs: seq<QrSubscriptions.QrSubscription>, qrs: seq<QrCodes.QrRow>, scans: seq<Scans.Scan>,
                   ctx: Ctx): (r: (seq<Attachment>, seq<Summary>))
    ensures |r.0| == |r.1| <= |subs|
  {
    if |subs| == 0 then ([], [])
    else
      var init := Collect(subs[..|subs| - 1], qrs, scans, ctx);
      match QrReport(subs[|subs| - 1], qrs, scans, ctx)
      case None => init
      case Some(p) => (init.0 + [p.0], init.1 + [p.1])
  }

  /** A subscription has a report exactly when its QR code exists; the summary then carries
      the QR's id, its name (or 'QR #<id>' when empty), its total and its count in the period,
      and the attachment is the CSV export of its scans in the period. */
  lemma QrReportFields(sub: QrSubscriptions.QrSubscription, qrs: seq<QrCodes.QrRow>, scans: seq<Scans.Scan>,
                       ctx: Ctx)
    ensures QrReport(sub, qrs, scans, ctx).Some? <==> QrCodes.QrOfId(qrs, sub.qrCodeId, ctx.owners, ctx.nowUtc).Some?
    ensures QrReport(sub, qrs, scans, ctx).Some? ==>
      var p := QrReport(sub, qrs, scans, ctx).value;
      var q := sub.qrCodeId;
      && p.1.id == q
      && p.1.name == QrName(QrCodes.QrOfId(qrs, q, ctx.owners, ctx.nowUtc).value, q)
      && p.1.total == Scans.CountOf(scans, q)
      && p.1.period == ctx.env.countInRange(q, StartUtc(ctx), EndUtc(ctx))
      && p.0.mime == "text/csv"
      && p.0.content == Csv.CsvDocument(ctx.env.scansInRange(q, StartUtc(ctx), EndUtc(ctx), ScanLimit), ctx.env.formatDateTime)
  {
  }

  /** The pair is the report of one of the subscriptions. */
  predicate ReportOfSome(subs: seq<QrSubscriptions.QrSubscription>, a: Attachment, sm: Summary,
                         qrs: seq<QrCodes.QrRow>, scans: seq<Scans.Scan>, ctx: Ctx)
  {
    exists i :: 0 <= i < |subs| && QrReport(subs[i], qrs, scans, ctx) == Some((a, sm))
  }

  /** Each attachment and summary pair is the report of one of the subscriptions. */
  lemma {:induction false} CollectFromSubs(subs: seq<QrSubscriptions.QrSubscription>, qrs: seq<QrCodes.QrRow>,
                                           scans: seq<Scans.Scan>, ctx: Ctx)
    ensures forall k :: 0 <= k < |Collect(subs, qrs, scans, ctx).1| ==>
      ReportOfSome(subs, Collect(subs, qrs, scans, ctx).0[k], Collect(subs, qrs, scans, ctx).1[k], qrs, scans, ctx)
  {
    if |subs| > 0 {
      var init := subs[..|subs| - 1];
      CollectFromSubs(init, qrs, scans, ctx);
      var r0 := Collect(init, qrs, scans, ctx);
      var r := Collect(subs, qrs, scans, ctx);
      var last := subs[|subs| - 1];
      var p := QrReport(last, qrs, scans, ctx);
      if p.None? {
        assert r == r0;
      } else {
        assert r == (r0.0 + [p.value.0], r0.1 + [p.value.1]);
      }
      forall k | 0 <= k < |r.1|
        ensures ReportOfSome(subs, r.0[k], r.1[k], qrs, scans, ctx)
      {
        if k < |r0.1| {
          assert r.0[k] == r0.0[k] && r.1[k] == r0.1[k];
          assert ReportOfSome(init, r0.0[k], r0.1[k], qrs, scans, ctx);
          var i :| 0 <= i < |init| && QrReport(init[i], qrs, scans, ctx) == Some((r0.0[k], r0.1[k]));
          assert subs[i] == init[i];
        } else {
          assert p == Some((r.0[k], r.1[k]));
          assert QrReport(subs[|subs| - 1], qrs, scans, ctx) == Some((r.0[k], r.1[k]));
        }
      }
    }
  }

  /** A subscription whose QR code exists contributes exactly one attachment and summary. */
  lemma {:induction false} CollectCount(subs: seq<QrSubscriptions.QrSubscription>, qrs: seq<QrCodes.QrRow>,
                                        scans: seq<Scans.Scan>, ctx: Ctx)
    ensures |Collect(subs, qrs, scans, ctx).1| == 0 <==>
      forall i :: 0 <= i < |subs| ==> QrCodes.QrOfId(qrs, subs[i].qrCodeId, ctx.owners, ctx.nowUtc).None?
  {
    if |subs| > 0 {
      var init := subs[..|subs| - 1];
      CollectCount(init, qrs, scans, ctx);
      assert forall i :: 0 <= i < |init| ==> init[i] == subs[i];
    }
  }

  /** What the subscriptions before position i contribute is the start of what all of them
      contribute. */
  lemma {:induction false} CollectPrefix(subs: seq<QrSubscriptions.QrSubscription>, qrs: seq<QrCodes.QrRow>,
                                         scans: seq<Scans.Scan>, ctx: Ctx, i: nat)
    requires i <= |subs|
    ensures Collect(subs[..i], qrs, scans, ctx).0 <= Collect(subs, qrs, scans, ctx).0
    ensures Collect(subs[..i], qrs, scans, ctx).1 <= Collect(subs, qrs, scans, ctx).1
  {
    if i == |subs| {
      assert subs[..i] == subs;
    } else {
      var init := subs[..|subs| - 1];
      CollectPrefix(init, qrs, scans, ctx, i);
      assert init[..i] == subs[..i];
      CollectStep(subs, qrs, scans, ctx);
    }
  }

  /** Dropping the last subscription keeps the start of what is collected. */
  lemma CollectStep(subs: seq<QrSubscriptions.QrSubscription>, qrs: seq<QrCodes.QrRow>,
                    scans: seq<Scans.Scan>, ctx: Ctx)
    requires |subs| > 0
    ensures Collect(subs[..|subs| - 1], qrs, scans, ctx).0 <= Collect(subs, qrs, scans, ctx).0
    ensures Collect(subs[..|subs| - 1], qrs, scans, ctx).1 <= Collect(subs, qrs, scans, ctx).1
  {
  }

  /** The report of subscription i sits right after the reports of the subscriptions before it. */
  lemma CollectAt(subs: seq<QrSubscriptions.QrSubscription>, qrs: seq<QrCodes.QrRow>,
                  scans: seq<Scans.Scan>, ctx: Ctx, i: nat)
    requires i < |subs| && QrReport(subs[i], qrs, scans, ctx).Some?
    ensures var r := Collect(subs, qrs, scans, ctx);
      var k := |Collect(subs[..i], qrs, scans, ctx).1|;
      k < |r.1| && (r.0[k], r.1[k]) == QrReport(subs[i], qrs, scans, ctx).value
  {
    var pre := subs[..i + 1];
    assert pre[..|pre| - 1] == subs[..i];
    assert pre[|pre| - 1] == subs[i];
    var before := Collect(subs[..i], qrs, scans, ctx);
    var p := QrReport(subs[i], qrs, scans, ctx).value;
    assert Collect(pre, qrs, scans, ctx) == (before.0 + [p.0], before.1 + [p.1]);
    CollectPrefix(subs, qrs, scans, ctx, i + 1);
  }

  /** A subscription with a report puts it before the reports of every later subscription. */
  lemma CollectBefore(subs: seq<QrSubscriptions.QrSubscription>, qrs: seq<QrCodes.QrRow>,
                      scans: seq<Scans.Scan>, ctx: Ctx, i: nat, j: nat)
    requires i < j <= |subs| && QrReport(subs[i], qrs, scans, ctx).Some?
    ensures |Collect(subs[..i], qrs, scans, ctx).1| < |Collect(subs[..j], qrs, scans, ctx).1|
  {
    var pre := subs[..j];
    assert pre[i] == subs[i];
    assert pre[..i] == subs[..i];
    CollectAt(pre, qrs, scans, ctx, i);
  }

  /** Every subscription whose QR code exists contributes its report, at the position that
      counts the reports of the subscriptions before it; so the reports follow the order of
      the subscriptions. */
  lemma CollectHasEach(subs: seq<QrSubscriptions.QrSubscription>, qrs: seq<QrCodes.QrRow>,
                       scans: seq<Scans.Scan>, ctx: Ctx)
    ensures forall i :: 0 <= i < |subs| && QrReport(subs[i], qrs, scans, ctx).Some? ==>
      var r := Collect(subs, qrs, scans, ctx);
      var k := |Collect(subs[..i], qrs, scans, ctx).1|;
      && k < |r.1| && (r.0[k], r.1[k]) == QrReport(subs[i], qrs, scans, ctx).value
    ensures forall i, j :: 0 <= i < j < |subs| && QrReport(subs[i], qrs, scans, ctx).Some? ==>
      |Collect(subs[..i], qrs, scans, ctx).1| < |Collect(subs[..j], qrs, scans, ctx).1|
  {
    forall i | 0 <= i < |subs| && QrReport(subs[i], qrs, scans, ctx).Some?
      ensures var r := Collect(subs, qrs, scans, ctx);
        var k := |Collect(subs[..i], qrs, scans, ctx).1|;
        k < |r.1| && (r.0[k], r.1[k]) == QrReport(subs[i], qrs, scans, ctx).value
    {
      CollectAt(subs, qrs, scans, ctx, i);
    }
    forall i, j | 0 <= i < j < |subs| && QrReport(subs[i], qrs, scans, ctx).Some?
      ensures |Collect(subs[..i], qrs, scans, ctx).1| < |Collect(subs[..j], qrs, scans, ctx).1|
    {
      CollectBefore(subs, qrs, scans, ctx, i, j);
    }
  }

  /** The inner loop over one user's subscriptions. */
  method CollectReports(subs: seq<QrSubscriptions.QrSubscription>, qrs: seq<QrCodes.QrRow>,
                        scans: seq<Scans.Scan>, ctx: Ctx)
    returns (attachments: seq<Attachment>, summaries: seq<Summary>)
    ensures (attachments, summaries) == Collect(subs, qrs, scans, ctx)
  {
    attachments := [];
    summaries := [];
    for i := 0 to |subs|
      invariant (attachments, summaries) == Collect(subs[..i], qrs, scans, ctx)
    {
      assert subs[..i + 1][..i] == subs[..i];
      var qrId := subs[i].qrCodeId;
      var qr := QrCodes.QrOfId(qrs, qrId, ctx.owners, ctx.nowUtc);
      if qr.Some? {
        var periodCount := ctx.env.countInRange(qrId, StartUtc(ctx), EndUtc(ctx));
        var totalCount := Scans.CountOf(scans, qrId);
        var qrName := QrName(qr.value, qrId);
        var found := ctx.env.scansInRange(qrId, StartUtc(ctx), EndUtc(ctx), ScanLimit);
        var csv := Csv.BuildCsv(found, ctx.env.formatDateTime);
        var filename := Filename(qrId, ctx.env.formatCompact(ctx.range.start), ctx.env.formatCompact(ctx.range.end));
        attachments := attachments + [Attachment(filename, csv, "text/csv")];
        summaries := summaries + [Summary(qrId, qrName, totalCount, periodCount)];
      }
    }
    assert subs[..|subs|] == subs;
  }

  // ---------------------------------------------------------------------------------------
  // Grouping by subscriber

  datatype Group = Group(userId: int, subs: seq<QrSubscriptions.QrSubscription>)

  function IndexOfUser(gs: seq<Group>, user: int): (k: nat)
    ensures k <= |gs|
    ensures forall i :: 0 <= i < k ==> gs[i].userId != user
    ensures k < |gs| ==> gs[k].userId == user
  {
    if |gs| == 0 then 0
    else if gs[0].userId == user then 0
    else 1 + IndexOfUser(gs[1..], user)
  }

  /** `$subsByUser[$userId][] = $subscription`: append to the user's group, or open a new group
      at the end. */
  function AddToGroups(gs: seq<Group>, s: QrSubscriptions.QrSubscription): seq<Group>
  {
    var k := IndexOfUser(gs, s.userId);
    if k < |gs| then gs[k := Group(s.userId, gs[k].subs + [s])]
    else gs + [Group(s.userId, [s])]
  }

  function GroupByUser(subs: seq<QrSubscriptions.QrSubscription>): seq<Group>
  {
    if |subs| == 0 then [] else AddToGroups(GroupByUser(subs[..|subs| - 1]), subs[|subs| - 1])
  }

  /** The reference definition of a group: the subscriptions of that user, in order. */
  function SubsOfUser(subs: seq<QrSubscriptions.QrSubscription>, user: int): (r: seq<QrSubscriptions.QrSubscription>)
    ensures |r| <= |subs|
  {
    if |subs| == 0 then []
    else
      var init := SubsOfUser(subs[..|subs| - 1], user);
      if subs[|subs| - 1].userId == user then init + [subs[|subs| - 1]] else init
  }

  predicate DistinctUsers(gs: seq<Group>) {
    forall i, j :: 0 <= i < j < |gs| ==> gs[i].userId != gs[j].userId
  }

  /** Grouping gives one group per subscribed user, holding exactly that user's subscriptions
      in order, and no group for anyone else. */
  lemma {:induction false} GroupByUserProperties(subs: seq<QrSubscriptions.QrSubscription>)
    ensures var gs := GroupByUser(subs);
      && DistinctUsers(gs)
      && (forall k :: 0 <= k < |gs| ==> gs[k].subs == SubsOfUser(subs, gs[k].userId))
      && (forall k :: 0 <= k < |gs| ==> |gs[k].subs| > 0)
      && (forall i :: 0 <= i < |subs| ==> IndexOfUser(gs, subs[i].userId) < |gs|)
      && |gs| <= |subs|
  {
    if |subs| > 0 {
      var init := subs[..|subs| - 1];
      var s := subs[|subs| - 1];
      GroupByUserProperties(init);
      var g0 := GroupByUser(init);
      assert GroupByUser(subs) == AddToGroups(g0, s);
      assert subs == init + [s];
      var k := IndexOfUser(g0, s.userId);
      assert k == |g0| ==> SubsOfUser(init, s.userId) == [] by {
        if k == |g0| {
          NoGroupNoSubs(init, s.userId);
        }
      }
      AddKeepsDistinct(g0, s);
      AddKeepsSubs(g0, init, s);
      AddKeepsCover(g0, init, s);
    }
  }

  /** Adding keeps the users of the groups distinct and every group non-empty. */
  lemma AddKeepsDistinct(g0: seq<Group>, s: QrSubscriptions.QrSubscription)
    requires DistinctUsers(g0)
    requires forall k :: 0 <= k < |g0| ==> |g0[k].subs| > 0
    ensures var gs := AddToGroups(g0, s);
      && DistinctUsers(gs)
      && (forall k :: 0 <= k < |gs| ==> |gs[k].subs| > 0)
      && |gs| <= |g0| + 1
  {
  }

  /** Adding keeps every group equal to its user's subscriptions. */
  lemma AddKeepsSubs(g0: seq<Group>, init: seq<QrSubscriptions.QrSubscription>, s: QrSubscriptions.QrSubscription)
    requires DistinctUsers(g0)
    requires forall k :: 0 <= k < |g0| ==> g0[k].subs == SubsOfUser(init, g0[k].userId)
    requires IndexOfUser(g0, s.userId) == |g0| ==> SubsOfUser(init, s.userId) == []
    ensures var gs := AddToGroups(g0, s);
      forall j :: 0 <= j < |gs| ==> gs[j].subs == SubsOfUser(init + [s], gs[j].userId)
  {
    var gs := AddToGroups(g0, s);
    var k := IndexOfUser(g0, s.userId);
    forall j | 0 <= j < |gs|
      ensures gs[j].subs == SubsOfUser(init + [s], gs[j].userId)
    {
      if k < j < |g0| {
        assert g0[k].userId != g0[j].userId;
      }
      GroupSubsStep(g0, init, s, j);
    }
  }

  /** Adding keeps a group for every subscriber and gives one to the new subscription's user. */
  lemma AddKeepsCover(g0: seq<Group>, init: seq<QrSubscriptions.QrSubscription>, s: QrSubscriptions.QrSubscription)
    requires forall i :: 0 <= i < |init| ==> IndexOfUser(g0, init[i].userId) < |g0|
    ensures var gs := AddToGroups(g0, s);
      forall i :: 0 <= i < |init + [s]| ==> IndexOfUser(gs, (init + [s])[i].userId) < |gs|
  {
    var subs := init + [s];
    var gs := AddToGroups(g0, s);
    forall i | 0 <= i < |subs|
      ensures IndexOfUser(gs, subs[i].userId) < |gs|
    {
      if i < |init| {
        assert subs[i] == init[i];
        GroupKept(g0, s, IndexOfUser(g0, init[i].userId));
      } else {
        GroupKept(g0, s, IndexOfUser(g0, s.userId));
      }
    }
  }

  /** The subscriptions of a user after one more subscription. */
  lemma SubsOfUserSnoc(init: seq<QrSubscriptions.QrSubscription>, s: QrSubscriptions.QrSubscription, user: int)
    ensures SubsOfUser(init + [s], user) == SubsOfUser(init, user) + (if s.userId == user then [s] else [])
  {
    assert (init + [s])[..|init|] == init;
  }

  /** One group after adding `s` to a grouping `g0` of `init`. */
  lemma GroupSubsStep(g0: seq<Group>, init: seq<QrSubscriptions.QrSubscription>, s: QrSubscriptions.QrSubscription, j: nat)
    requires forall k :: 0 <= k < |g0| ==> g0[k].subs == SubsOfUser(init, g0[k].userId)
    requires IndexOfUser(g0, s.userId) == |g0| ==> SubsOfUser(init, s.userId) == []
    requires j < |g0| && IndexOfUser(g0, s.userId) < j ==> g0[j].userId != s.userId
    requires j < |AddToGroups(g0, s)|
    ensures var gs := AddToGroups(g0, s);
      gs[j].subs == SubsOfUser(init + [s], gs[j].userId)
  {
    var gs := AddToGroups(g0, s);
    var k := IndexOfUser(g0, s.userId);
    if j < |g0| && j != k {
      var g := g0[j];
      assert gs[j] == g;
      assert g.subs == SubsOfUser(init, g.userId);
      assert g.userId != s.userId;
      SubsOfUserSnoc(init, s, g.userId);
    } else if j < |g0| {
      var g := g0[k];
      assert gs[j] == Group(s.userId, g.subs + [s]);
      assert g.subs == SubsOfUser(init, s.userId);
      SubsOfUserSnoc(init, s, s.userId);
    } else {
      assert k == |g0|;
      assert gs[j] == Group(s.userId, [s]);
      SubsOfUserSnoc(init, s, s.userId);
    }
  }

  /** Adding keeps every group's user at its place and the new user found. */
  lemma GroupKept(g0: seq<Group>, s: QrSubscriptions.QrSubscription, j: nat)
    requires j <= |g0| && (j < |g0| || j == IndexOfUser(g0, s.userId))
    ensures var gs := AddToGroups(g0, s);
      j < |gs| && IndexOfUser(gs, if j < |g0| then g0[j].userId else s.userId) < |gs|
  {
    var gs := AddToGroups(g0, s);
    var u := if j < |g0| then g0[j].userId else s.userId;
    assert gs[j].userId == u;
  }

  /** A user with no group in a grouping of subscriptions has no subscriptions there. */
  lemma {:induction false} NoGroupNoSubs(subs: seq<QrSubscriptions.QrSubscription>, user: int)
    requires forall i :: 0 <= i < |subs| ==> IndexOfUser(GroupByUser(subs), subs[i].userId) < |GroupByUser(subs)|
    requires IndexOfUser(GroupByUser(subs), user) == |GroupByUser(subs)|
    ensures SubsOfUser(subs, user) == []
  {
    if |subs| > 0 {
      var last := subs[|subs| - 1];
      if last.userId == user {
        assert false;
      }
      var init := subs[..|subs| - 1];
      GroupByUserProperties(init);
      var g0 := GroupByUser(init);
      assert IndexOfUser(g0, user) == |g0| by {
        if IndexOfUser(g0, user) < |g0| {
          GroupKept(g0, last, IndexOfUser(g0, user));
        }
      }
      NoGroupNoSubs(init, user);
    }
  }

  /** The grouping loop. */
  method GroupSubscriptions(subs: seq<QrSubscriptions.QrSubscription>) returns (groups: seq<Group>)
    ensures groups == GroupByUser(subs)
  {
    groups := [];
    for i := 0 to |subs|
      invariant groups == GroupByUser(subs[..i])
    {
      assert subs[..i + 1][..i] == subs[..i];
      var s := subs[i];
      var k := IndexOfUser(groups, s.userId);
      if k < |groups| {
        groups := groups[k := Group(s.userId, groups[k].subs + [s])];
      } else {
        groups := groups + [Group(s.userId, [s])];
      }
    }
    assert subs[..|subs|] == subs;
  }

  // ---------------------------------------------------------------------------------------
  // The deliveries

  /** A mail handed to the mailer for a user, and whether the mailer took it. */
  datatype Delivery = Delivery(userId: int, mail: Mail, delivered: bool)

  function Subject(s: ReportSettings, ctx: Ctx): string
  {
    ReportSchedule.BuildSubject(s.scheduleType, ctx.env.formatDate(ctx.range.start), ctx.env.formatDate(ctx.range.end))
  }

  /** One user's delivery: none when the user is missing or none of their QR codes exists. */
  function DeliveryOf(g: Group, users: seq<Users.UserRow>, qrs: seq<QrCodes.QrRow>, scans: seq<Scans.Scan>,
                      s: ReportSettings, ctx: Ctx): Option<Delivery>
  {
    match Users.UserOfId(users, g.userId, ctx.nowUtc)
    case None => None
    case Some(user) =>
      var r := Collect(g.subs, qrs, scans, ctx);
      if |r.1| == 0 then None
      else
        var mail := Mail(user.email, Subject(s, ctx),
                         Body(user.name, r.1, s.lookerUrl, ctx.env.formatDate(ctx.range.start),
                              ctx.env.formatDate(ctx.range.end)), r.0);
        Some(Delivery(g.userId, mail, !ctx.env.sendFails(mail)))
  }

  /** What the per-user loop does for each group, in group order. */
  function Attempts(gs: seq<Group>, users: seq<Users.UserRow>, qrs: seq<QrCodes.QrRow>, scans: seq<Scans.Scan>,
                    s: ReportSettings, ctx: Ctx): (r: seq<Option<Delivery>>)
    ensures |r| == |gs|
  {
    if |gs| == 0 then [] else [DeliveryOf(gs[0], users, qrs, scans, s, ctx)] + Attempts(gs[1..], users, qrs, scans, s, ctx)
  }

  lemma {:induction false} AttemptsAt(gs: seq<Group>, users: seq<Users.UserRow>, qrs: seq<QrCodes.QrRow>,
                                      scans: seq<Scans.Scan>, s: ReportSettings, ctx: Ctx, k: nat)
    requires k < |gs|
    ensures Attempts(gs, users, qrs, scans, s, ctx)[k] == DeliveryOf(gs[k], users, qrs, scans, s, ctx)
  {
    if k > 0 {
      AttemptsAt(gs[1..], users, qrs, scans, s, ctx, k - 1);
    }
  }

  /** The mails actually handed to the mailer. */
  function Present(opts: seq<Option<Delivery>>): (r: seq<Delivery>)
    ensures |r| <= |opts|
  {
    if |opts| == 0 then []
    else
      var init := Present(opts[..|opts| - 1]);
      if opts[|opts| - 1].Some? then init + [opts[|opts| - 1].value] else init
  }

  function Outbox(gs: seq<Group>, users: seq<Users.UserRow>, qrs: seq<QrCodes.QrRow>, scans: seq<Scans.Scan>,
                  s: ReportSettings, ctx: Ctx): seq<Delivery>
  {
    Present(Attempts(gs, users, qrs, scans, s, ctx))
  }

  function SentCount(ds: seq<Delivery>): (n: nat)
    ensures n <= |ds|
  {
    if |ds| == 0 then 0 else SentCount(ds[..|ds| - 1]) + (if ds[|ds| - 1].delivered then 1 else 0)
  }

  /** When the mailer takes every mail, the count is the number of mails. */
  lemma {:induction false} AllSent(ds: seq<Delivery>)
    requires forall k :: 0 <= k < |ds| ==> ds[k].delivered
    ensures SentCount(ds) == |ds|
  {
    if |ds| > 0 {
      AllSent(ds[..|ds| - 1]);
    }
  }

  /** A delivery as the run makes it: to an existing user's address, with the run's subject
      and at least one attachment. */
  predicate ProperDelivery(d: Delivery, users: seq<Users.UserRow>, s: ReportSettings, ctx: Ctx)
  {
    && Users.UserOfId(users, d.userId, ctx.nowUtc).Some?
    && d.mail.to == Users.UserOfId(users, d.userId, ctx.nowUtc).value.email
    && |d.mail.attachments| >= 1
    && d.mail.subject == Subject(s, ctx)
  }

  /** A user's delivery is proper and addressed to that user; there is one exactly when the
      user exists and one of their subscribed QR codes does. */
  lemma DeliveryOfProper(g: Group, users: seq<Users.UserRow>, qrs: seq<QrCodes.QrRow>, scans: seq<Scans.Scan>,
                         s: ReportSettings, ctx: Ctx)
    ensures var d := DeliveryOf(g, users, qrs, scans, s, ctx);
      && (d.Some? <==> Users.UserOfId(users, g.userId, ctx.nowUtc).Some?
                       && exists i :: 0 <= i < |g.subs| && QrCodes.QrOfId(qrs, g.subs[i].qrCodeId, ctx.owners, ctx.nowUtc).Some?)
      && (d.Some? ==> d.value.userId == g.userId && ProperDelivery(d.value, users, s, ctx))
  {
    CollectCount(g.subs, qrs, scans, ctx);
  }

  predicate DistinctDeliveries(ds: seq<Delivery>) {
    forall k, l :: 0 <= k < l < |ds| ==> ds[k].userId != ds[l].userId
  }

  /** Each present delivery comes from one of the attempts. */
  lemma {:induction false} PresentFrom(opts: seq<Option<Delivery>>)
    ensures forall d :: d in Present(opts) ==> Some(d) in opts
  {
    if |opts| > 0 {
      var init := opts[..|opts| - 1];
      PresentFrom(init);
      assert forall x :: x in init ==> x in opts;
    }
  }

  /** Each attempt that produced a delivery is present. */
  lemma {:induction false} PresentHas(opts: seq<Option<Delivery>>, k: nat)
    requires k < |opts| && opts[k].Some?
    ensures opts[k].value in Present(opts)
  {
    var init := opts[..|opts| - 1];
    if k < |opts| - 1 {
      assert init[k] == opts[k];
      PresentHas(init, k);
    }
  }

  /** Attempts made for groups of distinct users give deliveries to distinct users. */
  lemma {:induction false} PresentDistinct(opts: seq<Option<Delivery>>, gs: seq<Group>)
    requires |opts| == |gs| && DistinctUsers(gs)
    requires forall k :: 0 <= k < |opts| && opts[k].Some? ==> opts[k].value.userId == gs[k].userId
    ensures DistinctDeliveries(Present(opts))
    ensures forall d :: d in Present(opts) ==> IndexOfUser(gs, d.userId) < |gs|
  {
    if |opts| > 0 {
      var init := opts[..|opts| - 1];
      var ginit := gs[..|gs| - 1];
      assert DistinctUsers(ginit);
      PresentDistinct(init, ginit);
      PresentFrom(init);
      var p0 := Present(init);
      var last := gs[|gs| - 1];
      forall x | x in p0
        ensures x.userId != last.userId && IndexOfUser(gs, x.userId) < |gs|
      {
        var k :| 0 <= k < |init| && init[k] == Some(x);
        assert gs[k] == ginit[k];
        assert IndexOfUser(gs, x.userId) <= k;
      }
      if opts[|opts| - 1].Some? {
        var d := opts[|opts| - 1].value;
        assert Present(opts) == p0 + [d];
        assert IndexOfUser(gs, d.userId) <= |gs| - 1;
        forall k, l | 0 <= k < l < |Present(opts)|
          ensures Present(opts)[k].userId != Present(opts)[l].userId
        {
          if l == |p0| {
            assert Present(opts)[k] in p0;
          }
        }
      }
    }
  }

  /** The body of the per-user loop: load the user, collect the reports, build and send the
      mail. */
  method ReportFor(g: Group, users: seq<Users.UserRow>, qrs: seq<QrCodes.QrRow>, scans: seq<Scans.Scan>,
                   s: ReportSettings, ctx: Ctx) returns (d: Option<Delivery>)
    ensures d == DeliveryOf(g, users, qrs, scans, s, ctx)
  {
    var user := Users.UserOfId(users, g.userId, ctx.nowUtc);
    if user.None? {
      return None;
    }
    var attachments, summaries := CollectReports(g.subs, qrs, scans, ctx);
    if |summaries| == 0 {
      return None;
    }
    var subject := Subject(s, ctx);
    var body := BuildBody(user.value.name, summaries, s.lookerUrl, ctx.env.formatDate(ctx.range.start),
                          ctx.env.formatDate(ctx.range.end));
    var mail := Mail(user.value.email, subject, body, attachments);
    d := Some(Delivery(g.userId, mail, !ctx.env.sendFails(mail)));
  }

  /** The per-user loop; a mail counts when the mailer takes it. */
  method SendReports(gs: seq<Group>, users: seq<Users.UserRow>, qrs: seq<QrCodes.QrRow>, scans: seq<Scans.Scan>,
                     s: ReportSettings, ctx: Ctx) returns (sentCount: nat, outbox: seq<Delivery>)
    ensures outbox == Outbox(gs, users, qrs, scans, s, ctx)
    ensures sentCount == SentCount(outbox)
  {
    ghost var opts := Attempts(gs, users, qrs, scans, s, ctx);
    sentCount := 0;
    outbox := [];
    for i := 0 to |gs|
      invariant outbox == Present(opts[..i])
      invariant sentCount == SentCount(outbox)
    {
      var d := ReportFor(gs[i], users, qrs, scans, s, ctx);
      AttemptsAt(gs, users, qrs, scans, s, ctx, i);
      PresentSnoc(opts, i);
      if d.Some? {
        SentCountSnoc(outbox, d.value);
        outbox := outbox + [d.value];
        if d.value.delivered {
          sentCount := sentCount + 1;
        }
      }
    }
    assert opts[..|gs|] == opts;
  }

  /** One more attempt adds its delivery, if any, at the end. */
  lemma PresentSnoc(opts: seq<Option<Delivery>>, i: nat)
    requires i < |opts|
    ensures Present(opts[..i + 1]) == Present(opts[..i]) + (if opts[i].Some? then [opts[i].value] else [])
  {
    assert opts[..i + 1][..i] == opts[..i];
  }

  /** One more delivery adds one to the count when the mailer took it. */
  lemma SentCountSnoc(ds: seq<Delivery>, d: Delivery)
    ensures SentCount(ds + [d]) == SentCount(ds) + (if d.delivered then 1 else 0)
  {
    assert (ds + [d])[..|ds|] == ds;
  }

  /** runDueReports. Returns the number of mails the mailer took and every mail handed to it.
      Unless the active settings are due nothing is sent and nothing changes; when due, the
      mails are those of the per-user loop over the subscribers and the settings' last run
      becomes now. */
  method RunDueReports(settings: ReportSettingsRepository.ReportSettingsTable,
                       subscriptions: QrSubscriptions.SubscriptionTable, users: Users.UserTable,
                       qrs: QrCodes.QrCodeTable, scans: Scans.ScanTable, owners: map<int, QrCodes.Owner>,
                       env: Env, now: ReportSchedule.LocalNow, prevMonthDays: int)
    returns (sentCount: nat, outbox: seq<Delivery>)
    requires settings.Valid() && ReportSchedule.ValidNow(now)
    modifies settings
    ensures settings.Valid()
    ensures var d := ReportSchedule.Decide(old(settings.GetActive()), now, prevMonthDays);
      && (!d.Due? ==> sentCount == 0 && outbox == [] && settings.rows == old(settings.rows))
      && (d.Due? ==>
            var s := old(settings.GetActive()).value;
            var ctx := Ctx(env, d.range, now.offset, owners, now.utc);
            && outbox == Outbox(GroupByUser(QrSubscriptions.MapRows(subscriptions.rows, now.utc)),
                                users.rows, qrs.rows, scans.rows, s, ctx)
            && sentCount == SentCount(outbox)
            && settings.rows == ReportSettingsRepository.UpdateLastRun(old(settings.rows), s.id.GetOr(0), now.utc))
  {
    var active := settings.GetActive();
    var d := ReportSchedule.Decide(active, now, prevMonthDays);
    if !d.Due? {
      return 0, [];
    }
    var s := active.value;
    var ctx := Ctx(env, d.range, now.offset, owners, now.utc);
    var subs := subscriptions.ListAll(now.utc);
    if |subs| == 0 {
      settings.UpdateLastRunAt(s.id.GetOr(0), now.utc);
      return 0, [];
    }
    var groups := GroupSubscriptions(subs);
    sentCount, outbox := SendReports(groups, users.rows, qrs.rows, scans.rows, s, ctx);
    settings.UpdateLastRunAt(s.id.GetOr(0), now.utc);
  }

  /** Over the subscriptions: every mail is proper and goes to a distinct subscriber, so no
      more mails are taken than there are subscribed users; and every subscriber who exists
      and has a subscribed QR code that exists gets one. */
  lemma OutboxProperties(subs: seq<QrSubscriptions.QrSubscription>, users: seq<Users.UserRow>,
                         qrs: seq<QrCodes.QrRow>, scans: seq<Scans.Scan>, s: ReportSettings, ctx: Ctx)
    ensures var gs := GroupByUser(subs);
      var ds := Outbox(gs, users, qrs, scans, s, ctx);
      && SentCount(ds) <= |ds| <= |gs|
      && DistinctDeliveries(ds)
      && (forall d :: d in ds ==> ProperDelivery(d, users, s, ctx))
      && (forall d :: d in ds ==> exists i :: 0 <= i < |subs| && subs[i].userId == d.userId)
  {
    var gs := GroupByUser(subs);
    var opts := Attempts(gs, users, qrs, scans, s, ctx);
    GroupByUserProperties(subs);
    forall k | 0 <= k < |opts| && opts[k].Some?
      ensures opts[k].value.userId == gs[k].userId && ProperDelivery(opts[k].value, users, s, ctx)
    {
      AttemptsAt(gs, users, qrs, scans, s, ctx, k);
      DeliveryOfProper(gs[k], users, qrs, scans, s, ctx);
    }
    PresentDistinct(opts, gs);
    PresentFrom(opts);
    var ds := Present(opts);
    forall d | d in ds
      ensures ProperDelivery(d, users, s, ctx)
      ensures exists i :: 0 <= i < |subs| && subs[i].userId == d.userId
    {
      var k :| 0 <= k < |opts| && opts[k] == Some(d);
      SubsOfUserMembers(subs, d.userId);
      assert gs[k].subs[0] in SubsOfUser(subs, gs[k].userId);
    }
  }

  /** Each subscription is in its user's group. */
  lemma InItsGroup(subs: seq<QrSubscriptions.QrSubscription>, i: nat)
    requires i < |subs|
    ensures IndexOfUser(GroupByUser(subs), subs[i].userId) < |GroupByUser(subs)|
    ensures subs[i] in GroupByUser(subs)[IndexOfUser(GroupByUser(subs), subs[i].userId)].subs
  {
    GroupByUserProperties(subs);
    SubsOfUserHas(subs, i);
  }

  /** A subscriber who exists, with a subscribed QR code that exists, gets a mail. */
  lemma OutboxCovers(subs: seq<QrSubscriptions.QrSubscription>, users: seq<Users.UserRow>,
                     qrs: seq<QrCodes.QrRow>, scans: seq<Scans.Scan>, s: ReportSettings, ctx: Ctx, i: nat)
    requires i < |subs|
    requires Users.UserOfId(users, subs[i].userId, ctx.nowUtc).Some?
    requires QrCodes.QrOfId(qrs, subs[i].qrCodeId, ctx.owners, ctx.nowUtc).Some?
    ensures exists d :: d in Outbox(GroupByUser(subs), users, qrs, scans, s, ctx) && d.userId == subs[i].userId
  {
    var gs := GroupByUser(subs);
    InItsGroup(subs, i);
    var k := IndexOfUser(gs, subs[i].userId);
    assert gs[k].userId == subs[i].userId;
    GroupGetsDelivery(gs[k], subs[i], users, qrs, scans, s, ctx);
    var d := DeliveryOf(gs[k], users, qrs, scans, s, ctx);
    DeliveryInOutbox(gs, users, qrs, scans, s, ctx, k);
    assert d.value in Outbox(gs, users, qrs, scans, s, ctx) && d.value.userId == subs[i].userId;
  }

  /** A group whose user exists and that holds a subscription to an existing QR code gets a mail. */
  lemma GroupGetsDelivery(g: Group, sub: QrSubscriptions.QrSubscription, users: seq<Users.UserRow>,
                          qrs: seq<QrCodes.QrRow>, scans: seq<Scans.Scan>, s: ReportSettings, ctx: Ctx)
    requires sub in g.subs
    requires Users.UserOfId(users, g.userId, ctx.nowUtc).Some?
    requires QrCodes.QrOfId(qrs, sub.qrCodeId, ctx.owners, ctx.nowUtc).Some?
    ensures DeliveryOf(g, users, qrs, scans, s, ctx).Some?
    ensures DeliveryOf(g, users, qrs, scans, s, ctx).value.userId == g.userId
  {
    var j :| 0 <= j < |g.subs| && g.subs[j] == sub;
    DeliveryOfProper(g, users, qrs, scans, s, ctx);
  }

  /** The mail of the k-th group, when there is one, is in the outbox. */
  lemma DeliveryInOutbox(gs: seq<Group>, users: seq<Users.UserRow>, qrs: seq<QrCodes.QrRow>,
                         scans: seq<Scans.Scan>, s: ReportSettings, ctx: Ctx, k: nat)
    requires k < |gs|
    requires DeliveryOf(gs[k], users, qrs, scans, s, ctx).Some?
    ensures DeliveryOf(gs[k], users, qrs, scans, s, ctx).value in Outbox(gs, users, qrs, scans, s, ctx)
  {
    AttemptsAt(gs, users, qrs, scans, s, ctx, k);
    PresentHas(Attempts(gs, users, qrs, scans, s, ctx), k);
  }

  lemma {:induction false} SubsOfUserMembers(subs: seq<QrSubscriptions.QrSubscription>, user: int)
    ensures forall x :: x in SubsOfUser(subs, user) ==> x.userId == user && x in subs
  {
    if |subs| > 0 {
      SubsOfUserMembers(subs[..|subs| - 1], user);
      assert forall x :: x in subs[..|subs| - 1] ==> x in subs;
    }
  }

  lemma {:induction false} SubsOfUserHas(subs: seq<QrSubscriptions.QrSubscription>, i: nat)
    requires i < |subs|
    ensures subs[i] in SubsOfUser(subs, subs[i].userId)
  {
    var init := subs[..|subs| - 1];
    if i < |subs| - 1 {
      assert init[i] == subs[i];
      SubsOfUserHas(init, i);
    }
  }
}
