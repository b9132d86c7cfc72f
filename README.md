# QR-code service: a Dafny model

This project models the core of a QR-code service. The backend is a PHP (Slim) JSON API and the frontend a React app.

- **QR codes.** A signed-in user creates a QR code for a target URL. The service stores it with a fresh 32-hex-digit token and renders PNG and SVG images of the redirect URL `<base>/r/<token>` under the public `tmp/qrcodes` folder.
- **Editing and listing.** The owner or an admin edits the target, name or colours, and the images are redrawn. Users list their own QR codes a page at a time; admins list everyone's.
- **Redirects.** The public redirect endpoint records a scan (client address by header priority, user agent, geo-located city and country) and answers 302 to the target.
- **Subscriptions and reports.** Users subscribe to a QR code's periodic report. A scheduled run mails a summary and a CSV of the period's scans to each subscriber whose user row exists and who subscribes to at least one existing QR code, weekly or monthly, once per period, as the report settings say.
- **CSV export and auth.** A CSV export of a QR code's scans can also be written on demand. Bearer-token and admin-role middlewares guard the endpoints.
- **Frontend.** A page edits the report settings, and a helper picks a badge colour per user id.

The model keeps the source's own shapes:

- **Tables are classes.** Each database table is a class whose `rows` field is a sequence in ascending id order, with an auto-increment counter. Its repository methods have `modifies` clauses and state the new rows exactly.
- **Loops are methods.** Every loop of the source (grouping subscriptions, building the CSV and the mail body, walking up to the public directory, descending a dotted settings key, reconciling subscriptions, trying client-address headers) is a method with a `while`/`for` loop. Each is proved equal to a specification function whose properties are lemmas.
- **The rest is functions.** Pure decisions (validation, merges, schedule arithmetic, URL and path building, colour parsing) are functions with named results.
- **Outside effects are parameters.** The clock, random bytes, JWT signing and decoding, image rendering, the GeoIP lookup, `filter_var`, the mailer and the time-zone calendar are parameters of the operations that use them.

Modules follow the source files:

- `Colors`, `Urls`, `PublicDirectory`, `Files`, `QrCreator` and `QrActions` cover creating, editing and listing.
- `QrCodes`, `Scans`, `QrSubscriptions`, `ReportSettingsRepository` and `Users` are the repositories.
- `Redirect` is the redirect endpoint.
- `QrSubscriptionActions` holds the subscription endpoints.
- `ReportSchedule` and `ReportNotification` make up the report run.
- `ReportSettingsAction` and `ReportSettingsDomain` hold the settings record and its validation.
- `Csv` and `StatsCsvAction` produce the CSV export.
- `AppSettings` is the settings lookup.
- `Auth` holds the middlewares and the token service.
- `Frontend` covers `colorForId.ts` and `ReportSettingsPage.tsx`.
- `QrAsWritten` holds the QR record and the create and edit endpoints as the code has them. The code calls accessors the domain QrCode class lacks, so those endpoints fail. The rest of the model uses the record the code evidently means (see "## Findings").
- `Php` and `Strings` model the PHP runtime pieces the code leans on: loose values and casts, `trim`, `explode`, `implode`, `strtolower`, decimal and hex text.

## Model

| member | source | states |
|---|---|---|
| `Colors.ParseHexColor` | backend/src/Application/Services/QrCode/QrColorParser.php:11-25 | every leading '#' is dropped; a 3-character text doubles each digit, any other text reads characters [0,2), [2,4), [4,6) with hexdec, so every channel lies in 0..255 |
| `Colors.ParseHexText` | backend/src/Application/Services/QrCode/QrColorParser.php:13-21 | round trip: parsing the '#rrggbb' text of any colour gives that colour back |
| `Colors.LeadingHashes` | backend/src/Application/Services/QrCode/QrColorParser.php:13 | any number of leading '#' parses like none (ltrim removes all of them) |
| `Colors.ShortForm` | backend/src/Application/Services/QrCode/QrColorParser.php:14-17 | the short form 'xyz' gives channels 17·x, 17·y, 17·z, i.e. each digit doubled |
| `Colors.MissingDigitsReadZero` | backend/src/Application/Services/QrCode/QrColorParser.php:18-21 | a two-digit text gives that red value and green = blue = 0, since substr past the end is '' and hexdec('') is 0 |
| `Colors.Defaults` | backend/src/Application/Services/QrCode/QrCodeCreator.php:44-45 | the creator's default colours '#000000' and '#ffffff' parse to black and white |
| `Urls.BaseUrl` | backend/src/Application/Services/UrlBuilder.php:9-14 | an unset or falsy URL_BASE gives ''; otherwise the result is URL_BASE with exactly its trailing '/' removed, so it never ends with '/' |
| `Urls.RedirectIsBaseTokenPlusToken` | backend/src/Application/Services/UrlBuilder.php:16-29 | buildRedirectUrl(token) is getUrlBaseToken() followed by the token |
| `Urls.SingleSlashJoin` | backend/src/Application/Services/UrlBuilder.php:16-20 | the redirect URL is the base, then '/r/', then the token, and the base contributes no '/' at the joint |
| `Urls.TrailingSlashesIgnored` | backend/src/Application/Services/UrlBuilder.php:11-12 | for a truthy URL_BASE, adding any number of trailing '/' changes nothing |
| `Files.FileSystem.Write` | backend/src/Infrastructure/Persistence/LocalFileStorage.php:41 | file_put_contents: the path holds the new contents; no other file and no directory changes |
| `Files.FileSystem.MakeDirs` | backend/src/Infrastructure/Persistence/LocalFileStorage.php:38-40 | mkdir(…, true): the directory exists afterwards; the files are unchanged |
| `Files.FileSystem.Unlink` | backend/src/Application/Actions/QrCode/EditQrCodeAction.php:118-119 | unlink: the file is gone, whether or not it existed; nothing else changes |
| `Files.DirName` | backend/src/Infrastructure/Persistence/LocalFileStorage.php:37 | dirname: '' exactly for the empty path; otherwise '/', '.', or a proper prefix of the path that stops just before a '/' and does not itself end in '/' (trailing '/'s of the path and of the result are dropped) |
| `Files.DirNameOfChild` | backend/src/Infrastructure/Persistence/LocalFileStorage.php:36-37 | the dirname of dir, one or more '/', a name without '/' and any trailing '/'s is dir, for a non-empty dir not ending in '/' |
| `PublicDirectory.BackendRootNearest` | backend/src/Application/Services/PublicDirectoryResolver.php:12-20 | the walk finds the nearest ancestor (the directory itself included) named 'backend', and finds none exactly when no segment of the path is 'backend' |
| `PublicDirectory.PublicDirEndsWithPublic` | backend/src/Application/Services/PublicDirectoryResolver.php:22-26 | the resolved public directory always ends with '/public' |
| `PublicDirectory.Ancestor` | backend/src/Application/Services/PublicDirectoryResolver.php:23 | dirname($p, 5): the path five levels up, stopping at the root |
| `PublicDirectory.GetPublicDir` | backend/src/Application/Services/PublicDirectoryResolver.php:9-27 | the loop returns the backend root + '/public' when there is one, else five levels up + '/public' (equal to the recursive definition) |
| `PublicDirectory.LocalFileStorage.constructor` | backend/src/Infrastructure/Persistence/LocalFileStorage.php:13-31 | the storage's public directory is the one the same walk resolves |
| `PublicDirectory.LocalFileStorage.Save` | backend/src/Infrastructure/Persistence/LocalFileStorage.php:33-42 | the file at publicDir/ltrim(path,'/') holds the contents, its directory exists, and no other file changes |
| `PublicDirectory.FullPathLeadingSlash` | backend/src/Infrastructure/Persistence/LocalFileStorage.php:35-36 | a leading '/' on the relative path makes no difference, and every saved file lies below publicDir + '/' |
| `QrCreator.RequiredTarget` | backend/src/Application/Services/QrCode/QrCodeCreator.php:38-41 | creation is refused exactly when target_url is missing, null or empty(); otherwise the target is its text |
| `QrCreator.ColorText` | backend/src/Application/Services/QrCode/QrCodeCreator.php:44-45 | a colour not set in the request takes its default; a set one is its text |
| `QrCreator.CreateFromData` | backend/src/Application/Services/QrCode/QrCodeCreator.php:36-101 | without a target nothing is stored or written and the error is 'target_url is required'; otherwise one record (next id, 32-hex-digit token, owner, target, name) is appended, the image directory exists, exactly the two image files are written, and the links are the two image URLs and the redirect URL |
| `QrCreator.WriteImages` | backend/src/Application/Services/QrCode/QrCodeCreator.php:55-60 | the images' directory exists afterwards and is the only directory added; the files `<token>.png` and `<token>.svg` in it hold the two rendered images, and no other file changes |
| `QrCreator.TokenShape` | backend/src/Application/Services/QrCode/QrCodeCreator.php:47 | bin2hex of 16 bytes is 32 lower-case hex digits |
| `QrCreator.DefaultColours` | backend/src/Application/Services/QrCode/QrCodeCreator.php:44-63 | without colours in the request the images are black on white |
| `QrCreator.LinksServeFiles` | backend/src/Application/Services/QrCode/QrCodeCreator.php:52-98 | the png and svg links, saved or served below the public directory, are exactly the files written; the redirect link is the token URL base plus the token |
| `QrCreator.LinkBelowPublicDir` | backend/src/Application/Services/QrCode/QrCodeCreator.php:54-96 | a '/tmp/qrcodes/…' link resolves to the file of that name in the image directory |
| `QrActions.CreateAction` | backend/src/Application/Actions/QrCode/CreateQrCodeAction.php:21-49 | 400 'target_url is required' before the token is read and 401 'unauthenticated' for a token without a subject, each changing no row, counter or file; otherwise the reply is exactly the created record (next id, owner's name and e-mail) with its two links, the row is appended, the counter moves on, and the two images are written in the public tmp/qrcodes folder, which is added |
| `QrActions.Field` | backend/src/Application/Actions/QrCode/EditQrCodeAction.php:41-44 | a field is provided exactly when it is isset, and then it is its trimmed text |
| `QrActions.Merge` | backend/src/Application/Actions/QrCode/EditQrCodeAction.php:69-87 | provided fields replace the stored values, absent ones keep them; id, token, owner, creation time and owner data are kept |
| `QrActions.EditAction` | backend/src/Application/Actions/QrCode/EditQrCodeAction.php:36-141 | 400 'No fields to update', then 404 'QR not found', then 403 'forbidden', each changing nothing; otherwise the merged record is stored unless the update fails, the old images are unlinked, and either 500 'failed to regenerate images' or both new images are saved and the record and links are returned |
| `QrActions.ApplyUpdate` | backend/src/Application/Actions/QrCode/EditQrCodeAction.php:88-93 | the table holds the merged record unless the update fails; the record carried on is the one read back, or the loaded one after a failure |
| `QrActions.UnlinkImages` | backend/src/Application/Actions/QrCode/EditQrCodeAction.php:115-119 | both old image files are gone and nothing else changes |
| `QrActions.Redraw` | backend/src/Application/Actions/QrCode/EditQrCodeAction.php:96-140 | the images are redrawn from the redirect URL in the provided colours (or black on white); a failed generation is a 500 after the unlinks; otherwise both files are saved and the reply is the record with its links |
| `QrActions.EditedRecordIsMerge` | backend/src/Application/Actions/QrCode/EditQrCodeAction.php:69-89 | after a successful update, reading the record back gives exactly the merged record |
| `QrActions.PageOf` | backend/src/Application/Actions/QrCode/ListQrCodesAction.php:38-41 | the page is `(int)` of the parameter when set and at least 1, else 1; never below 1 |
| `QrActions.PerPageOf` | backend/src/Application/Actions/QrCode/ListQrCodesAction.php:46-49 | per_page is `(int)` of the setting, or of PER_PAGE when the setting is null, and 20 when that is below 1; always at least 1 |
| `QrActions.TotalPagesIsCeiling` | backend/src/Application/Actions/QrCode/ListQrCodesAction.php:72 | total_pages pages hold every record, one page fewer does not, and it is 0 exactly when there are no records |
| `QrActions.PagesAreNonEmptyUpToTotal` | backend/src/Application/Actions/QrCode/ListQrCodesAction.php:52-72 | a page is non-empty exactly when its number is at most total_pages |
| `QrActions.BelowCeiling` | backend/src/Application/Actions/QrCode/ListQrCodesAction.php:72 | k full pages leave records over exactly when k is below total_pages |
| `QrActions.ListAction` | backend/src/Application/Actions/QrCode/ListQrCodesAction.php:11-78 | a token without a subject gets an empty answer; otherwise one page of the admin's (all) or the user's (own) QR codes, newest first, with page, per_page, total, total_pages and the token URL prefix |
| `Redirect.FirstQualifiedNone` | backend/src/Application/Actions/QrCode/RedirectQrCodeAction.php:72-84 | no address is found exactly when no candidate parameter is non-empty with a valid cleaned address |
| `Redirect.FirstQualifiedIndex` | backend/src/Application/Actions/QrCode/RedirectQrCodeAction.php:72-84 | a found address comes from a qualifying candidate, and no earlier candidate qualifies |
| `Redirect.GetClientIp` | backend/src/Application/Actions/QrCode/RedirectQrCodeAction.php:60-85 | the candidates are tried in their priority order and the first valid address wins |
| `Redirect.FirstValidCandidate` | backend/src/Application/Actions/QrCode/RedirectQrCodeAction.php:72-84 | the foreach with its early return gives the first qualifying address |
| `Redirect.ForwardedAddressHasNoComma` | backend/src/Application/Actions/QrCode/RedirectQrCodeAction.php:75-78 | from X-Forwarded-For only the first comma-separated entry is used |
| `Redirect.GeoOf` | backend/src/Application/Actions/QrCode/RedirectQrCodeAction.php:42-50 | no lookup without a truthy address (city and country null); for a truthy one, city and country are the answer's entries exactly when it has those keys, and null otherwise |
| `Redirect.ScanOf` | backend/src/Application/Actions/QrCode/RedirectQrCodeAction.php:51 | the recorded scan has no id, the QR's id (0 for a record without one), now, the address and user agent, and the city and country as given, null staying null |
| `Redirect.RedirectAction` | backend/src/Application/Actions/QrCode/RedirectQrCodeAction.php:28-58 | an unknown token is a 404 'QR Code not found' and records nothing; a city or country that is neither a string nor null fails the request (the Scan constructor's TypeError, not caught) and records nothing; otherwise the answer is a redirect to the target, and the scan is appended unless the insert fails, which does not change the answer |
| `AppSettings.Settings.constructor` | backend/src/Application/Settings/Settings.php:11-14 | the settings array is kept as given |
| `AppSettings.Settings.Get` | backend/src/Application/Settings/Settings.php:19-37 | an empty() key gives the whole array; otherwise the key is split on '.' and each part must be an existing key of an array, else the result is null |
| `AppSettings.DescendAppend` | backend/src/Application/Settings/Settings.php:26-34 | following a path p + q is following p, then q from where p led |
| `AppSettings.DescendNull` | backend/src/Application/Settings/Settings.php:30-31 | once a lookup has failed (null), every further part fails too |
| `AppSettings.NestedKey` | backend/src/Application/Settings/Settings.php:25-34 | dot notation: get('a.b') is the entry b of get('a'), e.g. 'mail.from' |
| `AppSettings.ListIndexKey` | backend/src/Application/Settings/Settings.php:30-33 | a list item is reached by its decimal index as a part of the key |
| `Auth.Authenticate` | backend/src/Application/Middleware/JwtAuthMiddleware.php:26-43 | the request passes exactly when the header is truthy, starts with 'Bearer ' in any case, and the token after it decodes; it then carries the decoded token; otherwise 'Missing or invalid Authorization header' or 'Invalid or expired token' |
| `Auth.TokenAfterPrefix` | backend/src/Application/Middleware/JwtAuthMiddleware.php:29-33 | a header of any-case 'Bearer ' and a token is accepted by the prefix test, and the token passed on is that token, trimmed |
| `Auth.AdminGate` | backend/src/Application/Middleware/AdminRoleMiddleware.php:20-41 | the request passes exactly when the token's rol is exactly the string 'admin'; a falsy or non-array non-object token is refused with 'Access denied' |
| `Auth.AdminGateAgreesWithAuthContext` | backend/src/Application/Middleware/AdminRoleMiddleware.php:29-36 | for a token with a subject, the admin middleware passes exactly when the subscription actions' auth context says admin |
| `Auth.ClaimsProperties` | backend/src/Infrastructure/Security/JwtService.php:22-30 | the signed claims are the payload with 'iat' = now and 'exp' = now + expiryDays·86400 added (overriding payload entries of those names), exp after iat for a positive lifetime, every other entry kept |
| `Auth.JwtService.constructor` | backend/src/Infrastructure/Security/JwtService.php:15-20 | the secret is jwt.secret or 'change_this_secret', the lifetime `(int)` jwt.expiry_days or 15 |
| `Auth.JwtService.Generate` | backend/src/Infrastructure/Security/JwtService.php:22-30 | the token is the HS256 encoding of the claims with the service's secret |
| `Frontend.ColorForId` | frontend/src/lib/colorForId.ts:6-25 | a missing id gets the secondary pair; any id gets the palette entry at abs(id) mod 5, always one of the five |
| `Frontend.ColorForIdPeriodic` | frontend/src/lib/colorForId.ts:23-24 | ids five apart get the same colours, and so do id and -id |
| `Frontend.NormalizeTime` | frontend/src/pages/ReportSettingsPage.tsx:84-88 | '' becomes '08:00:00', a five-character 'HH:MM' gets ':00', anything else is sent unchanged |
| `Frontend.First5` | frontend/src/pages/ReportSettingsPage.tsx:92 | slice(0, 5): the first five characters, or the whole text when shorter |
| `Frontend.DayField` | frontend/src/pages/ReportSettingsPage.tsx:95-96 | a missing or zero day shows as '1'; any other day as its decimal text |
| `Frontend.BuildFormState` | frontend/src/pages/ReportSettingsPage.tsx:90-102 | no setting gives the empty form; a setting gives its first five time characters (or '08:00') and its day fields |
| `Frontend.PayloadOf` | frontend/src/pages/ReportSettingsPage.tsx:157-165 | only the schedule's own day is sent, as Number of its text, the other is null; the time is normalised; an empty looker URL is null |
| `Frontend.TimeRoundTrip` | frontend/src/pages/ReportSettingsPage.tsx:84-97 | a stored 'HH:MM:SS' time comes back from the form unchanged exactly when its seconds are ':00' |
| `Frontend.DayRoundTrip` | frontend/src/pages/ReportSettingsPage.tsx:95-159 | a positive stored day of month reaches the submitted payload unchanged |
| `Frontend.NumberOfDigit` | frontend/src/pages/ReportSettingsPage.tsx:159-160 | Number of a single digit is its value |
| `Frontend.EmptyFormPayload` | frontend/src/pages/ReportSettingsPage.tsx:50-58 | the empty form submits a monthly schedule on day 1 at 08:00:00 UTC, inactive, with no looker URL |
| `QrCodes.Offset` | backend/src/Infrastructure/Persistence/QrCode/PdoQrCodeRepository.php:35 | the offset is (page − 1)·perPage, and 0 when that is negative |
| `QrCodes.OffsetOfPage` | backend/src/Infrastructure/Persistence/QrCode/PdoQrCodeRepository.php:35 | for page, perPage ≥ 1 the next page starts exactly perPage records later |
| `QrCodes.BuildWhere` | backend/src/Infrastructure/Persistence/QrCode/PdoQrCodeRepository.php:37-60 | the WHERE text is empty exactly without owner and without a non-empty query; otherwise it joins the owner condition and the five-column search with AND; one owner parameter and five '%q%' parameters, in that order |
| `QrCodes.NewestFirstExactly` | backend/src/Infrastructure/Persistence/QrCode/PdoQrCodeRepository.php:69-72 | a row is listed exactly when it is in the table and satisfies the WHERE condition |
| `QrCodes.NewestFirstDescending` | backend/src/Infrastructure/Persistence/QrCode/PdoQrCodeRepository.php:71 | ORDER BY q.id DESC: the listed rows come in strictly descending id order |
| `QrCodes.Page` | backend/src/Infrastructure/Persistence/QrCode/PdoQrCodeRepository.php:72 | LIMIT n OFFSET o: at most n rows, the rows from position o on, in order, none when o is past the end, n of them when enough remain |
| `QrCodes.MapQr` | backend/src/Infrastructure/Persistence/QrCode/PdoQrCodeRepository.php:88-107 | the intended mapping (see Findings): a fetched row becomes a record with the row's columns, its colours, its stored creation time (now when it is empty), and null owner name and e-mail when the left join finds no user |
| `QrCodes.MapQrKeepsColumns` | backend/src/Infrastructure/Persistence/QrCode/PdoQrCodeRepository.php:88-107 | the corrected half of the row-mapping finding: the example rows keep their stored creation time and foreground |
| `QrAsWritten.EntityOfRow` | backend/src/Infrastructure/Persistence/QrCode/PdoQrCodeRepository.php:95-106 | the row mapping as written against the six-parameter QrCode constructor (backend/src/Domain/QrCode/QrCode.php:23-30): a TypeError exactly when the row has a foreground; otherwise id, token, owner, target and name, with creation time now whatever the row stores |
| `QrAsWritten.EntityOfRowDropsColumns` | backend/src/Infrastructure/Persistence/QrCode/PdoQrCodeRepository.php:95-106 | a row stored at time 100 reads back created now, and the same row with a foreground cannot be read |
| `QrAsWritten.CreateActionAsWritten` | backend/src/Infrastructure/Persistence/QrCode/PdoQrCodeRepository.php:246-254 | creation as written: the 400 and 401 refusals exactly as in the corrected action, and otherwise an uncaught Error before anything is stored or written |
| `QrAsWritten.CreateAsWrittenFails` | backend/src/Application/Actions/QrCode/CreateQrCodeAction.php:42-46 | an authenticated request with a target URL ends in the uncaught Error |
| `QrAsWritten.EditActionAsWritten` | backend/src/Application/Actions/QrCode/EditQrCodeAction.php:46-87 | the edit as written: 400 without fields; 404 for a missing row or one with a foreground; 403 at the gate; otherwise an uncaught Error before the update, with nothing changed |
| `QrAsWritten.EditAsWrittenFails` | backend/src/Application/Actions/QrCode/EditQrCodeAction.php:69-87 | the owner's edit of an uncoloured QR code fails, and a coloured one is "not found" although its row exists |
| `QrCodes.MapQrs` | backend/src/Infrastructure/Persistence/QrCode/PdoQrCodeRepository.php:88-107 | every fetched row gives one record, in the same order |
| `QrCodes.RowOfId` | backend/src/Infrastructure/Persistence/QrCode/PdoQrCodeRepository.php:182-188 | `WHERE q.id = :id`: a row is found exactly when one has that id, and it is a row of the table with that id |
| `QrCodes.RowOfToken` | backend/src/Infrastructure/Persistence/QrCode/PdoQrCodeRepository.php:214-220 | `WHERE q.token = :token`: a row is found exactly when one has that token |
| `QrCodes.UpdateRows` | backend/src/Infrastructure/Persistence/QrCode/PdoQrCodeRepository.php:288-295 | the rows with the record's id get its target URL, name and colours; every other row and column is unchanged; a record without an id changes nothing |
| `QrCodes.SelectNewestFirst` | backend/src/Infrastructure/Persistence/QrCode/PdoQrCodeRepository.php:69-86 | the statement's result is the matching rows, newest first |
| `QrCodes.MapFetched` | backend/src/Infrastructure/Persistence/QrCode/PdoQrCodeRepository.php:88-107 | the foreach builds exactly the mapped records of the fetched rows |
| `QrCodes.QrCodeTable.constructor` | backend/src/Infrastructure/Persistence/QrCode/PdoQrCodeRepository.php:18-22 | an empty table whose first id is 1 |
| `QrCodes.QrCodeTable.List` | backend/src/Infrastructure/Persistence/QrCode/PdoQrCodeRepository.php:33-110 | total is the number of matching rows; items are the requested page of the matching rows, newest first, as records |
| `QrCodes.QrCodeTable.FindOfId` | backend/src/Infrastructure/Persistence/QrCode/PdoQrCodeRepository.php:180-207 | not found (the source throws) exactly when no row has the id; otherwise the record of a row of the table with that id |
| `QrCodes.QrCodeTable.FindByToken` | backend/src/Infrastructure/Persistence/QrCode/PdoQrCodeRepository.php:212-239 | not found exactly when no row has the token; otherwise the record of a row with that token |
| `QrCodes.QrCodeTable.Create` | backend/src/Infrastructure/Persistence/QrCode/PdoQrCodeRepository.php:244-281 | one row is appended with the next id and the record's columns; the returned record has that id, creation time now and the owner's name and e-mail when the owner exists |
| `QrCodes.QrCodeTable.Update` | backend/src/Infrastructure/Persistence/QrCode/PdoQrCodeRepository.php:286-299 | the table becomes UpdateRows of the record; the result is findOfId of the record's id read afterwards |
| `QrCodes.ListProperties` | backend/src/Infrastructure/Persistence/QrCode/PdoQrCodeRepository.php:33-110 | a page holds at most perPage records, each the record of a matching row, in strictly descending id order, and all owned by the requested owner when one is given |
| `QrCodes.UpdateReadsBack` | backend/src/Infrastructure/Persistence/QrCode/PdoQrCodeRepository.php:286-299 | after an update of an existing row, reading it back gives the record's four editable fields and the stored id, token, owner and creation time |
| `QrSubscriptions.WhereExactly` | backend/src/Infrastructure/Persistence/QrSubscription/PdoQrSubscriptionRepository.php:48-66 | a row is selected exactly when it is in the table and satisfies the WHERE condition |
| `QrSubscriptions.WhereAscending` | backend/src/Infrastructure/Persistence/QrSubscription/PdoQrSubscriptionRepository.php:48-66 | ORDER BY id: the selection keeps the table's ascending id order |
| `QrSubscriptions.WhereAll` | backend/src/Infrastructure/Persistence/QrSubscription/PdoQrSubscriptionRepository.php:66 | listAll's statement, without WHERE, selects every row |
| `QrSubscriptions.MapRow` | backend/src/Infrastructure/Persistence/QrSubscription/PdoQrSubscriptionRepository.php:80-89 | the subscription has the row's id, QR id and user id; an empty created_at becomes now |
| `QrSubscriptions.MapRows` | backend/src/Infrastructure/Persistence/QrSubscription/PdoQrSubscriptionRepository.php:76-92 | one subscription per row, in the rows' order |
| `QrSubscriptions.DeleteUsers` | backend/src/Infrastructure/Persistence/QrSubscription/PdoQrSubscriptionRepository.php:37-44 | deleting the (qr, user) pair unsubscribes exactly that user from exactly that QR code; every other QR code keeps its subscribers |
| `QrSubscriptions.CreateUsers` | backend/src/Infrastructure/Persistence/QrSubscription/PdoQrSubscriptionRepository.php:24-35 | inserting a row subscribes its user to its QR code and changes no other QR code's subscribers |
| `QrSubscriptions.UserIdsOfQr` | backend/src/Application/Actions/QrSubscription/ListQrSubscriptionsAction.php:30-31 | the user ids of a QR code's subscription rows are exactly its subscribers |
| `QrSubscriptions.UserIds` | backend/src/Application/Actions/QrSubscription/ListQrSubscriptionsAction.php:31 | array_map of getUserId: one id per subscription, in order |
| `QrSubscriptions.UserIdsMembers` | backend/src/Application/Actions/QrSubscription/UpdateQrSubscriptionsAction.php:55 | an id is listed exactly when some subscription has it |
| `QrSubscriptions.SubscriptionTable.constructor` | backend/src/Infrastructure/Persistence/QrSubscription/PdoQrSubscriptionRepository.php:18-22 | an empty table whose first id is 1 |
| `QrSubscriptions.SubscriptionTable.Create` | backend/src/Infrastructure/Persistence/QrSubscription/PdoQrSubscriptionRepository.php:24-35 | one row (next id, qr, user, now) is appended and returned as a subscription |
| `QrSubscriptions.SubscriptionTable.Delete` | backend/src/Infrastructure/Persistence/QrSubscription/PdoQrSubscriptionRepository.php:37-44 | every row of the (qr, user) pair goes; the other rows stay, in order |
| `QrSubscriptions.SubscriptionTable.Select` | backend/src/Infrastructure/Persistence/QrSubscription/PdoQrSubscriptionRepository.php:76-92 | a SELECT … WHERE … ORDER BY id followed by mapRows' loop gives the mapped selected rows |
| `QrSubscriptions.SubscriptionTable.ListByQrCode` | backend/src/Infrastructure/Persistence/QrSubscription/PdoQrSubscriptionRepository.php:46-53 | the mapped rows of that QR code, in ascending id order |
| `QrSubscriptions.SubscriptionTable.ListByUser` | backend/src/Infrastructure/Persistence/QrSubscription/PdoQrSubscriptionRepository.php:55-62 | the mapped rows of that user, in ascending id order |
| `QrSubscriptions.SubscriptionTable.ListAll` | backend/src/Infrastructure/Persistence/QrSubscription/PdoQrSubscriptionRepository.php:64-70 | every row, mapped, in ascending id order |
| `QrSubscriptions.ListByQrCodeExactly` | backend/src/Infrastructure/Persistence/QrSubscription/PdoQrSubscriptionRepository.php:46-53 | listByQrCode returns exactly the subscriptions of that QR code, each of its rows once, in strictly ascending id order |
| `QrSubscriptions.ListByUserExactly` | backend/src/Infrastructure/Persistence/QrSubscription/PdoQrSubscriptionRepository.php:55-62 | listByUser returns exactly the subscriptions of that user, in strictly ascending id order |
| `QrSubscriptionActions.GetAuthContext` | backend/src/Application/Actions/QrSubscription/QrSubscriptionAction.php:30-44 | there is a user id exactly when the token is an object or array with sub set, and it is `(int)` sub; admin exactly when there is a user id and rol is exactly 'admin' |
| `QrSubscriptionActions.AuthContextStrict` | backend/src/Application/Actions/QrSubscription/QrSubscriptionAction.php:37-40 | a rol other than the string 'admin' (another spelling, a non-string) grants no admin rights; without sub there is no context at all |
| `QrSubscriptionActions.Gate` | backend/src/Application/Actions/QrSubscription/ListQrSubscriptionsAction.php:13-28 | in this order: 404 'QR not found' exactly for a missing QR code, 401 'unauthenticated' exactly for a token without subject, 403 'forbidden' for a non-admin who is not the owner; passes exactly for the admin or the owner |
| `QrSubscriptionActions.ListAction` | backend/src/Application/Actions/QrSubscription/ListQrSubscriptionsAction.php:11-34 | after the gate, the user id of each of the QR code's subscriptions, in ascending subscription id order; a refusal is the gate's |
| `QrSubscriptionActions.ListedIdsAreSubscribers` | backend/src/Application/Actions/QrSubscription/ListQrSubscriptionsAction.php:30-33 | the listed ids are exactly the QR code's subscribers, one per subscription row |
| `QrSubscriptionActions.ReadRequest` | backend/src/Application/Actions/QrSubscription/UpdateQrSubscriptionsAction.php:30-43 | 400 'subscriber_user_ids is required' exactly when the key is absent; null means the empty list; a non-array is 400 'subscriber_user_ids must be an array'; a list gives its items; a string-keyed array gives one item per key, and exactly its values |
| `QrSubscriptionActions.FirstCast` | backend/src/Application/Actions/QrSubscription/UpdateQrSubscriptionsAction.php:45-51 | the position of the first item that casts to x, or the number of items when none does |
| `QrSubscriptionActions.NormalizeIdsMembers` | backend/src/Application/Actions/QrSubscription/UpdateQrSubscriptionsAction.php:45-52 | the normalised ids are exactly the positive `(int)` casts of the items |
| `QrSubscriptionActions.NormalizeIdsDistinct` | backend/src/Application/Actions/QrSubscription/UpdateQrSubscriptionsAction.php:45-52 | no id is listed twice (the `$unique[$id] = true` keys) |
| `QrSubscriptionActions.NormalizeIdsFirstOccurrence` | backend/src/Application/Actions/QrSubscription/UpdateQrSubscriptionsAction.php:45-52 | the ids come in the order of their first occurrence among the items (array_keys keeps insertion order) |
| `QrSubscriptionActions.CollectIds` | backend/src/Application/Actions/QrSubscription/UpdateQrSubscriptionsAction.php:45-52 | the foreach over the items yields exactly the normalised ids |
| `QrSubscriptionActions.Diff` | backend/src/Application/Actions/QrSubscription/UpdateQrSubscriptionsAction.php:57-58 | array_values(array_diff(a, b)) is no longer than a |
| `QrSubscriptionActions.DiffMembers` | backend/src/Application/Actions/QrSubscription/UpdateQrSubscriptionsAction.php:57-58 | an id is in the difference exactly when it is in a and not in b |
| `QrSubscriptionActions.DiffDisjoint` | backend/src/Application/Actions/QrSubscription/UpdateQrSubscriptionsAction.php:57-58 | no id is both added and removed |
| `QrSubscriptionActions.AfterRemovalsUsers` | backend/src/Application/Actions/QrSubscription/UpdateQrSubscriptionsAction.php:60-70 | the removals unsubscribe exactly the users whose delete succeeds, and only from this QR code |
| `QrSubscriptionActions.AfterAddsUsers` | backend/src/Application/Actions/QrSubscription/UpdateQrSubscriptionsAction.php:72-82 | the additions subscribe exactly the users whose insert succeeds, and only to this QR code |
| `QrSubscriptionActions.RemoveSubscribers` | backend/src/Application/Actions/QrSubscription/UpdateQrSubscriptionsAction.php:60-70 | the table after the delete loop: each pair deleted in turn, a failing delete leaves the table as it was and the loop goes on |
| `QrSubscriptionActions.AddSubscribers` | backend/src/Application/Actions/QrSubscription/UpdateQrSubscriptionsAction.php:72-82 | the table after the insert loop: one new row per succeeding insert, ids advanced by the number of successes |
| `QrSubscriptionActions.ReconcileExact` | backend/src/Application/Actions/QrSubscription/UpdateQrSubscriptionsAction.php:54-82 | when every delete and insert succeeds, the QR code's subscribers afterwards are exactly the requested ids, and no other QR code's subscribers change |
| `QrSubscriptionActions.UpdateAction` | backend/src/Application/Actions/QrSubscription/UpdateQrSubscriptionsAction.php:11-85 | a gate refusal or a bad request changes nothing; otherwise the unrequested subscribers are removed, then the missing requested ones added, and the answer is the normalised ids |
| `Scans.CountOf` | backend/src/Infrastructure/Persistence/Scan/PdoScanRepository.php:95 | the number of rows of one QR code is at most the number of rows |
| `Scans.CountOfZero` | backend/src/Infrastructure/Persistence/Scan/PdoScanRepository.php:93-100 | the count is 0 exactly when no row belongs to the QR code |
| `Scans.LatestProperties` | backend/src/Infrastructure/Persistence/Scan/PdoScanRepository.php:40-61 | WHERE qrcode_id ORDER BY id DESC LIMIT: min(count, limit) rows, all of that QR code, each with an id, in strictly descending id order, and every row of that QR code left out is older than every row returned |
| `Scans.AddDayShape` | backend/src/Infrastructure/Persistence/Scan/PdoScanRepository.php:65 | adding a scan to the day groups keeps the days ascending and every count positive |
| `Scans.AddDayCount` | backend/src/Infrastructure/Persistence/Scan/PdoScanRepository.php:65 | adding a scan on day d raises d's count by one and no other day's |
| `Scans.DailyCountsProperties` | backend/src/Infrastructure/Persistence/Scan/PdoScanRepository.php:63-76 | GROUP BY DATE ORDER BY day ASC: distinct days in ascending order, each within the window, with a positive count equal to that day's number of scans |
| `Scans.DayOfWindow` | backend/src/Infrastructure/Persistence/Scan/PdoScanRepository.php:65 | a scan at or after the cut-off instant falls on or after the cut-off day |
| `Scans.Take` | backend/src/Infrastructure/Persistence/Scan/PdoScanRepository.php:80 | LIMIT n: a prefix of at most n groups, exactly n when there are that many |
| `Scans.AddCountryProperties` | backend/src/Infrastructure/Persistence/Scan/PdoScanRepository.php:80 | adding a scan to the country groups keeps every count positive and raises the total by one |
| `Scans.GroupByCountryProperties` | backend/src/Infrastructure/Persistence/Scan/PdoScanRepository.php:80 | GROUP BY country: one group per distinct country of the QR code's scans (a null country is a group of its own), each counting exactly that country's scans; the counts are positive and add up to the QR code's number of scans |
| `Scans.CountriesOfMembers` | backend/src/Infrastructure/Persistence/Scan/PdoScanRepository.php:80 | a country is among the QR code's countries exactly when one of its scans comes from it |
| `Scans.InsertByCountDescending` | backend/src/Infrastructure/Persistence/Scan/PdoScanRepository.php:80 | inserting a group into a list sorted by descending count keeps it sorted |
| `Scans.InsertByCountPermutes` | backend/src/Infrastructure/Persistence/Scan/PdoScanRepository.php:80 | the insertion adds exactly that group and loses none |
| `Scans.InsertByCountSum` | backend/src/Infrastructure/Persistence/Scan/PdoScanRepository.php:80 | the insertion raises the total count by the group's count |
| `Scans.SortProperties` | backend/src/Infrastructure/Persistence/Scan/PdoScanRepository.php:80 | ORDER BY cnt DESC: the sorted groups are in descending count order, a permutation of the groups, with the same total |
| `Scans.CountryBreakdownProperties` | backend/src/Infrastructure/Persistence/Scan/PdoScanRepository.php:78-91 | GROUP BY country ORDER BY cnt DESC LIMIT: min(limit, number of countries) groups with distinct countries, in descending count order, each a country of the QR code with exactly that country's number of scans; a country left out has no more scans than any kept group |
| `Scans.ScanTable.constructor` | backend/src/Infrastructure/Persistence/Scan/PdoScanRepository.php:13-15 | an empty table whose first id is 1 |
| `Scans.ScanTable.Create` | backend/src/Infrastructure/Persistence/Scan/PdoScanRepository.php:17-38 | the scan is appended with the next id and returned with it |
| `Scans.ScanTable.FindByQrCode` | backend/src/Infrastructure/Persistence/Scan/PdoScanRepository.php:40-61 | the newest `limit` scans of the QR code, newest first: min(count, limit) of its rows, and every row of it that is left out has a smaller id than each one returned |
| `Scans.ScanTable.TotalCount` | backend/src/Infrastructure/Persistence/Scan/PdoScanRepository.php:93-100 | the number of the QR code's rows, 0 exactly when it has none |
| `Scans.ScanTable.DailyCounts` | backend/src/Infrastructure/Persistence/Scan/PdoScanRepository.php:63-76 | the daily counts of the scans since `today − days` |
| `Scans.ScanTable.CountryBreakdown` | backend/src/Infrastructure/Persistence/Scan/PdoScanRepository.php:78-91 | the loop computes the breakdown whose meaning CountryBreakdownProperties states: the groups of the QR code's countries by descending count, cut to `limit` |
| `Csv.DoubleQuotesSpecial` | backend/src/Application/Actions/QrCode/StatsQrCodeCsvAction.php:58-59 | doubling quotes does not change whether the text needs quoting, and leaves a text without quotes unchanged |
| `Csv.QuoteIsSpecial` | backend/src/Application/Actions/QrCode/StatsQrCodeCsvAction.php:59 | a text holding a quote always gets wrapped |
| `Csv.EscapeField` | backend/src/Application/Actions/QrCode/StatsQrCodeCsvAction.php:55-62 | null is ''; a text without '"', ',', CR, LF is unchanged; any other text is wrapped in quotes |
| `Csv.EscapeAll` | backend/src/Application/Actions/QrCode/StatsQrCodeCsvAction.php:55-63 | one field per value, each the escaping of that value |
| `Csv.LinesOf` | backend/src/Application/Actions/QrCode/StatsQrCodeCsvAction.php:63-68 | one line per record, each that record's line |
| `Csv.ReadQuotedDoubled` | backend/src/Application/Actions/QrCode/StatsQrCodeCsvAction.php:58-60 | a quoted field with doubled quotes reads back as the original text |
| `Csv.ParseEscapedField` | backend/src/Application/Actions/QrCode/StatsQrCodeCsvAction.php:55-62 | an escaped field, followed by a comma, a CR or nothing, reads back as its value (null as '') |
| `Csv.ParseLine` | backend/src/Application/Actions/QrCode/StatsQrCodeCsvAction.php:63-64 | a line of fields joined by ',' reads back as its values |
| `Csv.ParseLines` | backend/src/Application/Actions/QrCode/StatsQrCodeCsvAction.php:68 | lines joined by CR LF read back as their records |
| `Csv.ScanFields` | backend/src/Application/Actions/QrCode/StatsQrCodeCsvAction.php:53-63 | a scan gives one field per header column |
| `Csv.ScanRecords` | backend/src/Application/Actions/QrCode/StatsQrCodeCsvAction.php:50-66 | every record has one field per header column, and there are no more records than items (non-scan items are skipped) |
| `Csv.HeaderNamesPlain` | backend/src/Application/Actions/QrCode/StatsQrCodeCsvAction.php:46 | no header name needs quoting |
| `Csv.HeaderLine` | backend/src/Application/Actions/QrCode/StatsQrCodeCsvAction.php:46-49 | the plain implode of the header is the same as its escaped line, and reads back as the header |
| `Csv.CsvRoundTrip` | backend/src/Application/Actions/QrCode/StatsQrCodeCsvAction.php:46-68 | reading an export gives back the header, then one record per scan object in order, each field as written and null as '' |
| `Csv.BuildCsv` | backend/src/Application/Actions/QrCode/StatsQrCodeCsvAction.php:46-68 | the loop writes exactly the export document: the header line, then a line per scan object, joined by CR LF |
| `StatsCsvAction.FilenameShape` | backend/src/Application/Actions/QrCode/StatsQrCodeCsvAction.php:77-78 | the file name has no '/', so it is directly inside the reports folder, and ends with twelve hex digits and '.csv' |
| `StatsCsvAction.AsItems` | backend/src/Application/Actions/QrCode/StatsQrCodeCsvAction.php:50-52 | every scan the repository returns is a Scan object, so none is skipped |
| `StatsCsvAction.Export` | backend/src/Application/Actions/QrCode/StatsQrCodeCsvAction.php:42-85 | the reports folder exists, the CSV of the QR code's newest 10000 scans is written to the new name in it and nothing else changes; the URL is '/tmp/reports/' + the name |
| `StatsCsvAction.SaveReport` | backend/src/Application/Actions/QrCode/StatsQrCodeCsvAction.php:73-81 | the reports folder exists afterwards and the file in it holds the CSV; no other file changes |
| `StatsCsvAction.Action` | backend/src/Application/Actions/QrCode/StatsQrCodeCsvAction.php:28-86 | an unknown QR code is a 404 'QR not found' and writes nothing; otherwise the export is written and its URL returned; the city parameter changes nothing |
| `StatsCsvAction.ExportReadsBack` | backend/src/Application/Actions/QrCode/StatsQrCodeCsvAction.php:43-68 | the written file reads back as the header and one record per scan, at most 10000 of them, all of that QR code |
| `StatsCsvAction.RecordsOfScans` | backend/src/Application/Actions/QrCode/StatsQrCodeCsvAction.php:50-66 | each scan of the list yields exactly one record |
| `ReportNotification.HtmlEscape` | backend/src/Application/Services/Reporting/ReportNotificationService.php:259 | htmlspecialchars: no '<', '>', '"' or "'" survives in the escaped text, which is never shorter than the input |
| `ReportNotification.HtmlEscapePlain` | backend/src/Application/Services/Reporting/ReportNotificationService.php:247 | a text without markup characters and without '&' is left unchanged |
| `ReportNotification.HtmlEscapeRoundTrip` | backend/src/Application/Services/Reporting/ReportNotificationService.php:255 | decoding the entities of the escaped text gives the original text back, so nothing of a name or URL is lost |
| `ReportNotification.BuildBody` | backend/src/Application/Services/Reporting/ReportNotificationService.php:241-264 | the loop over the summaries builds the body: greeting, period label, the list of items, the dashboard paragraph, the footer |
| `ReportNotification.BodyGreets` | backend/src/Application/Services/Reporting/ReportNotificationService.php:259 | the body opens with the greeting to the escaped user name |
| `ReportNotification.BodyListsEverySummary` | backend/src/Application/Services/Reporting/ReportNotificationService.php:245-251 | every summary's list item appears in the body |
| `ReportNotification.BodyShowsLooker` | backend/src/Application/Services/Reporting/ReportNotificationService.php:253-257 | the dashboard paragraph is empty when the URL is null, '' or '0', and otherwise the escaped URL is in the body |
| `ReportNotification.Collect` | backend/src/Application/Services/Reporting/ReportNotificationService.php:117-153 | one attachment per summary, and no more of them than subscriptions |
| `ReportNotification.QrReportFields` | backend/src/Application/Services/Reporting/ReportNotificationService.php:118-152 | a subscription gives a report exactly when its QR code exists; the summary then has the QR's id, its name or 'QR #id', its total and its period count, and the attachment is the text/csv export of the period's scans |
| `ReportNotification.QrNameOf` | backend/src/Application/Services/Reporting/ReportNotificationService.php:129 | the summary name is never empty: the QR's name unless it is falsy, else 'QR #' and the id, which reads back from the name |
| `ReportNotification.FilenameNamesQr` | backend/src/Application/Services/Reporting/ReportNotificationService.php:134-139 | the attachment name starts 'qrcode_' and ends '.csv', and the QR code's id reads back from the text after 'qrcode_' |
| `ReportNotification.CollectFromSubs` | backend/src/Application/Services/Reporting/ReportNotificationService.php:117-153 | every attachment and summary pair is the report of one of the user's subscriptions |
| `ReportNotification.CollectHasEach` | backend/src/Application/Services/Reporting/ReportNotificationService.php:117-153 | every subscription whose QR code exists contributes its own report, placed after the reports of the subscriptions before it, so the reports keep the subscriptions' order |
| `ReportNotification.CollectPrefix` | backend/src/Application/Services/Reporting/ReportNotificationService.php:117-153 | what the first subscriptions contribute is the start of what all of them contribute |
| `ReportNotification.CollectCount` | backend/src/Application/Services/Reporting/ReportNotificationService.php:155-157 | a user has no summary, and so gets no mail, exactly when none of their subscribed QR codes exists |
| `ReportNotification.CollectReports` | backend/src/Application/Services/Reporting/ReportNotificationService.php:114-153 | the inner loop collects exactly the reports of the user's subscriptions, in order |
| `ReportNotification.IndexOfUser` | backend/src/Application/Services/Reporting/ReportNotificationService.php:92 | the first group of the user, or the number of groups when the user has none |
| `ReportNotification.GroupByUserProperties` | backend/src/Application/Services/Reporting/ReportNotificationService.php:90-93 | grouping by user: distinct users, each group non-empty and holding exactly that user's subscriptions in order, every subscription's user has a group, no more groups than subscriptions |
| `ReportNotification.GroupSubscriptions` | backend/src/Application/Services/Reporting/ReportNotificationService.php:90-93 | the grouping loop builds exactly those groups |
| `ReportNotification.InItsGroup` | backend/src/Application/Services/Reporting/ReportNotificationService.php:92 | each subscription is in its own user's group |
| `ReportNotification.AllSent` | backend/src/Application/Services/Reporting/ReportNotificationService.php:162-164 | when the mailer takes every mail, the count is the number of mails |
| `ReportNotification.DeliveryOfProper` | backend/src/Application/Services/Reporting/ReportNotificationService.php:101-170 | a user gets a mail exactly when the user exists and one of their QR codes does; the mail goes to that user's e-mail with the run's subject and at least one attachment |
| `ReportNotification.ReportFor` | backend/src/Application/Services/Reporting/ReportNotificationService.php:102-170 | the body of the per-user loop makes exactly that user's delivery |
| `ReportNotification.SendReports` | backend/src/Application/Services/Reporting/ReportNotificationService.php:100-171 | the per-user loop hands the mailer each user's mail in group order and counts the ones it takes |
| `ReportNotification.RunDueReports` | backend/src/Application/Services/Reporting/ReportNotificationService.php:50-176 | when the schedule says not due nothing is sent and the settings are unchanged; when due, the mails are the per-user loop over the active subscriptions, the count is the mails taken, and the settings' last run becomes now (also with no subscriptions) |
| `ReportNotification.OutboxProperties` | backend/src/Application/Services/Reporting/ReportNotificationService.php:100-175 | no more mails taken than mails, no more mails than subscribed users; one mail per user at most, each proper and to a subscriber |
| `ReportNotification.OutboxCovers` | backend/src/Application/Services/Reporting/ReportNotificationService.php:101-163 | a subscriber who exists and has a subscribed QR code that exists gets a mail |
| `ReportSchedule.ParseTimeOfDayRoundTrip` | backend/src/Application/Services/Reporting/ReportNotificationService.php:229-236 | an 'HH:MM:SS' text reads back as its hour, minute and second |
| `ReportSchedule.ParseTimeOfDayNoSeconds` | backend/src/Application/Services/Reporting/ReportNotificationService.php:231-234 | an 'HH:MM' text reads with second 0 (a missing part is 0) |
| `ReportSchedule.ParseTimeOfDayHourOnly` | backend/src/Application/Services/Reporting/ReportNotificationService.php:231-234 | a text without ':' is read as the hour alone, with minute and second 0 |
| `ReportSchedule.Clamp` | backend/src/Application/Services/Reporting/ReportNotificationService.php:201 | min(max(d, lo), hi) lies between lo and hi, is d when d is in range, lo below it and hi above it |
| `ReportSchedule.WeeklySchedule` | backend/src/Application/Services/Reporting/ReportNotificationService.php:182-193 | weekly: no schedule exactly when day_of_week is null; otherwise the day of the current ISO week numbered day_of_week |
| `ReportSchedule.MonthlySchedule` | backend/src/Application/Services/Reporting/ReportNotificationService.php:195-207 | monthly: no schedule exactly when day_of_month is null; otherwise the clamped day of the current month, which is day_of_month itself when that exists in the month |
| `ReportSchedule.ScheduledOnItsDay` | backend/src/Application/Services/Reporting/ReportNotificationService.php:190 | with a time of day inside one day, the scheduled time falls on the scheduled day |
| `ReportSchedule.ReportRangeProperties` | backend/src/Application/Services/Reporting/ReportNotificationService.php:213-224 | the period ends at the midnight starting the scheduled day; it lasts 7 days when weekly and the previous month's length when monthly, so it starts before it ends |
| `ReportSchedule.DueExactly` | backend/src/Application/Services/Reporting/ReportNotificationService.php:53-77 | a report is due exactly when active settings have a schedule, now is at or after it, and there is no last run at or after it |
| `ReportSchedule.AtMostOncePerPeriod` | backend/src/Application/Services/Reporting/ReportNotificationService.php:73-77 | after a due run records now as its last run, the same scheduled time is never due again |
| `ReportSchedule.ScheduleIgnoresLastRun` | backend/src/Application/Services/Reporting/ReportNotificationService.php:182-207 | the scheduled time does not depend on the recorded last run |
| `ReportSchedule.BuildSubject` | backend/src/Application/Services/Reporting/ReportNotificationService.php:266-270 | 'Reporte Semanal' for weekly settings and 'Reporte Mensual' otherwise, then the two dates in their places |
| `ReportSettingsDomain.NewReportSettings` | backend/src/Domain/ReportSettings/ReportSettings.php:33-57 | the constructor's defaults: active, never run, no created or updated time, the given id, type and time of day |
| `ReportSettingsAction.NormalizeInput` | backend/src/Application/Actions/ReportSettings/ReportSettingsAction.php:25-35 | the form data as an array: an array as it is, an object's properties, anything else the empty array |
| `ReportSettingsAction.NormalizeInputIdempotent` | backend/src/Application/Actions/ReportSettings/ReportSettingsAction.php:25-35 | normalising twice is normalising once |
| `ReportSettingsAction.BuildSettingsValid` | backend/src/Application/Actions/ReportSettings/ReportSettingsAction.php:56-68 | every record built has a monthly day in 1..31 or a weekly day in 1..7, the other day null, so the scheduler always finds a scheduled time for it |
| `ReportSettingsAction.BuildSettingsFailsExactly` | backend/src/Application/Actions/ReportSettings/ReportSettingsAction.php:39-68 | it throws exactly when the schedule type is not 'monthly' or 'weekly', or the day that type needs is missing or out of range |
| `ReportSettingsAction.BuildSettingsFallbacks` | backend/src/Application/Actions/ReportSettings/ReportSettingsAction.php:39-82 | a field the request leaves out keeps the stored value, else the default ('monthly', '08:00:00', 'UTC', no URL, inactive); id, last run and timestamps come from the stored record |
| `ReportSettingsAction.BuildSettingsGivenFields` | backend/src/Application/Actions/ReportSettings/ReportSettingsAction.php:44-57 | a given field wins, cast to its type; an empty looker_url clears the URL; active is the truthiness of the value |
| `ReportSettingsAction.BuildSettingsStable` | backend/src/Application/Actions/ReportSettings/ReportSettingsAction.php:37-83 | an empty request over a valid stored record gives that record back |
| `ReportSettingsRepository.MapRow` | backend/src/Infrastructure/Persistence/ReportSettings/PdoReportSettingsRepository.php:109-139 | id as given, active when the column is non-zero, days, last run and timestamps taken over |
| `ReportSettingsRepository.FirstActiveIsLowest` | backend/src/Infrastructure/Persistence/ReportSettings/PdoReportSettingsRepository.php:24-34 | WHERE active = 1 ORDER BY id LIMIT 1: none exactly when no row is active, otherwise the active row of the smallest id |
| `ReportSettingsRepository.RowOfIdFinds` | backend/src/Infrastructure/Persistence/ReportSettings/PdoReportSettingsRepository.php:36-47 | none exactly when no row has the id; otherwise a row with that id |
| `ReportSettingsRepository.UpdateSaveChanges` | backend/src/Infrastructure/Persistence/ReportSettings/PdoReportSettingsRepository.php:81-94 | the rows with that id get the written columns, every other row is unchanged |
| `ReportSettingsRepository.UpdateLastRunChanges` | backend/src/Infrastructure/Persistence/ReportSettings/PdoReportSettingsRepository.php:97-104 | only the last run of the rows with that id changes |
| `ReportSettingsRepository.ReportSettingsTable.constructor` | backend/src/Infrastructure/Persistence/ReportSettings/PdoReportSettingsRepository.php:18-22 | an empty table whose first id is 1 |
| `ReportSettingsRepository.ReportSettingsTable.GetActive` | backend/src/Infrastructure/Persistence/ReportSettings/PdoReportSettingsRepository.php:24-34 | none exactly when no row is active; otherwise the mapped active row with the smallest id |
| `ReportSettingsRepository.ReportSettingsTable.FindById` | backend/src/Infrastructure/Persistence/ReportSettings/PdoReportSettingsRepository.php:36-47 | none exactly when no row has the id; otherwise that row mapped |
| `ReportSettingsRepository.ReportSettingsTable.Save` | backend/src/Infrastructure/Persistence/ReportSettings/PdoReportSettingsRepository.php:49-95 | without an id: a new row with the next id and the record returned with that id and now as its timestamps; with an id: those rows updated and the record returned as given |
| `ReportSettingsRepository.ReportSettingsTable.UpdateLastRunAt` | backend/src/Infrastructure/Persistence/ReportSettings/PdoReportSettingsRepository.php:97-104 | last_run_at of the rows with that id becomes the instant; nothing else changes |
| `ReportSettingsRepository.InsertedReadsBack` | backend/src/Infrastructure/Persistence/ReportSettings/PdoReportSettingsRepository.php:49-79 | a record saved without an id reads back by its new id as the returned record |
| `Users.NewUser` | backend/src/Domain/User/User.php:29-45 | the e-mail is stored lower-cased, the other fields as given, and a missing creation time becomes now |
| `Users.NewUserDefaults` | backend/src/Domain/User/User.php:33-36 | the defaults: role 'user', no code, no issue date, created now |
| `Users.StoredEmailIsLower` | backend/src/Domain/User/User.php:83-86 | building a user again from its username (the stored e-mail) gives the same user: the e-mail is already lower case |
| `Users.IndexOfSpace` | backend/src/Domain/User/User.php:91 | the first whitespace character of the text, or its length when there is none |
| `Users.SpaceRun` | backend/src/Domain/User/User.php:91 | the length of the run of whitespace at the front of the text |
| `Users.SplitWs` | backend/src/Domain/User/User.php:91 | preg_split on a whitespace run always gives at least one piece |
| `Users.SplitWsPiecesNoSpace` | backend/src/Domain/User/User.php:91 | no piece of the split holds whitespace |
| `Users.FirstNameShape` | backend/src/Domain/User/User.php:88-93 | the first name holds no whitespace, and is empty exactly when the name is empty or starts with whitespace |
| `Users.SingleWordName` | backend/src/Domain/User/User.php:88-103 | a name without whitespace is its own first name, with an empty last name |
| `Users.SplitWsStep` | backend/src/Domain/User/User.php:97-101 | on a single-spaced name the split is the text before the first space, then the split of the rest |
| `Users.SplitWsJoin` | backend/src/Domain/User/User.php:97-100 | joining the pieces of a single-spaced name with ' ' gives the name back |
| `Users.SplitWsTailNonEmpty` | backend/src/Domain/User/User.php:97-100 | every piece after the first of a single-spaced name is non-empty |
| `Users.FirstLastRoundTrip` | backend/src/Domain/User/User.php:88-103 | for a single-spaced name, first name, a space and last name (or the first name alone when the last is empty) give the name back |
| `Users.JoinNonEmpty` | backend/src/Domain/User/User.php:100 | joining pieces whose first is non-empty gives a non-empty text |
| `Users.ToArray` | backend/src/Domain/User/User.php:105-116 | id, name, e-mail, role and code as stored; the issue date formatted when set, null otherwise; the creation time formatted |
| `Users.SerialisedNewUser` | backend/src/Domain/User/User.php:29-45 | a user built from (id, name, e-mail, role) serialises to those values with the e-mail lower-cased and null code and issue date |
| `Users.SplitFirstSpace` | backend/src/Infrastructure/Persistence/User/PdoUserRepository.php:37-41 | explode(' ', name, 2): without a space the name and ''; otherwise a first part without a space that, with ' ' and the rest, gives the name back |
| `Users.MapRowAsWritten` | backend/src/Infrastructure/Persistence/User/PdoUserRepository.php:62-71 | the mapping as written: the name is the username (e-mail column, else name column), the e-mail the lower-cased first name, the role the last name; no user when both columns are null |
| `Users.MapRowAsWrittenMisplacesFields` | backend/src/Infrastructure/Persistence/User/PdoUserRepository.php:62-71 | for the row 'Ana Diaz' <ana@example.com>, the mapped user's e-mail is 'ana' and its role 'Diaz' |
| `Users.MapRow` | backend/src/Infrastructure/Persistence/User/PdoUserRepository.php:62-71 | the corrected mapping: the name column as the name and the lower-cased username as the e-mail, with the default role; the e-mail column always wins when set |
| `Users.MapRowKeepsEmail` | backend/src/Infrastructure/Persistence/User/PdoUserRepository.php:62-71 | the corrected mapping keeps 'ana@example.com' as that row's e-mail and 'Ana Diaz' as its name |
| `Users.LowerCaseUnchanged` | backend/src/Domain/User/User.php:40 | a text without upper-case ASCII letters is its own lower case |
| `Users.FirstOfId` | backend/src/Infrastructure/Persistence/User/PdoUserRepository.php:54-60 | none exactly when no row has the id, otherwise the earliest row with it |
| `Users.FirstOfEmail` | backend/src/Infrastructure/Persistence/User/PdoUserRepository.php:79-85 | none exactly when no row has the e-mail, otherwise the earliest row with it |
| `Users.UserOfId` | backend/src/Infrastructure/Persistence/User/PdoUserRepository.php:52-72 | none when no row has the id; otherwise the mapping of the earliest row with it, and a user found has the id asked for |
| `Users.MapRows` | backend/src/Infrastructure/Persistence/User/PdoUserRepository.php:29-46 | fails (the TypeError `new User` raises for a null username) exactly when some row has neither e-mail nor name; otherwise one user per row, each that row's mapping, in row order |
| `Users.MapRowsAscending` | backend/src/Infrastructure/Persistence/User/PdoUserRepository.php:26-46 | ORDER BY id: when the mapping succeeds the users come in strictly ascending id order |
| `Users.SetPassword` | backend/src/Infrastructure/Persistence/User/PdoUserRepository.php:102-106 | password = :password WHERE id = :id: the rows with that id get the hash, all others are unchanged |
| `Users.UserTable.constructor` | backend/src/Infrastructure/Persistence/User/PdoUserRepository.php:16-19 | an empty table |
| `Users.UserTable.FindAll` | backend/src/Infrastructure/Persistence/User/PdoUserRepository.php:24-47 | the MapRows answer over the table: the failure when a row has neither e-mail nor name, otherwise the mapped rows in order, ascending by id |
| `Users.UserTable.FindUserOfId` | backend/src/Infrastructure/Persistence/User/PdoUserRepository.php:52-72 | none (UserNotFoundException) when no row has the id; otherwise the mapping of the earliest row with it, whose id is the one asked for |
| `Users.UserTable.FindByEmail` | backend/src/Infrastructure/Persistence/User/PdoUserRepository.php:77-97 | none exactly when no row has the e-mail; otherwise the mapping of the earliest row with it, whose address is that e-mail lower-cased |
| `Users.UserTable.PasswordHashByEmail` | backend/src/Infrastructure/Persistence/User/PdoUserRepository.php:108-115 | null when no row has the e-mail; otherwise the password column of the earliest row with it |
| `Users.UserTable.UpdatePassword` | backend/src/Infrastructure/Persistence/User/PdoUserRepository.php:102-106 | the rows with that id get the new hash or null; nothing else changes |
| `Strings.StringToIntSkipsSpace` | backend/src/Application/Actions/QrSubscription/ListQrSubscriptionsAction.php:13 | (int) skips leading white space: a white-space character in front does not change the value |
| `Strings.NumericInteger` | backend/src/Application/Actions/QrSubscription/ListQrSubscriptionsAction.php:13 | (int) of digits followed by text that is neither a digit nor '.': the digits' value scaled by the exponent that text starts with |
| `Strings.NumericDecimal` | backend/src/Application/Actions/ReportSettings/ReportSettingsAction.php:57 | (int) of digits, '.', digits (at least one digit in all): the value of all the digits, scaled down by the fraction digits and up by the exponent that follows, truncated toward zero |
| `Strings.IntegerWithExponent` | backend/src/Application/Actions/QrSubscription/ListQrSubscriptionsAction.php:13 | '1e1' reads as 10 |
| `Strings.DecimalWithExponent` | backend/src/Application/Actions/ReportSettings/ReportSettingsAction.php:57 | '2.5e1' reads as 25 |
| `Strings.DecimalForms` | backend/src/Application/Actions/ReportSettings/ReportSettingsAction.php:57 | '1.9' reads as 1 and '-1.9' as -1: the fraction is cut toward zero |
| `Strings.FractionOnlyForm` | backend/src/Application/Actions/ReportSettings/ReportSettingsAction.php:57 | '.5' reads as 0 |
| `Strings.TrailingTextForms` | backend/src/Application/Actions/QrSubscription/ListQrSubscriptionsAction.php:13 | '1e' reads as 1 and ' 12abc' as 12: an exponent without digits and trailing text are ignored |
| `Strings.IntToDecimalRoundTrip` | backend/src/Application/Actions/QrSubscription/ListQrSubscriptionsAction.php:13 | the decimal text of any integer reads back as that integer |
| `Strings.IntToDecimalPrefix` | backend/src/Application/Services/Reporting/ReportNotificationService.php:134-137 | an integer's text followed by text that cannot continue a number reads back as that integer |
| `Strings.Pad2RoundTrip` | backend/src/Application/Services/Reporting/ReportNotificationService.php:231-234 | a zero-padded two-digit part reads back as its number |

## Left out

- SQL and PDO: queries are evaluated over the in-memory rows. `LIKE` is a substring test with no collation or case folding. `CURRENT_DATE` and `NOW()` are a `today`/`now` parameter.
- The time-zone database and PHP's calendar: the local offset, ISO weekday, day of month and days in month of "now" come with it. The offset is taken as fixed between now and the scheduled time. `modify('-1 month')` moves the end back by the length of the previous month, given as a parameter of 28 to 31 days. The monthly start is not claimed to be the same day one month earlier.
- Date and time text (`format('Y-m-d')`, `'Ymd'`, `'Y-m-d H:i:s'`) comes from formatter parameters. Instants are UTC seconds.
- Randomness and cryptography: the 16 bytes of a token, the 6 bytes of an export name, and JWT encoding and decoding are parameters. The firebase/jwt library is not part of this model.
- Mail delivery, the GeoIP HTTP lookup, QR image rendering, and `filter_var` IP validation (the `validIp` parameter) are parameters. Logging is left out.
- File I/O: the filesystem is a map from path to contents plus a set of directories. `DIRECTORY_SEPARATOR` is '/'. `mkdir(..., true)` records only the directory asked for, not each missing ancestor.
- Exceptions a repository or mailer may throw are boolean parameters:
  - `updateFails` for the QR edit;
  - `createFails` for recording a scan;
  - per-user `fails` functions for subscription removals and additions;
  - `sendFails` for mail.
  
  The source only logs these failures, and the model keeps going the same way.
- PHP's `strict_types` on loose request values: where the code casts (`(int)`, `(string)`, `(bool)`), the model applies that cast. Where the code passes a value on without a cast and `strict_types` would throw a TypeError (an HTTP 500) for a non-string, the model instead applies a `(string)` cast that the code does not make. The next two lines name those places. In `Php.ToStr`, `(string)` of an object is the empty text, where PHP throws an Error for a plain object. Request bodies and settings are arrays, so only a decoded token could be an object there.
- QrCreator.RequiredTarget, QrCreator.NameOf, QrCreator.ColorText: createFromData passes `target_url`, `name`, `foreground` and `background` uncast into the `string`/`?string` parameters of the QrCode constructor and of parseHexColor (backend/src/Application/Services/QrCode/QrCodeCreator.php:38-49). The model reads a non-string value as its `(string)` text, so it creates a QR code where PHP throws.
- Auth.JwtService.constructor: the configured `jwt.secret` is assigned uncast to the `string` property (backend/src/Infrastructure/Security/JwtService.php:18). The model reads a non-string secret as its `(string)` text, where PHP throws.
- Two TypeErrors are part of the model: `Users.MapRows` fails on a row with neither e-mail nor name, and `Redirect.RedirectAction` fails when the GeoIP answer's city or country is neither a string nor null. Values are a single `Value` datatype covering null, bool, int, string, list, dict and object.
- `Strings.StringToInt`: `(int)` of a numeric string is computed exactly on integers. PHP's 64-bit saturation of numbers beyond the integer range is not modelled. Nor is the rounding of a decimal or exponent text through a binary float before it is truncated: '2.9999999999999999' reads as 2 here and as 3 in PHP.
- `hexdec` skipping non-hex characters: colour properties are stated for hex-digit input. `ParseHexColor` itself is total.
- `ceil(total / perPage)` is computed exactly on integers.
- JavaScript numbers in the frontend are integers. The React components, hooks and state updates around the pure helpers are not part of this model.
- ScanRepository has no `countInRange` or `findByQrCodeInRange` implementation, though the report run calls both. They are parameters of the report run.
- JwtService has no `decode`, though JwtAuthMiddleware calls one. Decoding is a parameter.
- The domain QrCode class (backend/src/Domain/QrCode/QrCode.php:23-30) has no foreground, background, updated-at or owner fields. The repository and the edit action pass it extra constructor arguments and call accessors for those fields. The model's QR record carries them, as the repository's rows and queries do. The lines below name the members this affects. Each states the intended behaviour, and "## Findings" holds the as-written halves.
- QrCodes.MapQr: as written, the row's foreground lands in the constructor's `createdAt` slot and the other extra arguments are dropped (PdoQrCodeRepository.php:95-106, also :128-139, :160-171, :195-206 and :227-238). A row with a foreground throws a TypeError. Any other row reads back created "now", without colours or owner columns. Where the callers catch `\Throwable` (edit, CSV export, subscriptions, report run), such a QR code is "not found". The redirect catches only QrCodeNotFoundException, and the listing catches nothing, so both fail. The model uses the intended mapping throughout.
- QrCodes.QrCodeTable.Create, QrCreator.CreateFromData, QrActions.CreateAction: as written, create() calls the undefined `getForeground()` (PdoQrCodeRepository.php:252) before its INSERT, so every creation that passes the 400 and 401 checks fails with nothing stored or written. `QrAsWritten.CreateActionAsWritten` models that.
- QrCodes.QrCodeTable.Update: as written, update() calls the undefined `getForeground()` (PdoQrCodeRepository.php:292) before its UPDATE. Its only caller, the edit, fails earlier.
- QrActions.Merge, QrActions.EditAction: as written, building the merged record calls the undefined `getUpdatedAt()` (EditQrCodeAction.php:84), and `getForeground()`/`getBackground()` for an absent colour (:71-72). That is outside the try at :88-93, so every edit past the 403 gate fails with no update, unlink or redraw. `QrAsWritten.EditActionAsWritten` models that.
- QrActions.PerPageOf, QrActions.ListAction: the listing reads `$this->settings` (ListQrCodesAction.php:46). QrCodeAction (QrCodeAction.php:11-19) neither declares nor sets that property, and the Action base class is not part of this model. The model assumes the property holds the application settings. If nothing sets it, the call throws an Error, and every listing for a token with a subject fails.
- The report-settings actions that call the missing `setActive` and `listAll` are not part of this model, and neither is `getCodeByEmail`.
- EditQrCodeAction, StatsQrCodeCsvAction and ViewQrCodeAction import `App\Infrastructure\Utils\PublicDirectoryResolver`, while the resolver class in the repository is declared in `App\Application\Services` (backend/src/Application/Services/PublicDirectoryResolver.php:5). ViewQrCodeAction is not part of this model. `QrActions.EditAction` and `StatsCsvAction.Export` both use that one resolver, `PublicDirectory.GetPublicDir`.
- `Frontend.TimeRoundTrip`: a stored 'HH:MM:SS' time survives the form only when its seconds are ':00'. The form keeps hours and minutes and adds ':00' back, so the lemma states exactly that rather than an unconditional round trip.
- `StatsCsvAction.Action`: the `city` query parameter is read and then used by nothing. The contract's result does not depend on it.
- `Users.MapRow`: the row mapping of PdoUserRepository is modelled twice (see Findings). The rest of the model, including the report run's e-mail addresses, uses the corrected mapping.

## Findings

| source | as written | input that shows it | evidently intended | confidence | as-written member | corrected member |
|---|---|---|---|---|---|---|
| backend/src/Infrastructure/Persistence/QrCode/PdoQrCodeRepository.php:95-106 | the ten-argument `new QrCode(...)` fills the six-parameter constructor of backend/src/Domain/QrCode/QrCode.php:23-30, so `$row['foreground'] ?? null` becomes `createdAt`, and the background, the row's created_at and the owner columns are dropped | a row created at time 100 with no colours reads back created "now"; the same row with foreground '#ff0000' throws a TypeError | a record with the row's columns, colours, creation time and owner columns | not executed | `QrAsWritten.EntityOfRowDropsColumns` | `QrCodes.MapQrKeepsColumns` |
| backend/src/Infrastructure/Persistence/QrCode/PdoQrCodeRepository.php:252 | create() calls `getForeground()`, which QrCode does not define, before the INSERT; CreateQrCodeAction.php:42-46 catches only InvalidArgumentException | `{"target_url": "https://example.com"}` from user 1 ends in an uncaught Error; no row, folder or image is written | the row is inserted and the record returned with its links, status 201 | not executed | `QrAsWritten.CreateAsWrittenFails` | `QrActions.CreateAction` |
| backend/src/Application/Actions/QrCode/EditQrCodeAction.php:84 | the merged record is built with `getUpdatedAt()` (and `getForeground()`/`getBackground()` for an absent colour), which QrCode does not define, outside the try at :88-93 | the owner (user 2) renames QR code 1, which has no colours: an uncaught Error, with no update and no redraw | the record is updated, the images redrawn and the record returned with its links | not executed | `QrAsWritten.EditAsWrittenFails` | `QrActions.EditAction` |
| backend/src/Infrastructure/Persistence/User/PdoUserRepository.php:62-71 | `new User((int)$row['id'], $username, $first, $last)` passes the username (e-mail column) as the name, the first name as the e-mail and the last name as the role, against the constructor `User(id, name, email, rol)` | the row name 'Ana Diaz', e-mail 'ana@example.com' maps to a user whose e-mail is 'ana' and whose role is 'Diaz', so the report mail for that user goes to 'ana' | the name column as the name, the e-mail column (else the name) lower-cased as the e-mail, the default role 'user' | not executed | `Users.MapRowAsWrittenMisplacesFields` | `Users.MapRowKeepsEmail` |
