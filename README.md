# rss_hook_backend, modelled in Dafny

rss_hook_backend is a NestJS service. It polls RSS feeds ("fluxes"), stores
each new item as an article, and posts the item to every webhook bound to
the flux. This project models the parts of it that carry logic:

- **Configuration** (`read_file.dfy`): the INI reader `parseIni` and the
  environment set-up `trySetEnv` / `setConfiguration`. `parseIni` is a fold
  over the lines, proved equal to a loop. `process.env` is a class holding
  a map.
- **JWT secret** (`constants.dfy`): the `getJwtConstants` decision table
  over `ENV` and `JWT_SECRET`.
- **Sign-in** (`auth_service.dfy`): `signIn` checks a pass against the
  SHA-256 digest stored in `ACCESS_PASSWORD`.
- **Guard** (`auth_guard.dfy`): Bearer-token extraction (section 2.1 of
  RFC 6750) and the `canActivate` decision.
- **Feed emitter** (`feed_emitter.dfy`): the rss-feed-emitter object, with
  its feed list and its listener table.
- **Feed manager** (`feed_manager.dfy`): the `FeedManager` class, with RSS
  2.0 validation, registration and listener migration.
- **Stores** (`stores.dfy`): the database tables the flux controller uses.
  They are in-memory tables with one method per service query.
- **Flux controller** (`flux_controller.dfy`): `create`, `delete` and
  `update`, with their check order and cascades, plus the new-item fan-out
  to webhooks.

Collaborators the code calls but does not define are parameters of the
model:

- the SHA-256 digest `hash`;
- the JWT signer `sign` and verifier `verify`;
- the HTTP GET plus XML parse, `fetch`;
- JavaScript's string to number conversion, `toNumber`;
- the `URL` constructor's acceptance test, `isUrl`;
- the outcome of each webhook POST, `post`.

Behaviour of the code worth knowing:

- **isFeed errors.** A failed GET in `isFeed` propagates its own error
  (`FetchFailed`). It is not turned into `FeedParseError`.
- **Duplicate URLs.** `addFeed` with an already registered URL replaces
  the entry; it does not report a duplicate.
- **Unknown URLs.** `removeFeed`, `onNewItem` and `updateFeed` on an
  unknown URL build a `FeedUnknown` and carry on.
- **updateFeed.** It never detaches the old URL's listeners, so moving a
  URL to itself doubles them (`SelfUpdateDoublesListeners`). It also resets
  the refresh interval to 200.

## Model

| member | source | states |
|---|---|---|
| Strings.Split | src/configuration/readFile.ts:22 | `split` on one character: at least one piece, no piece holds the separator (`JoinSplit`, `SplitJoin`: it inverts joining) |
| Strings.ParseInt | src/controllers/flux.controller.ts:62 | `parseInt` with no radix (section 19.2.5 of ECMA-262): leading ECMAScript white space skipped, an optional sign, hexadecimal after `0x`/`0X`, decimal otherwise, up to the first non-digit; a number only when some digit is present |
| Strings.ParseIntSkipsWhiteSpace | src/controllers/flux.controller.ts:62 | a leading white-space character (tab, space, no-break space, line separators, BOM and the other Zs spaces) does not change the result |
| Strings.ParseIntDecimalPrefix | src/controllers/flux.controller.ts:62 | an optional sign, the decimal notation of n, then anything not a digit (and not `x` after a lone `0`) reads as ±n |
| Strings.ParseIntHexPrefix | src/controllers/flux.controller.ts:62 | an optional sign, `0x` or `0X`, hex digits h, then anything not a hex digit reads as ± the value of h |
| Strings.ParseIntHexEmpty | src/controllers/flux.controller.ts:62 | `0x` with no hex digit after it is NaN |
| Strings.ParseIntNoDigitFirst | src/controllers/flux.controller.ts:62 | a text whose first character is not white space, a sign or a digit is NaN |
| Strings.IntegerTextParses | src/controllers/flux.controller.ts:62 | on a signed decimal string, `parseInt` and loose equality with a number agree |
| ReadFile.HeaderName | src/configuration/readFile.ts:25 | a line is a header iff it is `[` letters `]`; the name is the letters |
| ReadFile.ElementPartsMatches | src/configuration/readFile.ts:30 | the element regex matches giving (key, value) iff the key is letters, the value is non-empty and quote-free, and the rest is the value with at most one quote on each side |
| ReadFile.StripQuotesOfQuotedForm | src/configuration/readFile.ts:30 | removing one optional quote on each side yields the value exactly for the four quoted forms |
| ReadFile.Classify | src/configuration/readFile.ts:25-46 | the tests in the source's order: a header iff the header regex matches (its letters are the name); else an element iff the element regex matches (key and value from it, the key letters); else a comment iff it starts with `;` or `#`; else unexpected |
| ReadFile.EmptyLineUnexpected | src/configuration/readFile.ts:44-46 | the empty line is not a header, an element or a comment |
| ReadFile.Step | src/configuration/readFile.ts:24-47 | one line of the loop: sections are never dropped, and a failing line reports its own 1-based number (`HeaderStep`, `ElementStep`, `CommentStep` give each case) |
| ReadFile.ParsedConfiguration | src/configuration/readFile.ts:18-52 | the result of `parseIni`; an error always names a line of the file |
| ReadFile.ParseIni | src/configuration/readFile.ts:18-52 | the loop over the lines returns the fold `ParsedConfiguration` |
| ReadFile.HeaderStep | src/configuration/readFile.ts:25-28 | a header makes its name the section and resets that section to empty |
| ReadFile.ElementStep | src/configuration/readFile.ts:30-38 | inside a section, an element stores its value under its key, overwriting an earlier one |
| ReadFile.ElementOutsideSectionStep | src/configuration/readFile.ts:31-33 | an element before any header fails, carrying its 1-based line number |
| ReadFile.ElementBeforeHeaderFails | src/configuration/readFile.ts:31-33 | a file whose first non-comment line is an element fails at that line's number |
| ReadFile.CommentStep | src/configuration/readFile.ts:41-43 | a `;` or `#` line changes nothing |
| ReadFile.UnexpectedLineFails | src/configuration/readFile.ts:44-46 | an unexpected line j makes the whole parse fail at or before line j+1; when the lines before it parse, the error is exactly `Unexpected line j+1` with its text |
| ReadFile.EmptyLineFails | src/configuration/readFile.ts:22 | a blank separator line makes the parse fail |
| ReadFile.TrailingNewlineFails | src/configuration/readFile.ts:22 | a file ending in a newline never parses |
| ReadFile.EmptyFileFails | src/configuration/readFile.ts:22 | the empty file fails at line 1 |
| ReadFile.ParseLinesLetterKeys | src/configuration/readFile.ts:30-38 | every key the parse stores is made of letters |
| ReadFile.ParsedKeysAreLetters | src/configuration/readFile.ts:30 | no parsed section ever holds `access_password` |
| ReadFile.ValueAt | src/configuration/readFile.ts:56-62 | the path lookup is defined iff the section and the key exist |
| ReadFile.SetEnv | src/configuration/readFile.ts:54-70 | a defined variable is untouched; otherwise the value or the default is written, and the error is raised iff an allowed list omits the written value |
| ReadFile.TrySetEnv | src/configuration/readFile.ts:54-70 | the new `process.env` and the error are those of `SetEnv` on the old one |
| ReadFile.ConfigurationUpdate | src/configuration/readFile.ts:84-96 | no file: nothing written or thrown; a file that does not parse: nothing written and the parser's own error thrown; a set-up without error defines ACCESS_PASSWORD, ENV and JWT_SECRET |
| ReadFile.SetConfiguration | src/configuration/readFile.ts:84-96 | the new `process.env` and the error are those of `ConfigurationUpdate` (no file: nothing changes) |
| ReadFile.AccessPasswordAlwaysDefault | src/configuration/readFile.ts:92 | with ACCESS_PASSWORD unset, reading any file sets it to '' |
| ReadFile.MissingEnvironmentRejected | src/configuration/readFile.ts:93 | with ENV unset and no `general.environment`, the default 'ENV' is written and rejected |
| ReadFile.EnvironmentAllowedAfterSuccess | src/configuration/readFile.ts:93 | after a successful set-up from ENV unset, ENV is PROD or DEV |
| ReadFile.ConfigurationKeepsDefined | src/configuration/readFile.ts:55 | a defined variable keeps its value; variables other than the three are never written |
| JwtConstants.Lookup | src/modules/auth/constants.ts:15 | `process.env[name]` is defined iff the name is in the environment |
| JwtConstants.GetJwtConstants | src/modules/auth/constants.ts:8-31 | development gives JWT_SECRET when set and non-empty, else the fixed secret; PROD throws on '' and otherwise uses JWT_SECRET verbatim, unset included; any other ENV throws |
| JwtConstants.DependsOnTwoVariables | src/modules/auth/constants.ts:8-31 | the result depends on ENV and JWT_SECRET only |
| JwtConstants.UndefinedSecretOnlyInProduction | src/modules/auth/constants.ts:22-26 | the secret is undefined exactly in production with JWT_SECRET unset |
| JwtConstants.ProductionFileWithoutSecretThrows | src/modules/auth/constants.ts:22-25 | a PROD file without `secret` leads getJwtConstants to throw |
| JwtConstants.DevelopmentFileWithoutSecretUsesFallback | src/modules/auth/constants.ts:19-21 | a DEV file without `secret` leads to the fixed development secret |
| AuthService.SignIn | src/services/auth/auth.service.ts:18-30 | unset password: TypeError; accepted iff the stored value is '' or hash(pass); rejection is Unauthorized; the token signs `{sub:'user'}` at the time of the call |
| AuthService.EmptyPasswordAcceptsAll | src/services/auth/auth.service.ts:20-21 | an empty stored value accepts every pass |
| AuthService.ClearTextPasswordRejected | src/services/auth/auth.service.spec.ts:41-49 | storing the clear text 'password' rejects the pass 'password' |
| AuthService.DigestAccepted | src/services/auth/auth.service.spec.ts:51-59 | storing hash(pass) accepts that pass |
| AuthGuard.ExtractTokenFromHeader | src/guards/auth/auth.guard.ts:43-46 | a token iff the header exists, has a second space-separated field, and its first is exactly `Bearer`; the token is that second field |
| AuthGuard.BearerRoundTrip | src/guards/auth/auth.guard.ts:43-46 | `Bearer <token>` yields the token back |
| AuthGuard.OtherSchemeRejected | src/guards/auth/auth.guard.ts:45 | any other scheme, `bearer` included, yields no token |
| AuthGuard.NoTokenWithoutSecondField | src/guards/auth/auth.guard.ts:44-45 | a missing header and the bare `Bearer` yield no token |
| AuthGuard.Decide | src/guards/auth/auth.guard.ts:16-41 | open iff ACCESS_PASSWORD is ''; otherwise admitted iff the Bearer token is non-empty, the secret is available and the token verifies under it at the current time, and then with the verified payload |
| AuthGuard.CanActivate | src/guards/auth/auth.guard.ts:16-41 | never returns false; fails iff `Decide` rejects at that time; stores the payload in `request.user` exactly when admitted |
| AuthGuard.MissingTokenRejected | src/guards/auth/auth.guard.ts:24-26 | with a password configured, a missing or empty token is rejected |
| AuthGuard.SignInThenGuardAdmits | src/guards/auth/auth.guard.ts:27-40 | a token from a successful sign-in, sent as Bearer within its 60-second lifetime, admits the request as `{sub:'user'}` |
| AuthGuard.ExpiredTokenRejected | src/modules/auth/auth.module.ts:13 | a token from a successful sign-in, sent 60 seconds or more after it was issued, is rejected |
| FeedEmitter.WithoutFeed | src/rssFeed/manager/feedManager.ts:18 | the entries kept are exactly those not for that url and event name |
| FeedEmitter.WithoutFirstUrl | src/rssFeed/manager/feedManager.ts:46 | one entry fewer when the url is present, the list itself when it is not |
| FeedEmitter.WithoutFirstUrlMembers | src/rssFeed/manager/feedManager.ts:46 | with unique urls, removal drops exactly the url's entry |
| FeedEmitter.WithoutFirstUrlUnique | src/rssFeed/manager/feedManager.ts:46 | removal keeps urls unique |
| FeedEmitter.WithoutFeedUnique | src/rssFeed/manager/feedManager.ts:18 | replacement keeps urls unique |
| FeedEmitter.AppendFresh | src/rssFeed/manager/feedManager.ts:18 | appending a new url keeps urls unique |
| FeedEmitter.Attached | src/rssFeed/manager/feedManager.ts:57 | attaching appends to that event's listeners and leaves the other events alone |
| FeedEmitter.AttachedTwice | src/rssFeed/manager/feedManager.ts:37-39 | attaching two lists in turn attaches their concatenation |
| FeedManager.IsFeed | src/rssFeed/manager/feedManager.ts:60-74 | a failed GET is an error; otherwise true iff the document's `rss` root has version 2.0 |
| FeedManager.LooselyEqualsTwo | src/rssFeed/manager/feedManager.ts:73 | `== 2.0` on a parsed attribute: the number 2, or a text whose ToNumber conversion is 2; booleans compare as 0 or 1 and never pass |
| FeedManager.IsRss2 | src/rssFeed/manager/feedManager.ts:71-73 | the document has an `rss` root whose `version` attribute is the number 2 or a text that converts to 2 |
| FeedManager.FeedGate | src/rssFeed/manager/feedManager.ts:9-11 | passes iff the GET succeeds and the document is RSS 2.0; a non-feed gives FeedParseError |
| FeedManager.NonRssRootRejected | src/rssFeed/manager/feedManager.ts:71-73 | a page without an `rss` root is rejected with FeedParseError |
| FeedManager.TextVersionAccepted | src/rssFeed/manager/feedManager.ts:71-73 | a `version` left as text passes the check iff it converts to 2 |
| FeedManager.RefreshOf | src/rssFeed/manager/feedManager.ts:15 | `refreshTime \|\| 200`: the given interval when present and non-zero, 200 otherwise; never 0 |
| FeedManager.SomeUrl | src/rssFeed/manager/feedManager.ts:77 | true iff some entry has the url |
| FeedManager.FeedManager.IsKnownFeed | src/rssFeed/manager/feedManager.ts:76-78 | true iff some registered feed has the url |
| FeedManager.FeedManager.AddFeed | src/rssFeed/manager/feedManager.ts:8-19 | on failure nothing changes; on success one entry `{url, refreshTime or 200, url}` replaces any earlier one; urls stay unique |
| FeedManager.FeedManager.RemoveFeed | src/rssFeed/manager/feedManager.ts:42-47 | the url is unregistered and no other is; an unknown url changes nothing; listeners stay |
| FeedManager.FeedManager.OnNewItem | src/rssFeed/manager/feedManager.ts:53-58 | the listener is appended to the url's list, known or not; nothing else changes |
| FeedManager.FeedManager.UpdateFeed | src/rssFeed/manager/feedManager.ts:21-40 | a non-feed new url changes nothing; otherwise the old url is unregistered, the new one registered with interval 200, and the listeners are `Reattached` |
| FeedManager.FeedManager.AttachAll | src/rssFeed/manager/feedManager.ts:37-39 | the loop attaches every listener, in order |
| FeedManager.Reattached | src/rssFeed/manager/feedManager.ts:30-39 | the new url's listeners are its own followed by the old url's; every other event keeps its own |
| FeedManager.SelfUpdateDoublesListeners | src/rssFeed/manager/feedManager.ts:30-39 | moving a url to itself doubles its listeners |
| FeedManager.OldListenersStay | src/rssFeed/manager/feedManager.ts:33 | the old url's listeners are not detached |
| FeedManager.FeedManager.Destroy | src/rssFeed/manager/feedManager.ts:49-51 | no feed stays registered |
| Stores.BoundWebhooks | src/services/hooks.service.ts:35-44 | exactly the webhooks bound to the flux |
| Stores.WithoutWebhooks | src/services/hooks.service.ts:46-60 | exactly the bindings not of those webhooks to the flux |
| Stores.Unbound | src/controllers/flux.controller.ts:70-72 | exactly the bindings of the other fluxes |
| Stores.BindingsPartition | src/services/hooks.service.ts:35-44 | a flux's bindings and the others make up the table |
| Stores.UnbindNone | src/controllers/flux.controller.ts:70-72 | unbinding nothing keeps the table |
| Stores.UnbindOneMore | src/controllers/flux.controller.ts:71-72 | unbinding one more webhook from what is left |
| Stores.UnbindAllBound | src/controllers/flux.controller.ts:70-72 | unbinding every bound webhook leaves exactly the other fluxes' bindings |
| Stores.WithoutWebhooksLength | src/services/hooks.service.ts:46-60 | the table changes iff some binding matched |
| Stores.ArticlesOf | src/services/articles.service.ts:22-29 | exactly the flux's articles |
| Stores.ArticlesNotOf | src/services/articles.service.ts:69-77 | exactly the other fluxes' articles |
| Stores.ArticlesPartition | src/services/articles.service.ts:69-77 | the count removed plus the rows kept is the table size |
| Stores.ArticleIds | src/controllers/flux.controller.ts:77-78 | defined as the set of the articles' ids; the reference the delete loop is proved against |
| Stores.DeliveriesNotOf | src/services/deliveries.service.ts:62-70 | defined as the deliveries whose article id is not in the set: what the `deleteMany` calls keep, the reference the delete loop is proved against |
| Stores.DeliveriesToMembers | src/controllers/flux.controller.ts:136-137 | the deliveries the loop records are exactly one per webhook of the list, for that article, and none to any other webhook |
| Stores.WebhookIds | src/controllers/flux.controller.ts:71-72 | defined as the set of the webhooks' ids; the reference the unbind loop is proved against |
| Stores.Store.GetFlux | src/services/flux.service.ts:13-17 | the flux with that id, or null |
| Stores.Store.CreateFlux | src/services/flux.service.ts:19-23 | a flux under a fresh id; nothing else changes |
| Stores.Store.DeleteFlux | src/services/flux.service.ts:25-29 | removes and returns the flux; an error when there is none |
| Stores.Store.UpdateFlux | src/services/flux.service.ts:31-36 | gives the flux the new url; an error when there is none |
| Stores.Store.GetHooks | src/services/hooks.service.ts:35-44 | `BoundWebhooks` of the table |
| Stores.Store.DeleteHook | src/services/hooks.service.ts:46-60 | removes the binding; false iff there was none |
| Stores.Store.GetArticlesSentBy | src/services/articles.service.ts:22-29 | `ArticlesOf` of the table |
| Stores.Store.CreateArticle | src/services/articles.service.ts:39-48 | an article under a fresh id, appended |
| Stores.Store.DeleteArticlesOf | src/services/articles.service.ts:69-77 | removes the flux's articles and returns their number |
| Stores.Store.CreateDelivery | src/services/deliveries.service.ts:15-22 | records the (article, webhook) pair |
| Stores.Store.DeleteDeliveriesOf | src/services/deliveries.service.ts:62-70 | removes the article's deliveries and returns their number |
| FluxController.EventName | src/controllers/flux.controller.ts:39 | the event is `flux` followed by the id |
| FluxController.EventNameInjective | src/controllers/flux.controller.ts:39 | distinct fluxes have distinct events |
| FluxController.IdGiven | src/controllers/flux.controller.ts:59 | `request.body.id` is truthy: present, not the number 0, not the empty string (also used at line 94) |
| FluxController.UrlGiven | src/controllers/flux.controller.ts:26 | `request.body.url` is present and not empty (also used at line 96) |
| FluxController.Exists | src/controllers/flux.controller.ts:120-122 | some stored flux has an id equal to the given number |
| FluxController.ParsedId | src/controllers/flux.controller.ts:62 | a number is kept, a string goes through `parseInt`, hexadecimal included |
| FluxController.LooseId | src/controllers/flux.controller.ts:121 | the number a string id equals under `==` |
| FluxController.CreateCheck | src/controllers/flux.controller.ts:26-34 | passes iff the url is given and well formed; 'A url is required' first, then 'Wrong url' |
| FluxController.DeleteCheck | src/controllers/flux.controller.ts:59-67 | passes iff the id is given, `parseInt` reads a number from it (hexadecimal included), and that number names a flux; errors in that order |
| FluxController.UpdateCheck | src/controllers/flux.controller.ts:94-108 | 'Missing id', 'Missing url', 'Wrong id', 'Wrong url' in that order; a text id is then refused when the flux is read |
| FluxController.DeleteRejectsBadIds | src/controllers/flux.controller.spec.ts:130-152 | 'abc' is not a number; -1 and '-1' name no flux |
| FluxController.UpdateRejectsBadIds | src/controllers/flux.controller.spec.ts:211-249 | 'abc' without url lacks the url; '-1' names no flux |
| FluxController.DeleteAcceptsDecimalText | src/controllers/flux.controller.ts:62-67 | the decimal text of an existing id deletes that flux |
| FluxController.DeleteAcceptsHexText | src/controllers/flux.controller.ts:62-67 | `0x` followed by the hexadecimal digits of an existing id deletes that flux |
| FluxController.UpdateRejectsDecimalText | src/controllers/flux.controller.ts:99-108 | the decimal text of an existing id passes every check and is then refused by the store |
| FluxController.MessageOf | src/controllers/flux.controller.ts:140-149 | one rich embed with the item's title, description and link |
| FluxController.Fanout | src/controllers/flux.controller.ts:136-154 | one POST attempt per webhook, in order, each with its own outcome |
| FluxController.FluxController.Create | src/controllers/flux.controller.ts:24-50 | a failed check changes nothing; otherwise a fresh flux, its feed under `flux<id>` with refresh 2000, and one listener for it |
| FluxController.FluxController.Delete | src/controllers/flux.controller.ts:57-90 | a failed check changes nothing; otherwise the flux, its bindings, its articles and their deliveries are gone, and its url's first feed is dropped |
| FluxController.FluxController.UnbindAll | src/controllers/flux.controller.ts:70-72 | the loop leaves exactly the other fluxes' bindings |
| FluxController.FluxController.DeleteDeliveriesOfArticles | src/controllers/flux.controller.ts:75-78 | the loop removes exactly the deliveries of the flux's articles |
| FluxController.FluxController.Update | src/controllers/flux.controller.ts:92-118 | a failed check changes nothing; otherwise the old url's feed is dropped, the new url registered under the same event, listeners kept, and the flux gets the new url |
| FluxController.FluxController.HandleNewItem | src/controllers/flux.controller.ts:124-156 | one new article from the item; one delivery and one POST per bound webhook, in order, a failed POST not stopping the rest |
| FluxController.FluxController.Deliver | src/controllers/flux.controller.ts:136-154 | the loop adds one delivery of the article per webhook to the table, leaves the other tables alone, and returns one POST attempt per webhook in list order, a failed POST not stopping it |

## Left out

- Feed polling: the timers, first-load skipping and new-item detection of
  rss-feed-emitter are left out. The emitter is its feed list and listener
  table. Its `add` (replace same url and event, then append), `remove`
  (first entry with the url) and `on` (append) follow the library's
  documented behaviour, which is not part of this model.
- `isFeed` is modelled on the parsed document. The XML parser and its
  attribute coercion sit behind `fetch`, and so does the GET. The string
  to number conversion of JavaScript (ToNumber, with its rounding to
  doubles) is the parameter `toNumber`.
  `FeedManager.FeedManager.UpdateFeed` assumes that the second fetch of
  the same URL gives the same document.
- File reading in `setConfiguration` is left out: `existsSync` and
  `readFileSync` become an optional string. Logging (`log`,
  `console.log`) is left out as well.
- SHA-256, JWT signing and verification, and the `URL` constructor are
  function parameters.
- The clock is a parameter too: `sign` receives the time of the sign-in
  and `verify` the time of the request. The `iat` and `exp` claims the
  signer adds are not modelled. Expiry after the 60 seconds set in
  `src/modules/auth/auth.module.ts:13` is an assumption of
  `AuthGuard.SignInThenGuardAdmits` and `AuthGuard.ExpiredTokenRejected`
  about `verify`.
- Numbers are exact integers. `parseInt` on more than 53 bits of digits
  gives a rounded double in JavaScript; the model keeps the exact value.
- The webhook POST is a function parameter. Two webhooks with the same url
  therefore get the same outcome for the same body.
- `FluxController.FluxController.HandleNewItem`: `createDelevery` is not
  awaited in the source. The model makes it sequential, and a repeated
  (article, webhook) pair stays a single row.
- `FluxController.LooseId`: only the forms sign-plus-digits are read as
  numbers. `==` would also accept surrounding blanks, hexadecimal,
  fractions and exponents, which the model treats as unequal.
- Request ids are integers or strings. Fractional
  numbers, booleans, objects and NaN are not modelled.
- `FluxController.FluxController.Update` always succeeds once its checks
  pass. The database schema is not part of this model, so a unique
  constraint on the flux url is not either. If the store refused the new
  url, the source would already have moved the feed (lines 110-115) before
  `updateFlux` (line 117) throws. `FluxController.FluxController.Create`,
  `Stores.Store.CreateFlux` and `Stores.Store.UpdateFlux` likewise never
  refuse a url.
- `FluxController.FluxController.Delete`: the store refusing a delete
  (foreign keys, concurrent removal) is not modelled. The id was checked
  just before, and nothing else acts on the store in between.
- Concurrency between requests, and between requests and poll ticks, is
  left out. Every operation runs to completion.
- The other controllers, the DTO validators, the exception filters and the
  framework wiring are not part of this model.
