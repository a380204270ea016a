# WEKO sequential helpers, modelled in Dafny

This project models three small pieces of sequential logic from the WEKO
repository and proves properties about them.

- **OAI-PMH harvester helpers** (`invenio_oaiharvester/utils.py`): the
  `ItemEvents` codes, `chunks`, `write_to_dir` with each file stood for by its
  text, `get_identifier_names`, and the default-port rule of `analyze_url`
  applied to components that are already parsed.
- **Statistics report page** of the admin panel (`weko_admin/.../stats_report.js`):
  - the download button's validation;
  - the `uriByType` table and the request URLs;
  - the four synchronous requests of an 'all' report and the partial-failure rule;
  - the single-type request;
  - `setStatsReportSubmit`;
  - the e-mail rows appended by `moreEmail` and removed by their remove control.
- **Workflow step iframe** (`weko_workflow/.../iframe_pop.js`): the POST each of
  the finish and draft buttons sends, and how the reply or transport error is
  dispatched to navigation or to the modal.

## Files

| file | contents |
|---|---|
| `wrappers.dfy` | `Option` and `Result`. |
| `text.dfy` | Character splitting and joining. Trimming over a whitespace predicate, because Python's `str.strip` and JavaScript's `String.prototype.trim` remove different sets. |
| `json.dfy` | What `JSON.stringify` writes for strings and flat objects. |
| `oai_utils.dfy` | Module `OaiUtils`, modelling `utils.py`. |
| `stats_report.dfy` | Module `StatsReport`, modelling `stats_report.js`. |
| `iframe_pop.dfy` | Module `WorkflowAction`, modelling `iframe_pop.js`. |

## Parameters and simplifications

- **The server is a parameter.** In `StatsReport` it is `fetch: string -> Option<string>`. It maps a URL to the text `JSON.stringify` writes for the value the success callback receives, or to None when the request fails. Requests run with `async: false`, so each click runs them to completion one after another.
- **The iframe's reply is a value.** In `WorkflowAction` it is a `Response`: either a transport error, or a reply `{code, msg?, data?: {redirect?}}`.
- **Page state is held in classes.** `ReportPage`, `EmailList` and `StepFrame` hold the state the handlers change:
  - the hidden field and the form submissions;
  - the alerts raised;
  - the GET URLs sent;
  - the error modal count;
  - the e-mail rows;
  - the parent location and the modal text.
- **Loops.** `utils.py`'s `chunks` and `write_to_dir` are loops in the source, so they are methods with loop invariants. Each is proved against the function `ChunksOf` or `FileContent`.

## Behaviour worth noting

- **Row ids.** `moreEmail` gives every row it adds the same element id `emailID` (stats_report.js:159) and keeps no row counter.
- **Which row is removed.** Every remove control runs `$('#emailID').remove()` (stats_report.js:166). That removes the first `emailID` element in the document, not the row that was clicked. `StatsReport.RemoveAfterAdds` and `StatsReport.RemoveIgnoresClickedRow` state this behaviour.

## Model

| member | source | states |
|---|---|---|
| OaiUtils.EventOf | modules/invenio-oaiharvester/invenio_oaiharvester/utils.py:48-55 | Looking up an event by value succeeds exactly for 0, 1, 2, 3 and 9. |
| OaiUtils.EventValueRoundTrip | modules/invenio-oaiharvester/invenio_oaiharvester/utils.py:48-55 | Every member is found again by its value. A value finds a member exactly when it is that member's value. |
| OaiUtils.Chunks | modules/invenio-oaiharvester/invenio_oaiharvester/utils.py:214-221 | A size that is negative or above `sys.maxsize` (`PY_SSIZE_T_MAX`) fails, as `islice` raises ValueError for either, even on empty input. Otherwise the loop yields exactly `ChunksOf(xs, size)`, the function the lemmas below are about. |
| OaiUtils.FlattenChunks | modules/invenio-oaiharvester/invenio_oaiharvester/utils.py:214-221 | About `ChunksOf`: for size ≥ 1, concatenating the chunks gives back the input in order. |
| OaiUtils.ChunkShape | modules/invenio-oaiharvester/invenio_oaiharvester/utils.py:218-221 | There are no chunks exactly when the input is empty or the size is 0. Every chunk holds 1 to size elements, and all but the last hold exactly size. |
| OaiUtils.ChunkCount | modules/invenio-oaiharvester/invenio_oaiharvester/utils.py:216-221 | For size ≥ 1 the number of chunks n satisfies (n-1)·size < len(xs) ≤ n·size, which makes n the ceiling of len(xs)/size. |
| OaiUtils.ChunkAt | modules/invenio-oaiharvester/invenio_oaiharvester/utils.py:216-221 | Chunk i is the slice from i·size to min(i·size+size, len(xs)). |
| OaiUtils.WriteToDir | modules/invenio-oaiharvester/invenio_oaiharvester/utils.py:224-249 | See the list after this table. |
| OaiUtils.WriteChunks | modules/invenio-oaiharvester/invenio_oaiharvester/utils.py:239-248 | The loop over the chunks writes one file text per chunk, the chunk's `FileContent`, and counts every record of every chunk. |
| OaiUtils.WriteChunk | modules/invenio-oaiharvester/invenio_oaiharvester/utils.py:243-247 | One file's text is `<ListRecords>`, then the chunk's raws in order, then `</ListRecords>`. One record is counted per raw written. |
| OaiUtils.StripEach | modules/invenio-oaiharvester/invenio_oaiharvester/utils.py:154 | The comprehension keeps the length and strips each element in place. |
| OaiUtils.GetIdentifierNames | modules/invenio-oaiharvester/invenio_oaiharvester/utils.py:149-155 | See the list after this table. |
| OaiUtils.IdentifierNamesRoundTrip | modules/invenio-oaiharvester/invenio_oaiharvester/utils.py:152-154 | Comma-free names without surrounding whitespace, joined with commas, parse back to the same list. |
| OaiUtils.IdentifierNamesOfJoin | modules/invenio-oaiharvester/invenio_oaiharvester/utils.py:152-154 | Any comma-free parts, padded or not, joined with commas parse to the parts each stripped. |
| OaiUtils.IdentifierNamesStripPadding | modules/invenio-oaiharvester/invenio_oaiharvester/utils.py:152-154 | `' a ,b '` gives `['a', 'b']` for names without surrounding whitespace: the padding around each part is dropped. |
| OaiUtils.IdentifierNamesOfList | modules/invenio-oaiharvester/invenio_oaiharvester/utils.py:154 | `[' a', 'b ']` gives `['a', 'b']`. |
| OaiUtils.IdentifierNamesOfEmpty | modules/invenio-oaiharvester/invenio_oaiharvester/utils.py:152-154 | `''` gives `['']`. |
| OaiUtils.IdentifierNamesKeepEmptyPart | modules/invenio-oaiharvester/invenio_oaiharvester/utils.py:152-154 | `'a,,b'` gives `['a', '', 'b']`, keeping the empty middle entry. |
| OaiUtils.AnalyzeUrl | modules/invenio-oaiharvester/invenio_oaiharvester/utils.py:252-258 | Scheme and host pass through. https with a missing port (or port 0, which `not port` also accepts) gets 443. Every other port, missing or not, is unchanged, so no default of 80 is added. |
| OaiUtils.AnalyzeUrlIdempotent | modules/invenio-oaiharvester/invenio_oaiharvester/utils.py:255-257 | Applying the rule twice equals applying it once. An https result always has a non-zero port. |
| Text.Split | modules/invenio-oaiharvester/invenio_oaiharvester/utils.py:153 | `split(',')` gives one more part than there are commas, and no part contains a comma. |
| Text.JoinSplit | modules/invenio-oaiharvester/invenio_oaiharvester/utils.py:153 | Joining the parts of a split with the separator gives back the string. |
| Text.SplitJoin | modules/invenio-oaiharvester/invenio_oaiharvester/utils.py:153 | Splitting a join of at least one separator-free part gives back the parts. |
| Text.TrimStartShape | modules/invenio-oaiharvester/invenio_oaiharvester/utils.py:154 | Trimming the front keeps a suffix. It drops only whitespace and stops at a non-whitespace character. |
| Text.TrimEndShape | modules/invenio-oaiharvester/invenio_oaiharvester/utils.py:154 | Trimming the end keeps a prefix. It drops only whitespace and stops at a non-whitespace character. |
| Text.Trim | modules/invenio-oaiharvester/invenio_oaiharvester/utils.py:154 | The result is empty or starts and ends with a non-whitespace character. |
| Text.TrimSlice | modules/invenio-oaiharvester/invenio_oaiharvester/utils.py:154 | The trimmed string is the slice of the input between an all-whitespace prefix and an all-whitespace suffix. |
| Text.TrimAbsent | modules/invenio-oaiharvester/invenio_oaiharvester/utils.py:154 | Trimming cannot introduce a character that the input lacks. |
| Text.TrimPadded | modules/weko-workflow/weko_workflow/static/js/weko_workflow/iframe_pop.js:24 | Whitespace, then a core with non-whitespace ends, then whitespace, trims to exactly that core. |
| Text.TrimIdempotent | modules/invenio-oaiharvester/invenio_oaiharvester/utils.py:154 | Trimming twice equals trimming once. |
| Json.EscapeChar | modules/weko-admin/weko_admin/static/js/weko_admin/stats_report.js:144 | A character's escape inside a JSON string literal is 1 to 6 characters long. |
| Json.Quote | modules/weko-admin/weko_admin/static/js/weko_admin/stats_report.js:144 | A quoted string starts and ends with a double quote. |
| Json.UnescapeEscape | modules/weko-admin/weko_admin/static/js/weko_admin/stats_report.js:144 | Reading back the escaped text of any string gives that string, so the quoting loses nothing. |
| Json.ObjectText | modules/weko-admin/weko_admin/static/js/weko_admin/stats_report.js:144 | The text of an object is enclosed in braces. |
| Json.MembersAppend | modules/weko-admin/weko_admin/static/js/weko_admin/stats_report.js:144 | Adding a property appends `,"key":value` after the earlier members, whose text is unchanged. |
| StatsReport.Validate | modules/weko-admin/weko_admin/static/js/weko_admin/stats_report.js:7-13 | There is no alert exactly when year and month are both chosen. Year 'Year' gives "Year is required!". Otherwise month 'Month' gives "Month is required!". |
| StatsReport.ValidationBlocksRequests | modules/weko-admin/weko_admin/static/js/weko_admin/stats_report.js:3-13 | A placeholder year or month gives exactly its one alert, no request and no submission. Otherwise there is no alert and at least one request. |
| StatsReport.PathSegments | modules/weko-admin/weko_admin/static/js/weko_admin/stats_report.js:14-19 | `file_download` and `file_preview` map to themselves. `detail_view` maps to `report/record/record_view`, and `file_using_per_user` maps to `report/file/file_using_per_user`. Any other type reads as "undefined". |
| StatsReport.PlanShape | modules/weko-admin/weko_admin/static/js/weko_admin/stats_report.js:19-79 | About `PlanRequests`; see the list after this table. |
| StatsReport.Put | modules/weko-admin/weko_admin/static/js/weko_admin/stats_report.js:33-35 | A new key is appended last. An existing key keeps its place and the key order, takes the new value, and leaves the other entries unchanged. |
| StatsReport.AllPlanDistinct | modules/weko-admin/weko_admin/static/js/weko_admin/stats_report.js:24-27 | The four keys of an 'all' plan are pairwise distinct. |
| StatsReport.CollectDistinct | modules/weko-admin/weko_admin/static/js/weko_admin/stats_report.js:23-79 | With fresh, distinct keys, the callbacks append exactly the successful results, in request order. |
| StatsReport.SucceededCount | modules/weko-admin/weko_admin/static/js/weko_admin/stats_report.js:23-79 | Successes plus failures equal the number of requests. |
| StatsReport.SucceededAll | modules/weko-admin/weko_admin/static/js/weko_admin/stats_report.js:23-79 | When every request succeeds, the bundle holds every request's key, in order. |
| StatsReport.AllSubmitsSuccesses | modules/weko-admin/weko_admin/static/js/weko_admin/stats_report.js:23-80 | About `ClickEffect`; see the list after this table. |
| StatsReport.AllSucceedFourKeys | modules/weko-admin/weko_admin/static/js/weko_admin/stats_report.js:23-80 | If all four requests succeed, the submitted keys are the four type names in order, not the path segments, and no error modal is shown. |
| StatsReport.SingleTypeSubmission | modules/weko-admin/weko_admin/static/js/weko_admin/stats_report.js:81-95 | A single type issues the table's URL once. Success submits a bundle whose only key is the type. Failure shows one error modal and submits nothing. |
| StatsReport.AllUnrolled | modules/weko-admin/weko_admin/static/js/weko_admin/stats_report.js:23-80 | The 'all' URLs, failures and bundle are the four requests applied one after another. |
| StatsReport.ReportPage.SetStatsReportSubmit | modules/weko-admin/weko_admin/static/js/weko_admin/stats_report.js:143-147 | The bundle's JSON text is submitted once, and the field is left empty. |
| StatsReport.ReportPage.Get | modules/weko-admin/weko_admin/static/js/weko_admin/stats_report.js:28-39 | One GET is logged. Its error callback shows the error modal once. |
| StatsReport.ReportPage.Send | modules/weko-admin/weko_admin/static/js/weko_admin/stats_report.js:28-39 | One request of the 'all' branch: the success callback stores the result under the request's key, and the error callback shows the modal. |
| StatsReport.ReportPage.DownloadAll | modules/weko-admin/weko_admin/static/js/weko_admin/stats_report.js:23-80 | The four GETs are logged in plan order with one error modal per failure, followed by one submission of the collected bundle. |
| StatsReport.ReportPage.DownloadOne | modules/weko-admin/weko_admin/static/js/weko_admin/stats_report.js:81-95 | One GET. The bundle is submitted only if the GET succeeds. |
| StatsReport.ReportPage.DownloadReport | modules/weko-admin/weko_admin/static/js/weko_admin/stats_report.js:3-96 | The page's alerts, requests, error modals, submissions and field change exactly as `ClickEffect`, the function the click lemmas are about, says. |
| StatsReport.FirstWithIdSpec | modules/weko-admin/weko_admin/static/js/weko_admin/stats_report.js:166 | A found row carries the id and no earlier row does. None means no row carries the id. |
| StatsReport.FirstWithIdPrefix | modules/weko-admin/weko_admin/static/js/weko_admin/stats_report.js:166 | The first match in a concatenation lies in the first part when that part has one, and is shifted into the second part otherwise. |
| StatsReport.EmailList.AddEmail | modules/weko-admin/weko_admin/static/js/weko_admin/stats_report.js:156-172 | Exactly one fresh `emailID` row is appended at the end, and the earlier rows are unchanged. |
| StatsReport.EmailList.RemoveEmail | modules/weko-admin/weko_admin/static/js/weko_admin/stats_report.js:166 | The rows become `RemoveFirst` of the old rows: the first `emailID` row in document order is removed, or nothing when there is none. |
| StatsReport.EmailList.SaveEmail | modules/weko-admin/weko_admin/static/js/weko_admin/stats_report.js:103-104 | The form is submitted once with every row's value, in order, and the rows are unchanged. |
| StatsReport.AddRowsShape | modules/weko-admin/weko_admin/static/js/weko_admin/stats_report.js:156-172 | n additions keep the old rows as a prefix and add n `emailID` rows. |
| StatsReport.RemoveAfterAdds | modules/weko-admin/weko_admin/static/js/weko_admin/stats_report.js:156-172 | About `RemoveFirst`; see the list after this table. |
| StatsReport.RemoveIgnoresClickedRow | modules/weko-admin/weko_admin/static/js/weko_admin/stats_report.js:166 | Of two rows, removing leaves the second row whichever control was clicked. |
| WorkflowAction.ButtonsDifferOnlyInFlag | modules/weko-workflow/weko_workflow/static/js/weko_workflow/iframe_pop.js:6-48 | About `BuildPost` and `PayloadText`; see the list after this table. |
| WorkflowAction.DispatchOutcomes | modules/weko-workflow/weko_workflow/static/js/weko_workflow/iframe_pop.js:19-39 | About `Dispatch`; see the list after this table. |
| WorkflowAction.DefaultRedirectTrims | modules/weko-workflow/weko_workflow/static/js/weko_workflow/iframe_pop.js:23-26 | The default target is `/workflow/activity/detail/` plus the activity id with its surrounding whitespace removed. |
| WorkflowAction.DispatchExamples | modules/weko-workflow/weko_workflow/static/js/weko_workflow/iframe_pop.js:19-39 | Each of the source's branches on a concrete reply and on a transport error. |
| WorkflowAction.StepFrame.Click | modules/weko-workflow/weko_workflow/static/js/weko_workflow/iframe_pop.js:6-18 | One POST is sent to the step's next URI with the JSON text of the button's payload. Nothing else changes. |
| WorkflowAction.StepFrame.OnResponse | modules/weko-workflow/weko_workflow/static/js/weko_workflow/iframe_pop.js:19-39 | State changes as `Dispatch` says; see the list after this table. |

Rows marked "See the list after this table" state the following.

- **OaiUtils.WriteToDir**:
  - empty records give `([], 0)` before the size is looked at;
  - otherwise a size that is negative or above `sys.maxsize` fails;
  - on success there is one file text per chunk;
  - the total is the number of records chunked;
  - for 1 ≤ size ≤ `sys.maxsize` the total is `len(records)` and the number of files is the ceiling of `len(records)/size`.
  - the size a caller leaves out is `OaiUtils.DEFAULT_MAX_RECORDS`, 1000.
- **OaiUtils.GetIdentifierNames**:
  - None gives `[]`;
  - a list keeps its length and is stripped elementwise;
  - a string gives one name per comma plus one, name i being part i of `split(',')` stripped, and no name contains a comma;
  - no name begins or ends with whitespace.
- **StatsReport.PlanShape**:
  - each request fetches the table's URL for its own key;
  - 'all' plans the four types in their fixed order;
  - any other type plans one request under its own name.
- **StatsReport.AllSubmitsSuccesses**. A validated 'all' click:
  - issues the four URLs;
  - submits once, whatever fails;
  - submits exactly the successful types, in order and with their responses;
  - shows one error modal per failure.
- **StatsReport.RemoveAfterAdds**: after n ≥ 1 additions, a removal leaves one row fewer. The row removed is the first original `emailID` row. If no original row has that id, the first added row goes.
- **WorkflowAction.ButtonsDifferOnlyInFlag**:
  - both buttons post to `next-uri`;
  - their payloads agree except `temporary_save`, which is 0 for finish and 1 for draft;
  - their JSON texts differ only in that digit before the closing brace.
- **WorkflowAction.DispatchOutcomes**:
  - the parent navigates exactly when the reply has code 0;
  - it navigates to the redirect if there is one, and otherwise to the default page;
  - a non-zero code shows `msg`;
  - a transport error shows "Server Error".
- **WorkflowAction.StepFrame.OnResponse**:
  - the state changes exactly as `Dispatch` says;
  - navigation leaves the modal alone;
  - a modal leaves the location alone and is shown once;
  - a missing `msg` keeps the old modal text, because `.html(undefined)` does not write.

## Left out

- **lxml extraction.** The XML extraction functions (`record_extraction_from_file`, `record_extraction_from_string`, `identifier_extraction_from_string`) and `REGEXP_OAI_ID` are left out. They depend on the element semantics of a foreign library.
- **Filesystem, database and configuration.** `check_or_create_dir`, `create_file_name`, the real file writes and file names of `write_to_dir`, its `encoding` argument, `get_oaiharvest_object` and `current_app.config` are left out. These are I/O and ORM calls. Each file is represented by its text.
- **Network and TLS.** `get_certificate`, `load_self_cert` and `get_verify` are sockets, handshakes and certificates.
- **URL parsing.** `urlparse` is left out. `AnalyzeUrl` starts from the parsed scheme, hostname and port.
- **Browser and jQuery plumbing.** Left out are:
  - `$.ajax` transport;
  - the display of alerts and modals;
  - `console.log`;
  - `parent.document` access;
  - the iframe height setting.

  Requests and their outcomes are values or the `fetch` parameter. Displays are counted or logged.
- **Dead code.** `IsEmpty` (it reads the non-existent `document.form`), the commented-out save and validation code, and `addAlert`'s HTML are not live behaviour.
- **Markup.** The `moreEmail` markup is not modelled. A row is its element id and its input's value.
- **Elements outside `#newEmail`.** `$('#emailID').remove()` searches the whole document. The model assumes no element with id `emailID` exists outside `#newEmail`.
- **WorkflowAction.Dispatch** compares `code` as an integer. `0 == data.code` also accepts `"0"`, `""`, `false` and `[]` under JavaScript's loose equality, and the model does not represent those.
- **StatsReport.UriByType** answers "undefined" for every type outside the table. A type naming an inherited `Object.prototype` property (such as `constructor`) would produce different text in the browser.
- **WorkflowAction.CurStep** takes `action-version` as the JSON text of the value that `.data` returns. jQuery's conversion of numeric-looking attributes to numbers is not modelled.
- **Missing `next-uri`.** A `next-uri` that is missing, where `url: undefined` posts to the current page, is not modelled. `nextUri` is always a string.
- **Lone surrogates.** A JavaScript string may hold a lone surrogate, which `JSON.stringify` writes as a `\u` escape. Dafny characters are Unicode scalar values, so such strings are not represented in `Json.Escape`, and `Json.Unescape` rejects surrogate escapes.
- **fetch's value.** jQuery parses the response body into a value before the success callback sees it, and `setStatsReportSubmit` serialises that value again. `fetch` gives the re-serialised text directly, so the parsing and the formatting of numbers and nested objects are not modelled.
- **OaiUtils.Chunks** and **OaiUtils.WriteToDir** take the size as an integer. `islice` also accepts `None` as "no stop", which would put every record in one chunk; that size is not modelled. The bound `PY_SSIZE_T_MAX` is the one of a 64-bit build.
