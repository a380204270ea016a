/**
  The statistics-report page of the admin panel (weko_admin/.../stats_report.js):
  the download button's validation, request planning and result bundle, the
  submission of that bundle through a hidden form field, and the dynamically
  extended list of notification e-mail rows.

  Requests are synchronous (`async: false`), so a click runs them one after
  another to completion; the server is the parameter `fetch`, from a URL to the
  text `JSON.stringify` writes for the value the success callback receives, or
  None when the request fails.
 */
module StatsReport {
  import opened Wrappers
  import Json

  const YEAR_PLACEHOLDER := "Year"
  const MONTH_PLACEHOLDER := "Month"
  const YEAR_REQUIRED := "Year is required!"
  const MONTH_REQUIRED := "Month is required!"
  const ALL_TYPES := "all"

  const FILE_DOWNLOAD := "file_download"
  const FILE_PREVIEW := "file_preview"
  const DETAIL_VIEW := "detail_view"
  const FILE_USING_PER_USER := "file_using_per_user"

  /** The report types an 'all' click fetches, in the order it fetches them. */
  const REPORT_TYPES: seq<string> := [FILE_DOWNLOAD, FILE_PREVIEW, DETAIL_VIEW, FILE_USING_PER_USER]

  /** The alert a click raises before any request, if any. */
  function Validate(year: string, month: string): (alert: Option<string>)
    ensures alert == None <==> year != YEAR_PLACEHOLDER && month != MONTH_PLACEHOLDER
    ensures year == YEAR_PLACEHOLDER ==> alert == Some(YEAR_REQUIRED)
    ensures year != YEAR_PLACEHOLDER && month == MONTH_PLACEHOLDER ==> alert == Some(MONTH_REQUIRED)
  {
    if year == YEAR_PLACEHOLDER then Some(YEAR_REQUIRED)
    else if month == MONTH_PLACEHOLDER then Some(MONTH_REQUIRED)
    else None
  }

  /**
    The `uriByType` table. A type missing from the object literal reads as
    `undefined`, which string concatenation writes as "undefined".
   */
  function UriByType(t: string): (segment: string)
  {
    if t == FILE_DOWNLOAD then "file_download"
    else if t == FILE_PREVIEW then "file_preview"
    else if t == DETAIL_VIEW then "report/record/record_view"
    else if t == FILE_USING_PER_USER then "report/file/file_using_per_user"
    else "undefined"
  }

  function StatsUrl(segment: string, year: string, month: string): (url: string)
  {
    "/api/stats/" + segment + "/" + year + "/" + month
  }

  /** One GET request: the bundle key its result is stored under, and its URL. */
  datatype Request = Request(key: string, url: string)

  /**
    The requests a validated click issues, in order. For 'all' the first two
    URLs are written with the type name itself, the last two through the table.
   */
  function PlanRequests(year: string, month: string, reportType: string): (rs: seq<Request>)
  {
    if reportType == ALL_TYPES then
      [ Request(FILE_DOWNLOAD, StatsUrl(FILE_DOWNLOAD, year, month)),
        Request(FILE_PREVIEW, StatsUrl(FILE_PREVIEW, year, month)),
        Request(DETAIL_VIEW, StatsUrl(UriByType(DETAIL_VIEW), year, month)),
        Request(FILE_USING_PER_USER, StatsUrl(UriByType(FILE_USING_PER_USER), year, month)) ]
    else
      [Request(reportType, StatsUrl(UriByType(reportType), year, month))]
  }

  /**
    The path segment of each known type: the two file reports map to
    themselves, the other two to their report paths.
   */
  lemma PathSegments()
    ensures UriByType(FILE_DOWNLOAD) == FILE_DOWNLOAD && UriByType(FILE_PREVIEW) == FILE_PREVIEW
    ensures UriByType(DETAIL_VIEW) == "report/record/record_view"
    ensures UriByType(FILE_USING_PER_USER) == "report/file/file_using_per_user"
    ensures forall t :: t !in REPORT_TYPES ==> UriByType(t) == "undefined"
  {
  }

  /**
    Whatever the type, every planned request fetches the table's URL for its
    own key; 'all' plans the four known types in their fixed order, any other
    type exactly one request under that type's name.
   */
  lemma PlanShape(year: string, month: string, reportType: string)
    ensures var rs := PlanRequests(year, month, reportType);
      && (forall i :: 0 <= i < |rs| ==> rs[i].url == StatsUrl(UriByType(rs[i].key), year, month))
      && (reportType == ALL_TYPES ==> |rs| == 4 && forall i :: 0 <= i < 4 ==> rs[i].key == REPORT_TYPES[i])
      && (reportType != ALL_TYPES ==> |rs| == 1 && rs[0].key == reportType)
  {
  }

  // ---------------------------------------------------------------------------
  // The result bundle

  /** `statsReports`: the object's properties in insertion order, values as JSON text. */
  type Bundle = seq<(string, string)>

  function Keys(b: Bundle): (ks: seq<string>)
    ensures |ks| == |b| && forall i :: 0 <= i < |b| ==> ks[i] == b[i].0
  {
    if b == [] then [] else [b[0].0] + Keys(b[1..])
  }

  /**
    `statsReports[key] = value`: an existing property keeps its place and
    takes the new value, a new one goes last. (JavaScript lists integer-like
    keys first, but the handler only ever stores one key, or the four fixed
    type names, none of which is integer-like.)
   */
  function Put(b: Bundle, key: string, value: string): (r: Bundle)
    ensures key !in Keys(b) ==> r == b + [(key, value)]
    ensures key in Keys(b) ==>
      && |r| == |b| && Keys(r) == Keys(b) && (key, value) in r
      && forall i :: 0 <= i < |b| && b[i].0 != key ==> r[i] == b[i]
  {
    if b == [] then [(key, value)]
    else if b[0].0 == key then [(key, value)] + b[1..]
    else
      assert key !in Keys(b) ==> key !in Keys(b[1..]) by {
        assert Keys(b) == [b[0].0] + Keys(b[1..]);
      }
      [b[0]] + Put(b[1..], key, value)
  }

  /** What the response callbacks leave in `statsReports` after `rs` ran. */
  function Collect(b: Bundle, rs: seq<Request>, fetch: string -> Option<string>): (bundle: Bundle)
    decreases |rs|
  {
    if rs == [] then b else Collect(Store(b, rs[0], fetch), rs[1..], fetch)
  }

  /** The bundle after one request's callback: its success callback stores the result. */
  function Store(b: Bundle, r: Request, fetch: string -> Option<string>): (bundle: Bundle)
  {
    match fetch(r.url)
    case Some(v) => Put(b, r.key, v)
    case None => b
  }

  function Failed(r: Request, fetch: string -> Option<string>): (n: nat)
  {
    if fetch(r.url).None? then 1 else 0
  }

  function Failures(rs: seq<Request>, fetch: string -> Option<string>): (n: nat)
  {
    if rs == [] then 0 else Failed(rs[0], fetch) + Failures(rs[1..], fetch)
  }

  function Urls(rs: seq<Request>): (us: seq<string>)
    ensures |us| == |rs| && forall i :: 0 <= i < |rs| ==> us[i] == rs[i].url
  {
    if rs == [] then [] else [rs[0].url] + Urls(rs[1..])
  }

  /**
    Everything one click on the download button does: the alerts it raises,
    the URLs it requests, how often it shows the error modal, and the bundle
    it submits, if any.
   */
  datatype Effect = Effect(alerts: seq<string>, issued: seq<string>, errorModals: nat, submitted: Option<Bundle>)

  function ClickEffect(year: string, month: string, reportType: string, fetch: string -> Option<string>): (effect: Effect)
  {
    match Validate(year, month)
    case Some(alert) => Effect([alert], [], 0, None)
    case None =>
      var rs := PlanRequests(year, month, reportType);
      var bundle := Collect([], rs, fetch);
      var submitted := if reportType == ALL_TYPES || Failures(rs, fetch) == 0 then Some(bundle) else None;
      Effect([], Urls(rs), Failures(rs, fetch), submitted)
  }

  /**
    With year or month left at its placeholder the click only alerts (the year
    is checked first); otherwise it alerts nothing and issues at least one request.
   */
  lemma ValidationBlocksRequests(year: string, month: string, reportType: string, fetch: string -> Option<string>)
    ensures year == YEAR_PLACEHOLDER ==>
      ClickEffect(year, month, reportType, fetch) == Effect([YEAR_REQUIRED], [], 0, None)
    ensures year != YEAR_PLACEHOLDER && month == MONTH_PLACEHOLDER ==>
      ClickEffect(year, month, reportType, fetch) == Effect([MONTH_REQUIRED], [], 0, None)
    ensures year != YEAR_PLACEHOLDER && month != MONTH_PLACEHOLDER ==>
      ClickEffect(year, month, reportType, fetch).alerts == [] && ClickEffect(year, month, reportType, fetch).issued != []
  {
  }

  /** The keys of ks, in order, whose request succeeded. */
  function Succeeded(rs: seq<Request>, fetch: string -> Option<string>): (b: Bundle)
  {
    if rs == [] then []
    else if fetch(rs[0].url).Some? then [(rs[0].key, fetch(rs[0].url).value)] + Succeeded(rs[1..], fetch)
    else Succeeded(rs[1..], fetch)
  }

  /** Collecting requests with distinct keys appends exactly the successes, in request order. */
  lemma {:induction false} CollectDistinct(b: Bundle, rs: seq<Request>, fetch: string -> Option<string>)
    requires forall i :: 0 <= i < |rs| ==> rs[i].key !in Keys(b)
    requires forall i, j :: 0 <= i < j < |rs| ==> rs[i].key != rs[j].key
    ensures Collect(b, rs, fetch) == b + Succeeded(rs, fetch)
    decreases |rs|
  {
    if rs != [] {
      var b' := Store(b, rs[0], fetch);
      var rest := rs[1..];
      assert Collect(b, rs, fetch) == Collect(b', rest, fetch);
      assert forall i, j :: 0 <= i < j < |rest| ==> rest[i].key != rest[j].key by {
        forall i, j | 0 <= i < j < |rest| ensures rest[i].key != rest[j].key {
          assert rest[i] == rs[i + 1] && rest[j] == rs[j + 1];
        }
      }
      assert forall i :: 0 <= i < |rest| ==> rest[i].key !in Keys(b') by {
        StoreFresh(b, rs, fetch);
      }
      CollectDistinct(b', rest, fetch);
      if fetch(rs[0].url).Some? {
        var entry := (rs[0].key, fetch(rs[0].url).value);
        assert b' == b + [entry];
        assert Succeeded(rs, fetch) == [entry] + Succeeded(rest, fetch);
        ConcatAssoc(b, [entry], Succeeded(rest, fetch));
      }
    }
  }

  /** Storing the first result of distinct-keyed requests leaves the other keys unused. */
  lemma StoreFresh(b: Bundle, rs: seq<Request>, fetch: string -> Option<string>)
    requires rs != []
    requires forall i :: 0 <= i < |rs| ==> rs[i].key !in Keys(b)
    requires forall i, j :: 0 <= i < j < |rs| ==> rs[i].key != rs[j].key
    ensures forall i :: 1 <= i < |rs| ==> rs[i].key !in Keys(Store(b, rs[0], fetch))
    ensures forall i :: 0 <= i < |rs[1..]| ==> rs[1..][i].key !in Keys(Store(b, rs[0], fetch))
  {
    var b' := Store(b, rs[0], fetch);
    if fetch(rs[0].url).Some? {
      var entry := (rs[0].key, fetch(rs[0].url).value);
      assert b' == b + [entry];
      KeysAppend(b, entry);
    }
    forall i | 0 <= i < |rs[1..]| ensures rs[1..][i].key !in Keys(b') {
      assert rs[1..][i] == rs[i + 1];
    }
  }

  lemma KeysAppend(b: Bundle, entry: (string, string))
    ensures Keys(b + [entry]) == Keys(b) + [entry.0]
  {
    assert |Keys(b + [entry])| == |Keys(b) + [entry.0]|;
  }

  lemma AllPlanDistinct(year: string, month: string)
    ensures var rs := PlanRequests(year, month, ALL_TYPES);
      forall i, j :: 0 <= i < j < |rs| ==> rs[i].key != rs[j].key
  {
  }

  /**
    An 'all' click that passes validation submits once, whatever fails: the
    bundle holds, in the fixed order, exactly the types whose request
    succeeded, each with its own response, and the error modal is shown once
    per failed request.
   */
  lemma AllSubmitsSuccesses(year: string, month: string, fetch: string -> Option<string>)
    requires year != YEAR_PLACEHOLDER && month != MONTH_PLACEHOLDER
    ensures var e := ClickEffect(year, month, ALL_TYPES, fetch);
      var rs := PlanRequests(year, month, ALL_TYPES);
      && e.issued == Urls(rs)
      && e.submitted == Some(Succeeded(rs, fetch))
      && e.errorModals == |rs| - |Succeeded(rs, fetch)|
  {
    var rs := PlanRequests(year, month, ALL_TYPES);
    AllPlanDistinct(year, month);
    CollectDistinct([], rs, fetch);
    assert [] + Succeeded(rs, fetch) == Succeeded(rs, fetch);
    SucceededCount(rs, fetch);
  }

  lemma {:induction false} SucceededCount(rs: seq<Request>, fetch: string -> Option<string>)
    ensures |Succeeded(rs, fetch)| + Failures(rs, fetch) == |rs|
  {
    if rs != [] {
      SucceededCount(rs[1..], fetch);
    }
  }

  /** When every request succeeds, the successes are all the requests' keys, in order. */
  lemma {:induction false} SucceededAll(rs: seq<Request>, fetch: string -> Option<string>)
    requires forall i :: 0 <= i < |rs| ==> fetch(rs[i].url).Some?
    ensures |Succeeded(rs, fetch)| == |rs|
    ensures forall i :: 0 <= i < |rs| ==> Succeeded(rs, fetch)[i].0 == rs[i].key
  {
    if rs != [] {
      assert fetch(rs[0].url).Some?;
      forall i | 0 <= i < |rs[1..]| ensures fetch(rs[1..][i].url).Some? {
        assert rs[1..][i] == rs[i + 1];
      }
      SucceededAll(rs[1..], fetch);
    }
  }

  /** An 'all' click where every request succeeds submits exactly the four type keys, in order. */
  lemma AllSucceedFourKeys(year: string, month: string, fetch: string -> Option<string>)
    requires year != YEAR_PLACEHOLDER && month != MONTH_PLACEHOLDER
    requires forall t :: t in REPORT_TYPES ==> fetch(StatsUrl(UriByType(t), year, month)).Some?
    ensures var e := ClickEffect(year, month, ALL_TYPES, fetch);
      e.submitted.Some? && Keys(e.submitted.value) == REPORT_TYPES && e.errorModals == 0
  {
    var rs := PlanRequests(year, month, ALL_TYPES);
    PathSegments();
    PlanShape(year, month, ALL_TYPES);
    forall i | 0 <= i < |rs| ensures fetch(rs[i].url).Some? {
      assert rs[i].key in REPORT_TYPES;
    }
    AllSubmitsSuccesses(year, month, fetch);
    SucceededAll(rs, fetch);
    var s := Succeeded(rs, fetch);
    assert Keys(s) == REPORT_TYPES;
  }

  /**
    Any other type issues one request; its success submits a bundle with that
    type as the only key, its failure shows the error modal and submits nothing.
   */
  lemma SingleTypeSubmission(year: string, month: string, reportType: string, fetch: string -> Option<string>)
    requires year != YEAR_PLACEHOLDER && month != MONTH_PLACEHOLDER && reportType != ALL_TYPES
    ensures var e := ClickEffect(year, month, reportType, fetch);
      var url := StatsUrl(UriByType(reportType), year, month);
      && e.issued == [url]
      && (fetch(url).Some? ==> e.submitted == Some([(reportType, fetch(url).value)]) && e.errorModals == 0)
      && (fetch(url).None? ==> e.submitted == None && e.errorModals == 1)
  {
    var rs := PlanRequests(year, month, reportType);
    assert rs[1..] == [];
    assert Collect([], rs, fetch) == Store([], rs[0], fetch);
    assert Failures(rs, fetch) == Failed(rs[0], fetch);
  }

  /** An 'all' click, one request after the other as the handler writes it out. */
  lemma AllUnrolled(year: string, month: string, fetch: string -> Option<string>)
    ensures var rs := PlanRequests(year, month, ALL_TYPES);
      && |rs| == 4
      && Urls(rs) == [rs[0].url, rs[1].url, rs[2].url, rs[3].url]
      && Failures(rs, fetch) == Failed(rs[0], fetch) + Failed(rs[1], fetch) + Failed(rs[2], fetch) + Failed(rs[3], fetch)
      && Collect([], rs, fetch) == Store(Store(Store(Store([], rs[0], fetch), rs[1], fetch), rs[2], fetch), rs[3], fetch)
  {
    var rs := PlanRequests(year, month, ALL_TYPES);
    assert rs[1..][0] == rs[1] && rs[2..][0] == rs[2] && rs[3..][0] == rs[3];
    assert rs[1..][1..] == rs[2..] && rs[2..][1..] == rs[3..] && rs[3..][1..] == [];
    var s1 := Store([], rs[0], fetch);
    var s2 := Store(s1, rs[1], fetch);
    var s3 := Store(s2, rs[2], fetch);
    var s4 := Store(s3, rs[3], fetch);
    assert Collect(s3, rs[3..], fetch) == s4;
    assert Collect(s2, rs[2..], fetch) == s4;
    assert Collect(s1, rs[1..], fetch) == s4;
    assert Failures(rs[3..], fetch) == Failed(rs[3], fetch);
    assert Failures(rs[2..], fetch) == Failed(rs[2], fetch) + Failed(rs[3], fetch);
    assert Failures(rs[1..], fetch) == Failed(rs[1], fetch) + Failed(rs[2], fetch) + Failed(rs[3], fetch);
  }

  // ---------------------------------------------------------------------------
  // The page state the click changes

  /** The report half of the page: the hidden field, and logs of what left the page. */
  class ReportPage {
    /** `#report_file_input`, the hidden field of `#report_file_form`. */
    var reportInput: string
    /** The value of `#report_file_input` at each submission of `#report_file_form`. */
    var submissions: seq<string>
    /** Texts passed to `alert`. */
    var alerts: seq<string>
    /** URLs of the GET requests sent, in order. */
    var issued: seq<string>
    /** How often `#error_modal` was shown. */
    var errorModals: nat

    constructor ()
      ensures reportInput == "" && submissions == [] && alerts == [] && issued == [] && errorModals == 0
    {
      reportInput, submissions, alerts, issued, errorModals := "", [], [], [], 0;
    }

    /** `setStatsReportSubmit`: write the bundle's JSON into the field, submit, clear the field. */
    method SetStatsReportSubmit(bundle: Bundle)
      modifies this
      ensures submissions == old(submissions) + [Json.ObjectText(bundle)]
      ensures reportInput == ""
      ensures alerts == old(alerts) && issued == old(issued) && errorModals == old(errorModals)
    {
      reportInput := Json.ObjectText(bundle);
      submissions := submissions + [reportInput];
      reportInput := "";
    }

    /** One `$.ajax` GET; on failure its error callback shows the error modal. */
    method Get(url: string, fetch: string -> Option<string>) returns (result: Option<string>)
      modifies this
      ensures result == fetch(url)
      ensures issued == old(issued) + [url]
      ensures errorModals == old(errorModals) + (if result.None? then 1 else 0)
      ensures reportInput == old(reportInput) && submissions == old(submissions) && alerts == old(alerts)
    {
      issued := issued + [url];
      result := fetch(url);
      if result.None? {
        errorModals := errorModals + 1;
      }
    }

    /** The `#downloadReport` click handler. */
    method DownloadReport(year: string, month: string, reportType: string, fetch: string -> Option<string>)
      modifies this
      ensures var e := ClickEffect(year, month, reportType, fetch);
        && alerts == old(alerts) + e.alerts
        && issued == old(issued) + e.issued
        && errorModals == old(errorModals) + e.errorModals
        && submissions == old(submissions) + (if e.submitted.Some? then [Json.ObjectText(e.submitted.value)] else [])
        && reportInput == (if e.submitted.Some? then "" else old(reportInput))
    {
      if year == YEAR_PLACEHOLDER {
        alerts := alerts + [YEAR_REQUIRED];
        return;
      } else if month == MONTH_PLACEHOLDER {
        alerts := alerts + [MONTH_REQUIRED];
        return;
      }
      assert alerts == alerts + [];
      if reportType == ALL_TYPES {
        DownloadAll(year, month, fetch);
      } else {
        DownloadOne(year, month, reportType, fetch);
      }
    }

    /** The 'all' branch: four synchronous requests, then one submission whatever failed. */
    method DownloadAll(year: string, month: string, fetch: string -> Option<string>)
      modifies this
      ensures var rs := PlanRequests(year, month, ALL_TYPES);
        && issued == old(issued) + Urls(rs)
        && errorModals == old(errorModals) + Failures(rs, fetch)
        && submissions == old(submissions) + [Json.ObjectText(Collect([], rs, fetch))]
        && reportInput == "" && alerts == old(alerts)
    {
      ghost var rs := PlanRequests(year, month, ALL_TYPES);
      AllUnrolled(year, month, fetch);
      var statsReports: Bundle := [];
      var options := REPORT_TYPES;
      statsReports := Send(statsReports, Request(options[0], StatsUrl(options[0], year, month)), fetch);
      statsReports := Send(statsReports, Request(options[1], StatsUrl(options[1], year, month)), fetch);
      assert issued == old(issued) + [rs[0].url, rs[1].url];
      statsReports := Send(statsReports, Request(options[2], StatsUrl(UriByType(options[2]), year, month)), fetch);
      assert issued == old(issued) + [rs[0].url, rs[1].url, rs[2].url];
      statsReports := Send(statsReports, Request(options[3], StatsUrl(UriByType(options[3]), year, month)), fetch);
      assert issued == old(issued) + [rs[0].url, rs[1].url, rs[2].url, rs[3].url];
      SetStatsReportSubmit(statsReports);
    }

    /** One request of the 'all' branch: its success callback stores the result under the request's key. */
    method Send(statsReports: Bundle, request: Request, fetch: string -> Option<string>) returns (after: Bundle)
      modifies this
      ensures after == Store(statsReports, request, fetch)
      ensures issued == old(issued) + [request.url]
      ensures errorModals == old(errorModals) + Failed(request, fetch)
      ensures reportInput == old(reportInput) && submissions == old(submissions) && alerts == old(alerts)
    {
      var results := Get(request.url, fetch);
      after := statsReports;
      if results.Some? {
        after := Put(after, request.key, results.value);
      }
    }

    /** A single type: one synchronous request, whose success callback submits. */
    method DownloadOne(year: string, month: string, reportType: string, fetch: string -> Option<string>)
      requires reportType != ALL_TYPES
      modifies this
      ensures var rs := PlanRequests(year, month, reportType);
        var ok := Failures(rs, fetch) == 0;
        && issued == old(issued) + Urls(rs)
        && errorModals == old(errorModals) + Failures(rs, fetch)
        && submissions == old(submissions) + (if ok then [Json.ObjectText(Collect([], rs, fetch))] else [])
        && reportInput == (if ok then "" else old(reportInput)) && alerts == old(alerts)
    {
      ghost var rs := PlanRequests(year, month, reportType);
      assert rs[1..] == [];
      assert Collect([], rs, fetch) == Store([], rs[0], fetch);
      assert Failures(rs, fetch) == Failed(rs[0], fetch);
      var statsReports: Bundle := [];
      var statsUrl := StatsUrl(UriByType(reportType), year, month);
      var r := Get(statsUrl, fetch);
      if r.Some? {
        statsReports := Put(statsReports, reportType, r.value);
        SetStatsReportSubmit(statsReports);
      }
    }
  }

  // ---------------------------------------------------------------------------
  // The e-mail address rows

  /** Every row `moreEmail` appends carries this same element id. */
  const EMAIL_ROW_ID := "emailID"

  /** A row of `#newEmail`: its element id and the value of its e-mail input. */
  datatype EmailRow = EmailRow(id: string, value: string)

  /** The position one further on. */
  function Shift(k: Option<nat>): (next: Option<nat>)
  {
    match k
    case Some(i) => Some(i + 1)
    case None => None
  }

  /** The position of the first row, in document order, with element id `id`. */
  function FirstWithId(rows: seq<EmailRow>, id: string): (k: Option<nat>)
    ensures k.Some? ==> k.value < |rows|
  {
    if rows == [] then None
    else if rows[0].id == id then Some(0)
    else Shift(FirstWithId(rows[1..], id))
  }

  /** FirstWithId finds a row with the id, and no earlier one has it; None means no row has it. */
  lemma {:induction false} FirstWithIdSpec(rows: seq<EmailRow>, id: string)
    ensures var k := FirstWithId(rows, id);
      && (k.Some? ==> rows[k.value].id == id && forall j :: 0 <= j < k.value ==> rows[j].id != id)
      && (k.None? ==> forall j :: 0 <= j < |rows| ==> rows[j].id != id)
  {
    if rows != [] && rows[0].id != id {
      FirstWithIdSpec(rows[1..], id);
      forall j | 1 <= j < |rows| ensures rows[j] == rows[1..][j - 1] { }
    }
  }

  /** `$('#' + id).remove()`: the first element with that id goes, or nothing when there is none. */
  function RemoveFirst(rows: seq<EmailRow>, id: string): (r: seq<EmailRow>)
    ensures FirstWithId(rows, id).Some? ==>
      var k := FirstWithId(rows, id).value; r == rows[..k] + rows[k + 1..]
    ensures FirstWithId(rows, id).None? ==> r == rows
  {
    match FirstWithId(rows, id)
    case Some(k) => rows[..k] + rows[k + 1..]
    case None => rows
  }

  /** The row `moreEmail` appends: a fresh, empty e-mail input. */
  function NewRow(): (row: EmailRow) { EmailRow(EMAIL_ROW_ID, "") }

  /** The e-mail form of the page. */
  class EmailList {
    /** The rows inside `#newEmail`, in document order. */
    var rows: seq<EmailRow>
    /** The `inputEmail` values sent at each submission of `#email_form`. */
    var submissions: seq<seq<string>>

    constructor (initial: seq<EmailRow>)
      ensures rows == initial && submissions == []
    {
      rows, submissions := initial, [];
    }

    /** `#addEmail` / `moreEmail`: one row at the end, the earlier rows untouched. */
    method AddEmail()
      modifies this
      ensures rows == old(rows) + [NewRow()]
      ensures submissions == old(submissions)
    {
      rows := rows + [NewRow()];
    }

    /**
      A row's remove control: its handler is `$('#emailID').remove()`, which
      knows nothing of the row clicked and removes the first `emailID` row.
     */
    method RemoveEmail()
      modifies this
      ensures rows == RemoveFirst(old(rows), EMAIL_ROW_ID)
      ensures submissions == old(submissions)
    {
      rows := RemoveFirst(rows, EMAIL_ROW_ID);
    }

    /** `#saveEmail`: submit the form as it is, every row's value. */
    method SaveEmail()
      modifies this
      ensures rows == old(rows)
      ensures |submissions| == |old(submissions)| + 1 && submissions[..|old(submissions)|] == old(submissions)
      ensures |submissions[|old(submissions)|]| == |rows|
      ensures forall i :: 0 <= i < |rows| ==> submissions[|old(submissions)|][i] == rows[i].value
    {
      var current := rows;
      var values := seq(|current|, i requires 0 <= i < |current| => current[i].value);
      submissions := submissions + [values];
    }
  }

  function AddRows(rows: seq<EmailRow>, n: nat): (r: seq<EmailRow>)
  {
    if n == 0 then rows else AddRows(rows, n - 1) + [NewRow()]
  }

  lemma {:induction false} AddRowsShape(rows: seq<EmailRow>, n: nat)
    ensures |AddRows(rows, n)| == |rows| + n
    ensures AddRows(rows, n)[..|rows|] == rows
    ensures forall i :: |rows| <= i < |rows| + n ==> AddRows(rows, n)[i] == NewRow()
  {
    if n > 0 {
      AddRowsShape(rows, n - 1);
    }
  }

  /**
    After n >= 1 additions one removal leaves one row fewer, and what goes is
    the first `emailID` row of the document: one of the original rows if any
    carries that id, otherwise the first added row, whichever control was
    clicked. The remaining added rows still carry the id.
   */
  lemma RemoveAfterAdds(rows: seq<EmailRow>, n: nat)
    requires n >= 1
    ensures |RemoveFirst(AddRows(rows, n), EMAIL_ROW_ID)| == |rows| + n - 1
    ensures FirstWithId(rows, EMAIL_ROW_ID).Some? ==>
      var k := FirstWithId(rows, EMAIL_ROW_ID).value;
      RemoveFirst(AddRows(rows, n), EMAIL_ROW_ID) == rows[..k] + rows[k + 1..] + AddRows([], n)
    ensures FirstWithId(rows, EMAIL_ROW_ID).None? ==>
      RemoveFirst(AddRows(rows, n), EMAIL_ROW_ID) == rows + AddRows([], n - 1)
  {
    var all := AddRows(rows, n);
    AddRowsShape(rows, n);
    AddRowsShape([], n);
    AddRowsShape([], n - 1);
    assert AddRows([], n) == AddRows([], n - 1) + [NewRow()];
    assert all == rows + AddRows([], n) by {
      assert all[..|rows|] == rows;
      forall i | |rows| <= i < |all| ensures all[i] == (rows + AddRows([], n))[i] { }
    }
    match FirstWithId(rows, EMAIL_ROW_ID)
    case Some(k) =>
      assert FirstWithId(all, EMAIL_ROW_ID) == Some(k) by {
        FirstWithIdPrefix(rows, AddRows([], n), EMAIL_ROW_ID);
      }
      assert all[..k] == rows[..k];
      assert all[k + 1..] == rows[k + 1..] + AddRows([], n);
    case None =>
      assert all[|rows|].id == EMAIL_ROW_ID;
      assert FirstWithId(all, EMAIL_ROW_ID) == Some(|rows|) by {
        FirstWithIdPrefix(rows, AddRows([], n), EMAIL_ROW_ID);
      }
      assert all[..|rows|] == rows;
      assert AddRows([], n)[1..] == AddRows([], n - 1) by {
        assert |AddRows([], n)[1..]| == n - 1;
        forall i | 0 <= i < n - 1 ensures AddRows([], n)[1..][i] == AddRows([], n - 1)[i] { }
      }
      assert all[|rows| + 1..] == AddRows([], n)[1..];
  }

  /** The first match in a concatenation is in the first part if it has one. */
  lemma {:induction false} FirstWithIdPrefix(a: seq<EmailRow>, b: seq<EmailRow>, id: string)
    ensures FirstWithId(a, id).Some? ==> FirstWithId(a + b, id) == FirstWithId(a, id)
    ensures FirstWithId(a, id).None? && FirstWithId(b, id).Some? ==>
      FirstWithId(a + b, id) == Some(|a| + FirstWithId(b, id).value)
  {
    if a != [] {
      ConcatHead(a, b);
      if a[0].id != id {
        FirstWithIdPrefix(a[1..], b, id);
        assert FirstWithId(a + b, id) == Shift(FirstWithId(a[1..] + b, id));
        assert FirstWithId(a, id) == Shift(FirstWithId(a[1..], id));
      }
    } else {
      assert a + b == b;
    }
  }

  lemma ConcatAssoc<T>(a: seq<T>, b: seq<T>, c: seq<T>)
    ensures (a + b) + c == a + (b + c)
  {
  }

  lemma ConcatHead<T>(a: seq<T>, b: seq<T>)
    requires a != []
    ensures (a + b)[0] == a[0] && (a + b)[1..] == a[1..] + b
  {
  }

  /** Removing a clicked row other than the first removes the first one instead. */
  lemma RemoveIgnoresClickedRow()
    ensures RemoveFirst([EmailRow(EMAIL_ROW_ID, "a@example.org"), EmailRow(EMAIL_ROW_ID, "b@example.org")], EMAIL_ROW_ID)
         == [EmailRow(EMAIL_ROW_ID, "b@example.org")]
  {
  }
}
