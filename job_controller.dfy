/*
  getJobs (controllers/jobController.js): the Adzuna search URL built from the query,
  the mapping of each result to the job record the client receives, and the next page.
  The HTTP call is the function `fetch` from a URL to the parsed body or an error.
*/
module JobController {
  import opened Outcomes
  import opened JsStrings
  import opened JsonValues

  /** ADZUNA_API_URL (config/adzunaConfig.js:4). */
  const ApiBase := "https://api.adzuna.com/v1/api/jobs"

  /** `${resultsPerPage}` for the fixed page size 10. */
  const ResultsPerPage := "10"

  /** The query-string fields the handler reads; `None` is a missing field. */
  datatype Query = Query(search: Option<string>, location: Option<string>, jobType: Option<string>,
                         postedWithin: Option<string>, country: Option<string>, page: Option<string>)

  /** ADZUNA_APP_ID and ADZUNA_APP_KEY from the environment; either may be unset. */
  datatype Credentials = Credentials(appId: Option<string>, appKey: Option<string>)

  /** A template literal prints an unset variable as `undefined`. */
  function Interpolate(o: Option<string>): string {
    if o.None? then "undefined" else o.value
  }

  /** `${page}` with `page = 1` as the default for a missing field. */
  function PageText(page: Option<string>): string {
    if page.None? then "1" else page.value
  }

  /** Lines 12-16. */
  function CountrySegment(country: Option<string>): string {
    if Given(country) then "/" + EncodeURIComponent(Lower(country.value)) else "/gb"
  }

  function FullTime(jobType: string): string {
    if Lower(jobType) == "fulltime" then "1" else "0"
  }

  /** The three parameters every request carries (line 19). */
  function FixedParams(creds: Credentials): seq<string> {
    ["app_id=" + Interpolate(creds.appId), "app_key=" + Interpolate(creds.appKey), "results_per_page=" + ResultsPerPage]
  }

  function What(q: Query): seq<string> {
    if Given(q.search) then ["what=" + EncodeURIComponent(q.search.value)] else []
  }

  function Where(q: Query): seq<string> {
    if Given(q.location) then ["where=" + EncodeURIComponent(q.location.value)] else []
  }

  function FullTimeFlag(q: Query): seq<string> {
    if Given(q.jobType) then ["full_time=" + FullTime(q.jobType.value)] else []
  }

  function MaxDaysOld(q: Query): seq<string> {
    if Given(q.postedWithin) then ["max_days_old=" + NumberToString(ParseInt(q.postedWithin.value))] else []
  }

  /** The optional filters (lines 21-24), each present exactly when its field is given. */
  function Filters(q: Query): seq<string> {
    What(q) + Where(q) + FullTimeFlag(q) + MaxDaysOld(q)
  }

  function Path(q: Query): string {
    ApiBase + CountrySegment(q.country) + "/search/" + PageText(q.page)
  }

  /** The request URL: the path, then the parameters joined by `&`. */
  function ApiUrl(q: Query, creds: Credentials): string {
    Path(q) + "?" + Join(FixedParams(creds) + Filters(q), '&')
  }

  /** Lines 9-24: the URL built by successive appends. */
  method BuildApiUrl(q: Query, creds: Credentials) returns (apiUrl: string)
    ensures apiUrl == ApiUrl(q, creds)
  {
    apiUrl := ApiBase;
    if Given(q.country) {
      apiUrl := apiUrl + "/" + EncodeURIComponent(Lower(q.country.value));
    } else {
      apiUrl := apiUrl + "/gb";
    }
    assert apiUrl == ApiBase + CountrySegment(q.country);
    apiUrl := apiUrl + ("/search/" + PageText(q.page) + "?app_id=" + Interpolate(creds.appId)
      + "&app_key=" + Interpolate(creds.appKey) + "&results_per_page=" + ResultsPerPage);
    FixedPart(q, creds);
    ghost var filters: seq<string> := [];
    if Given(q.search) {
      var p := "what=" + EncodeURIComponent(q.search.value);
      AppendParam(q, creds, apiUrl, filters, p);
      apiUrl, filters := apiUrl + "&" + p, filters + [p];
    }
    assert filters == What(q);
    if Given(q.location) {
      var p := "where=" + EncodeURIComponent(q.location.value);
      AppendParam(q, creds, apiUrl, filters, p);
      apiUrl, filters := apiUrl + "&" + p, filters + [p];
    }
    assert filters == What(q) + Where(q);
    if Given(q.jobType) {
      var p := "full_time=" + FullTime(q.jobType.value);
      AppendParam(q, creds, apiUrl, filters, p);
      apiUrl, filters := apiUrl + "&" + p, filters + [p];
    }
    assert filters == What(q) + Where(q) + FullTimeFlag(q);
    if Given(q.postedWithin) {
      var p := "max_days_old=" + NumberToString(ParseInt(q.postedWithin.value));
      AppendParam(q, creds, apiUrl, filters, p);
      apiUrl, filters := apiUrl + "&" + p, filters + [p];
    }
    assert filters == Filters(q);
  }

  /** The country segment followed by line 19 is the path and the fixed parameters. */
  lemma FixedPart(q: Query, creds: Credentials)
    ensures ApiBase + CountrySegment(q.country) + ("/search/" + PageText(q.page) + "?app_id=" + Interpolate(creds.appId)
      + "&app_key=" + Interpolate(creds.appKey) + "&results_per_page=" + ResultsPerPage)
      == Path(q) + "?" + Join(FixedParams(creds) + [], '&')
  {
    var fixed := "?app_id=" + Interpolate(creds.appId) + "&app_key=" + Interpolate(creds.appKey)
      + "&results_per_page=" + ResultsPerPage;
    assert "/search/" + PageText(q.page) + "?app_id=" + Interpolate(creds.appId)
      + "&app_key=" + Interpolate(creds.appKey) + "&results_per_page=" + ResultsPerPage
      == "/search/" + PageText(q.page) + fixed;
    FixedQuery(creds);
    assert FixedParams(creds) + [] == FixedParams(creds);
  }

  /** One more `&key=value` on the URL is one more parameter in the list. */
  lemma AppendParam(q: Query, creds: Credentials, url: string, filters: seq<string>, p: string)
    requires url == Path(q) + "?" + Join(FixedParams(creds) + filters, '&')
    ensures url + "&" + p == Path(q) + "?" + Join(FixedParams(creds) + (filters + [p]), '&')
  {
    var ps := FixedParams(creds) + filters;
    assert ps + [p] == FixedParams(creds) + (filters + [p]);
    JoinSnoc(ps, p, '&');
  }

  lemma FixedQuery(creds: Credentials)
    ensures "?" + Join(FixedParams(creds), '&') ==
      "?app_id=" + Interpolate(creds.appId) + "&app_key=" + Interpolate(creds.appKey) + "&results_per_page=" + ResultsPerPage
  {
    var ps := FixedParams(creds);
    assert ps[1..][1..] == [ps[2]];
    assert Join(ps[1..][1..], '&') == ps[2];
    assert Join(ps[1..], '&') == ps[1] + "&" + ps[2];
    assert Join(ps, '&') == ps[0] + "&" + (ps[1] + "&" + ps[2]);
    assert "?" + "app_id=" == "?app_id=";
    assert "&" + "app_key=" == "&app_key=";
    assert "&" + "results_per_page=" == "&results_per_page=";
  }

  // ------------------------------------------------------------------ what the API server reads

  /** The characters that end a URL's path (`?`), its query (`#`) or one query parameter
      (`&`). Neither `encodeURIComponent` nor printing a number produces any of them. */
  predicate Delimiter(c: char) {
    c == '&' || c == '?' || c == '#'
  }

  /** The text before the first `c`, or all of `s` when it holds none. */
  function Before(s: string, c: char): (r: string)
    ensures |r| <= |s| && r == s[..|r|]
    decreases |s|
  {
    if |s| == 0 || s[0] == c then "" else [s[0]] + Before(s[1..], c)
  }

  /** The text after the first `c`, or nothing when `s` holds none. */
  function After(s: string, c: char): (r: string)
    ensures |r| <= |s| && r == s[|s| - |r|..]
    decreases |s|
  {
    if |s| == 0 then "" else if s[0] == c then s[1..] else After(s[1..], c)
  }

  /** The query string a server reads from a URL: the fragment goes from the first `#`,
      and the query is what comes after the first `?` before it. */
  function QueryPart(url: string): string {
    After(Before(url, '#'), '?')
  }

  /** The parameters a server reads: the query string split at `&`. */
  function ServerParams(url: string): (ps: seq<string>)
    ensures |ps| >= 1
  {
    Split(QueryPart(url), '&')
  }

  lemma {:induction false} BeforeAbsent(s: string, c: char)
    requires c !in s
    ensures Before(s, c) == s
    decreases |s|
  {
    if |s| > 0 {
      assert c !in s[1..] by {
        forall i | 0 <= i < |s[1..]| ensures s[1..][i] != c { assert s[1..][i] == s[i + 1]; }
      }
      BeforeAbsent(s[1..], c);
      assert s == [s[0]] + s[1..];
    }
  }

  lemma {:induction false} AfterFirst(a: string, c: char, b: string)
    requires c !in a
    ensures After(a + [c] + b, c) == b
    decreases |a|
  {
    if |a| == 0 {
      assert a + [c] + b == [c] + b;
      assert ([c] + b)[1..] == b;
    } else {
      assert (a + [c] + b)[0] == a[0];
      assert (a + [c] + b)[1..] == a[1..] + [c] + b;
      assert c !in a[1..] by {
        forall i | 0 <= i < |a[1..]| ensures a[1..][i] != c { assert a[1..][i] == a[i + 1]; }
      }
      AfterFirst(a[1..], c, b);
    }
  }

  /** No piece holds `c`. */
  predicate Free(ps: seq<string>, c: char) {
    forall k :: 0 <= k < |ps| ==> c !in ps[k]
  }

  lemma FreeAppend(a: seq<string>, b: seq<string>, c: char)
    requires Free(a, c) && Free(b, c)
    ensures Free(a + b, c)
  {
    forall k | 0 <= k < |a + b| ensures c !in (a + b)[k] {
      if k < |a| { assert (a + b)[k] == a[k]; } else { assert (a + b)[k] == b[k - |a|]; }
    }
  }

  /** Joining pieces free of `c` with another separator brings in no `c`. */
  lemma {:induction false} JoinWithout(ps: seq<string>, sep: char, c: char)
    requires |ps| >= 1 && Free(ps, c) && c != sep
    ensures c !in Join(ps, sep)
    decreases |ps|
  {
    if |ps| > 1 {
      assert Free(ps[1..], c) by {
        forall k | 0 <= k < |ps[1..]| ensures c !in ps[1..][k] { assert ps[1..][k] == ps[k + 1]; }
      }
      JoinWithout(ps[1..], sep, c);
      assert c !in ps[0];
      var j := Join(ps, sep);
      assert j == ps[0] + [sep] + Join(ps[1..], sep);
      forall i | 0 <= i < |j| ensures j[i] != c {
        if i < |ps[0]| { assert j[i] == ps[0][i]; }
        else if i == |ps[0]| { assert j[i] == sep; }
        else { assert j[i] == Join(ps[1..], sep)[i - |ps[0]| - 1]; }
      }
    }
  }

  /** The text holds none of the three delimiters. */
  predicate Plain(s: string) {
    '&' !in s && '?' !in s && '#' !in s
  }

  predicate AllPlain(ps: seq<string>) {
    forall k :: 0 <= k < |ps| ==> Plain(ps[k])
  }

  lemma PlainFree(ps: seq<string>, c: char)
    requires AllPlain(ps) && Delimiter(c)
    ensures Free(ps, c)
  {
  }

  lemma AllPlainAppend(a: seq<string>, b: seq<string>)
    requires AllPlain(a) && AllPlain(b)
    ensures AllPlain(a + b)
  {
    forall k | 0 <= k < |a + b| ensures Plain((a + b)[k]) {
      if k < |a| { assert (a + b)[k] == a[k]; } else { assert (a + b)[k] == b[k - |a|]; }
    }
  }

  /** A printed integer holds no delimiter. */
  lemma NumberPlain(x: Num)
    ensures Plain(NumberToString(x))
  {
    var s := NumberToString(x);
    if x.Int? && x.value < 0 {
      assert s == "-" + Decimal(-x.value);
      assert forall i :: 0 <= i < |s| ==> s[i] == '-' || '0' <= s[i] <= '9';
    } else if x.Int? {
      assert forall i :: 0 <= i < |s| ==> '0' <= s[i] <= '9';
    }
  }

  /** An encoded value holds no delimiter. */
  lemma EncodedPlain(s: string)
    ensures Plain(EncodeURIComponent(s))
  {
    var e := EncodeURIComponent(s);
    assert forall i :: 0 <= i < |e| ==> e[i] != '&' && e[i] != '?' && e[i] != '#';
  }

  /** The query text after the first `?` of a URL without a fragment is what the server
      reads. */
  lemma ServerQuery(a: string, b: string)
    requires '?' !in a && '#' !in a && '#' !in b
    ensures QueryPart(a + ['?'] + b) == b
  {
    var url := a + ['?'] + b;
    assert '#' !in url;
    BeforeAbsent(url, '#');
    AfterFirst(a, '?', b);
  }

  /** Splitting the joined parameters at `&` gives back exactly the parameters, in order,
      provided the two credentials hold no `&`: every filter value is encoded or numeric. */
  lemma QueryRoundTrip(q: Query, creds: Credentials)
    requires '&' !in Interpolate(creds.appId) && '&' !in Interpolate(creds.appKey)
    ensures Split(Join(FixedParams(creds) + Filters(q), '&'), '&') == FixedParams(creds) + Filters(q)
  {
    FixedWithout(creds, '&');
    FiltersPlain(q);
    PlainFree(Filters(q), '&');
    FreeAppend(FixedParams(creds), Filters(q), '&');
    SplitJoin(FixedParams(creds) + Filters(q), '&');
  }

  /** The server reads back exactly the parameters the handler meant to send, provided the
      credentials hold no `&` or `#`, and the page, the one value that goes into the URL
      unencoded, holds no `?` or `#`. */
  lemma UrlRoundTrip(q: Query, creds: Credentials)
    requires '&' !in Interpolate(creds.appId) && '&' !in Interpolate(creds.appKey)
    requires '#' !in Interpolate(creds.appId) && '#' !in Interpolate(creds.appKey)
    requires '?' !in PageText(q.page) && '#' !in PageText(q.page)
    ensures ServerParams(ApiUrl(q, creds)) == FixedParams(creds) + Filters(q)
  {
    var ps := FixedParams(creds) + Filters(q);
    FixedWithout(creds, '#');
    FiltersPlain(q);
    PlainFree(Filters(q), '#');
    FreeAppend(FixedParams(creds), Filters(q), '#');
    JoinWithout(ps, '&', '#');
    PathWithout(q, '#');
    PathWithout(q, '?');
    ServerQuery(Path(q), Join(ps, '&'));
    QueryRoundTrip(q, creds);
  }

  /** A page holding `?` moves the query: `page=1?what=x` makes the server read a first
      parameter `what=x?app_id=…` in place of `app_id=…`. */
  lemma RawPageMovesQuery(creds: Credentials)
    requires '#' !in Interpolate(creds.appId) && '#' !in Interpolate(creds.appKey)
    ensures var q := Query(None, None, None, None, None, Some("1?what=x"));
      && ServerParams(ApiUrl(q, creds))[0] != FixedParams(creds)[0]
      && ServerParams(ApiUrl(q, creds)) != FixedParams(creds) + Filters(q)
  {
    var q := Query(None, None, None, None, None, Some("1?what=x"));
    assert Filters(q) == [];
    var ps := FixedParams(creds);
    assert FixedParams(creds) + Filters(q) == ps;
    var j := Join(ps, '&');
    FixedWithout(creds, '#');
    JoinWithout(ps, '&', '#');
    var base := ApiBase + "/gb" + "/search/";
    assert Path(q) == base + "1?what=x";
    BasePlain();
    PathLiteralsPlain();
    assert '#' !in "what=x?";
    var rest := "what=x?" + j;
    RawPageSplit(base, j);
    ServerQuery(base + "1", rest);
    assert ServerParams(ApiUrl(q, creds)) == Split(rest, '&');
    FirstPieceStarts(rest, 'w');
    assert ps[0][0] == 'a';
  }

  /** `base + "1?what=x" + "?" + j`, regrouped at the page's `?`. */
  lemma RawPageSplit(base: string, j: string)
    ensures base + "1?what=x" + "?" + j == (base + "1") + ['?'] + ("what=x?" + j)
  {
    assert "1?what=x" == "1" + ['?'] + "what=x";
    assert "what=x?" == "what=x" + ['?'];
  }

  /** The first piece of a split starts with the text's first character when that is not
      the separator. */
  lemma FirstPieceStarts(s: string, c: char)
    requires |s| > 0 && s[0] == c && c != '&'
    ensures |Split(s, '&')[0]| > 0 && Split(s, '&')[0][0] == c
  {
  }

  /** The fixed texts of the URL hold no delimiter. */
  lemma BasePlain()
    ensures Plain(ApiBase)
  {
    var scheme, host, path := "https://", "api.adzuna.com", "/v1/api/jobs";
    assert ApiBase == scheme + host + path;
    assert Plain(scheme);
    assert Plain(host);
    assert Plain(path);
  }

  lemma PathLiteralsPlain()
    ensures Plain("/gb") && Plain("/") && Plain("/search/") && Plain("1")
  {
  }

  lemma NameLiteralsPlain()
    ensures Plain("what=") && Plain("where=") && Plain("full_time=") && Plain("max_days_old=")
  {
  }

  /** The path holds a delimiter only where the page brings one in. */
  lemma PathWithout(q: Query, c: char)
    requires Delimiter(c) && c !in PageText(q.page)
    ensures c !in Path(q)
  {
    BasePlain();
    PathLiteralsPlain();
    if Given(q.country) {
      EncodedPlain(Lower(q.country.value));
    }
    assert Plain(CountrySegment(q.country));
    assert Path(q) == ApiBase + CountrySegment(q.country) + "/search/" + PageText(q.page);
  }

  lemma FixedWithout(creds: Credentials, c: char)
    requires Delimiter(c) && c !in Interpolate(creds.appId) && c !in Interpolate(creds.appKey)
    ensures Free(FixedParams(creds), c)
  {
  }

  /** No optional filter holds a delimiter. */
  lemma FiltersPlain(q: Query)
    ensures AllPlain(Filters(q))
  {
    WhatPlain(q);
    WherePlain(q);
    FullTimePlain(q);
    DaysPlain(q);
    AllPlainAppend(What(q), Where(q));
    AllPlainAppend(What(q) + Where(q), FullTimeFlag(q));
    AllPlainAppend(What(q) + Where(q) + FullTimeFlag(q), MaxDaysOld(q));
  }

  lemma WhatPlain(q: Query)
    ensures AllPlain(What(q))
  {
    if Given(q.search) {
      NameLiteralsPlain();
      EncodedPlain(q.search.value);
    }
  }

  lemma WherePlain(q: Query)
    ensures AllPlain(Where(q))
  {
    if Given(q.location) {
      NameLiteralsPlain();
      EncodedPlain(q.location.value);
    }
  }

  lemma FullTimePlain(q: Query)
    ensures AllPlain(FullTimeFlag(q))
  {
    if Given(q.jobType) {
      NameLiteralsPlain();
      assert Plain("0") && Plain("1");
    }
  }

  lemma DaysPlain(q: Query)
    ensures AllPlain(MaxDaysOld(q))
  {
    if Given(q.postedWithin) {
      NameLiteralsPlain();
      NumberPlain(ParseInt(q.postedWithin.value));
    }
  }

  /** The filters come in the fixed order what, where, full_time, max_days_old, one for
      each given field; `full_time` is 1 exactly for the type `fulltime` in any case. */
  lemma FiltersGiven(q: Query)
    ensures |Filters(q)| == (if Given(q.search) then 1 else 0) + (if Given(q.location) then 1 else 0)
                         + (if Given(q.jobType) then 1 else 0) + (if Given(q.postedWithin) then 1 else 0)
    ensures Given(q.jobType) ==>
      Filters(q)[|Filters(q)| - (if Given(q.postedWithin) then 2 else 1)] ==
        "full_time=" + (if Lower(q.jobType.value) == "fulltime" then "1" else "0")
    ensures Given(q.search) ==> Filters(q)[0] == "what=" + EncodeURIComponent(q.search.value)
    ensures Given(q.postedWithin) ==>
      Filters(q)[|Filters(q)| - 1] == "max_days_old=" + NumberToString(ParseInt(q.postedWithin.value))
  {
  }

  /** With no field given, the request is for page 1 of Great Britain, unfiltered. */
  lemma EmptyQueryUrl(creds: Credentials)
    ensures ApiUrl(Query(None, None, None, None, None, None), creds) ==
      ApiBase + "/gb/search/1?" + Join(FixedParams(creds), '&')
  {
    var q := Query(None, None, None, None, None, None);
    assert Filters(q) == [];
    assert FixedParams(creds) + [] == FixedParams(creds);
    assert Path(q) + "?" == ApiBase + "/gb/search/1?";
  }

  // ------------------------------------------------------------------ the job records

  /** The record the client receives for one result (lines 32-42). */
  datatype Job = Job(id: Option<Json>, title: Option<Json>, description: Option<Json>,
                     location: Json, category: Json, company: Json, salaryPredicted: string,
                     jobLink: Option<Json>, coordinates: Option<(Json, Json)>)

  predicate Present(o: Option<Json>) {
    o.Some? && Truthy(o.value)
  }

  /** `value || "default"` */
  function OrDefault(o: Option<Json>, default: string): Json {
    if Present(o) then o.value else JString(default)
  }

  function FormatJob(job: Json): Job {
    var lat := Property(job, "latitude");
    var lon := Property(job, "longitude");
    Job(Property(job, "id"), Property(job, "title"), Property(job, "description"),
        OrDefault(Chain(Property(job, "location"), "display_name"), "Location not specified"),
        OrDefault(Chain(Property(job, "category"), "label"), "Not specified"),
        OrDefault(Chain(Property(job, "company"), "name"), "Company not disclosed"),
        if Property(job, "salary_is_predicted") == Some(JString("1")) then "Predicted Salary Available" else "No Salary Data",
        Property(job, "redirect_url"),
        if Present(lat) && Present(lon) then Some((lat.value, lon.value)) else None)
  }

  /** Each default stands in exactly for a missing or falsy value; coordinates are given
      only when both are truthy, and then as they came. */
  lemma FormatJobDefaults(job: Json)
    ensures var j := FormatJob(job);
      var place := Chain(Property(job, "location"), "display_name");
      && (j.location == (if Present(place) then place.value else JString("Location not specified")))
      && (j.coordinates.Some? <==> Present(Property(job, "latitude")) && Present(Property(job, "longitude")))
      && (j.coordinates.Some? ==> j.coordinates.value == (Property(job, "latitude").value, Property(job, "longitude").value))
      && (j.salaryPredicted == "Predicted Salary Available" <==> Property(job, "salary_is_predicted") == Some(JString("1")))
      && Truthy(j.location) && Truthy(j.category) && Truthy(j.company)
  {
  }

  /** A job without a location object is placed nowhere in particular. */
  lemma NoLocation(fields: map<string, Json>)
    requires "location" !in fields || fields["location"] == JNull
    ensures FormatJob(JObject(fields)).location == JString("Location not specified")
  {
  }

  // ------------------------------------------------------------------ the handler

  datatype Reply =
    | NoJobs
    | Jobs(jobs: seq<Job>, nextPage: Num)
    | Failure(error: string)

  function Status(r: Reply): nat {
    if r.Failure? then 500 else 200
  }

  /** `value.length` */
  function Length(j: Json): Option<Json> {
    match j
    case JString(s) => Some(JNumber(|s| as real))
    case JArray(items) => Some(JNumber(|items| as real))
    case JObject(_) => Property(j, "length")
    case _ => None
  }

  /** Lines 28-44, on the body the API answered with. */
  function JobsReply(q: Query, data: Json): Reply {
    ResultsReply(data, AddInt(ParseInt(PageText(q.page)), 1))
  }

  /** The answer for a body, given the value `nextPage` takes. */
  function ResultsReply(data: Json, nextPage: Num): Reply {
    if data.JNull? then Failure("Cannot read properties of null (reading 'results')")
    else
      var results := Property(data, "results");
      if results.None? then Failure("Cannot read properties of undefined (reading 'length')")
      else if results.value.JNull? then Failure("Cannot read properties of null (reading 'length')")
      else if !Present(Length(results.value)) then NoJobs
      else if !results.value.JArray? then Failure("data.results.map is not a function")
      else
        var items := results.value.items;
        if exists k :: 0 <= k < |items| && items[k].JNull? then Failure("Cannot read properties of null (reading 'id')")
        else Jobs(seq(|items|, k requires 0 <= k < |items| => FormatJob(items[k])), nextPage)
  }

  /** getJobs (lines 4-49): the URL it requests and what it answers. */
  method GetJobs(fetch: string -> Result<Json, string>, creds: Credentials, q: Query) returns (r: Reply, ghost url: string)
    ensures url == ApiUrl(q, creds)
    ensures r == match fetch(ApiUrl(q, creds)) case Err(e) => Failure(e) case Ok(data) => JobsReply(q, data)
  {
    var apiUrl := BuildApiUrl(q, creds);
    url := apiUrl;
    var data := fetch(apiUrl);
    if data.Err? {
      return Failure(data.error), url;
    }
    r := JobsReply(q, data.value);
  }

  /** An empty result list answers "No jobs found" with status 200; a non-empty list of
      objects answers one formatted job per result, in order. */
  lemma JobsOutcome(q: Query, data: Json)
    requires Property(data, "results").Some? && Property(data, "results").value.JArray?
    ensures var items := Property(data, "results").value.items;
      var r := JobsReply(q, data);
      && (|items| == 0 <==> r == NoJobs)
      && ((forall k :: 0 <= k < |items| ==> items[k].JObject?) && |items| > 0 ==>
            r.Jobs? && |r.jobs| == |items| && forall k :: 0 <= k < |items| ==> r.jobs[k] == FormatJob(items[k]))
      && (Status(r) == 200 <==> forall k :: 0 <= k < |items| ==> !items[k].JNull?)
  {
    var next := AddInt(ParseInt(PageText(q.page)), 1);
    assert JobsReply(q, data) == ResultsReply(data, next);
    ResultsOutcome(data, next);
  }

  lemma ResultsOutcome(data: Json, next: Num)
    requires Property(data, "results").Some? && Property(data, "results").value.JArray?
    ensures var items := Property(data, "results").value.items;
      var r := ResultsReply(data, next);
      && (|items| == 0 <==> r == NoJobs)
      && ((forall k :: 0 <= k < |items| ==> items[k].JObject?) && |items| > 0 ==>
            r.Jobs? && |r.jobs| == |items| && forall k :: 0 <= k < |items| ==> r.jobs[k] == FormatJob(items[k]))
      && (Status(r) == 200 <==> forall k :: 0 <= k < |items| ==> !items[k].JNull?)
  {
  }

  /** `nextPage` is the requested page plus one: 2 by default, n + 1 for a printed n. */
  lemma NextPage(data: Json, q: Query, n: int)
    requires JobsReply(q, data).Jobs?
    ensures q.page.None? ==> JobsReply(q, data).nextPage == Int(2)
    ensures q.page == Some(NumberToString(Int(n))) ==> JobsReply(q, data).nextPage == Int(n + 1)
  {
    JobsNextPage(q, data);
    PageAfter(q.page, n);
  }

  /** The page after a missing page is 2; after a printed n it is n + 1. */
  lemma PageAfter(page: Option<string>, n: int)
    ensures page.None? ==> AddInt(ParseInt(PageText(page)), 1) == Int(2)
    ensures page == Some(NumberToString(Int(n))) ==> AddInt(ParseInt(PageText(page)), 1) == Int(n + 1)
  {
    if page.None? {
      ReadOne();
    } else if page == Some(NumberToString(Int(n))) {
      ParseIntPrinted(n);
    }
  }

  lemma JobsNextPage(q: Query, data: Json)
    requires JobsReply(q, data).Jobs?
    ensures JobsReply(q, data).nextPage == AddInt(ParseInt(PageText(q.page)), 1)
  {
    var next := AddInt(ParseInt(PageText(q.page)), 1);
    assert JobsReply(q, data) == ResultsReply(data, next);
    ResultsNextPage(data, next);
  }

  lemma ResultsNextPage(data: Json, next: Num)
    requires ResultsReply(data, next).Jobs?
    ensures ResultsReply(data, next).nextPage == next
  {
  }

  lemma ReadOne()
    ensures ParseInt("1") == Int(1)
  {
    ParseIntPrinted(1);
    assert NumberToString(Int(1)) == "1";
  }
}
