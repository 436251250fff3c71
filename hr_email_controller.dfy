/*
  The HR directory (controllers/hrEmailController.js): populateHRData inserts the two
  sample records, and searchHR answers one page of the records that match a query.

  The collection is the sequence `records` in insertion order; the model takes this to be
  the order in which a query without a sort returns them. The `$regex` test
  (case-insensitive) is the function `matches(pattern, field)`, and `regexError(pattern)` is
  the error the database reports for a pattern that is not a valid regular expression.
*/
module HrEmailController {
  import opened Outcomes
  import opened JsStrings

  datatype Hr = Hr(name: string, email: string, contact: string, position: string, company: string, location: string)

  /** The records of lines 5-9. */
  const SampleHRs: seq<Hr> := [
    Hr("John Doe", "john@example.com", "+1234567890", "HR Manager", "TechCorp", "New York"),
    Hr("Jane Smith", "jane@example.com", "+1987654321", "HR Executive", "InnovateX", "San Francisco")
  ]

  datatype SearchQuery = SearchQuery(query: Option<string>, page: Option<string>, limit: Option<string>)

  /** `parseInt(page)` and `parseInt(limit)` with the defaults 1 and 10 (lines 22-24). */
  function PageNumber(q: SearchQuery): Num {
    if q.page.None? then Int(1) else ParseInt(q.page.value)
  }

  function LimitNumber(q: SearchQuery): Num {
    if q.limit.None? then Int(10) else ParseInt(q.limit.value)
  }

  /** `(pageNumber - 1) * limitNumber` (line 25). */
  function Skip(page: Num, limit: Num): Num {
    if page.NaN? || limit.NaN? then NaN else Int((page.value - 1) * limit.value)
  }

  /** The `$or` filter of lines 27-35; a missing or empty query keeps every record. */
  predicate Keep(matches: (string, string) -> bool, query: Option<string>, r: Hr) {
    !Given(query) || matches(query.value, r.name) || matches(query.value, r.email) || matches(query.value, r.company)
  }

  function Filter(matches: (string, string) -> bool, query: Option<string>, records: seq<Hr>): (r: seq<Hr>)
    ensures |r| <= |records|
    ensures forall x :: x in r ==> x in records && Keep(matches, query, x)
    decreases |records|
  {
    if records == [] then []
    else (if Keep(matches, query, records[0]) then [records[0]] else []) + Filter(matches, query, records[1..])
  }

  /** `.skip(skip).limit(limit)` for a skip of at least 0: a limit of 0 means no limit and
      a negative limit is read as its magnitude. */
  function Window(rs: seq<Hr>, skip: nat, limit: int): (w: seq<Hr>)
    ensures |w| <= |rs|
  {
    var n := if limit < 0 then -limit else limit;
    if skip >= |rs| then []
    else if n == 0 || skip + n >= |rs| then rs[skip..]
    else rs[skip..skip + n]
  }

  /** `Math.ceil(total / limit)`; `None` is the Infinity or NaN of a zero limit, which the
      JSON answer prints as null. */
  function TotalPages(total: nat, limit: int): Option<int> {
    if limit == 0 then None
    else if limit > 0 then Some((total + limit - 1) / limit)
    else Some(-(total / -limit))
  }

  datatype Reply =
    | NotFound
    | Found(totalRecords: nat, currentPage: int, totalPages: Option<int>, hrDetails: seq<Hr>)
    | Failure(error: string)

  function Status(r: Reply): nat {
    match r
    case NotFound => 404
    case Found(_, _, _, _) => 200
    case Failure(_) => 500
  }

  /** Lines 25-49, once the page and the limit are read. */
  function Answer(matches: (string, string) -> bool, records: seq<Hr>, query: Option<string>, page: Num, limit: Num): Reply {
    var skip := Skip(page, limit);
    if skip.NaN? || skip.value < 0 then Failure("skip requires a non-negative number")
    else
      var filtered := Filter(matches, query, records);
      var results := Window(filtered, skip.value, limit.value);
      if |results| == 0 then NotFound
      else Found(|filtered|, page.value, TotalPages(|filtered|, limit.value), results)
  }

  /** The query is absent or empty, or it is a valid regular expression. */
  predicate PatternOk(regexError: string -> Option<string>, query: Option<string>) {
    !Given(query) || regexError(query.value).None?
  }

  /** searchHR (lines 20-53). An invalid pattern makes `countDocuments` (line 37) throw
      before the page is fetched, and the catch of lines 50-52 answers its message. */
  function SearchReply(matches: (string, string) -> bool, regexError: string -> Option<string>,
                       records: seq<Hr>, q: SearchQuery): Reply {
    if !PatternOk(regexError, q.query) then Failure(regexError(q.query.value).value)
    else Answer(matches, records, q.query, PageNumber(q), LimitNumber(q))
  }

  class HrStore {
    var records: seq<Hr>

    constructor (records: seq<Hr>)
      ensures this.records == records
    {
      this.records := records;
    }

    /** populateHRData (lines 4-17). */
    method Populate()
      modifies this
      ensures records == old(records) + SampleHRs
    {
      records := records + SampleHRs;
    }

    method Search(matches: (string, string) -> bool, regexError: string -> Option<string>, q: SearchQuery)
      returns (reply: Reply)
      ensures reply == SearchReply(matches, regexError, records, q)
    {
      reply := SearchReply(matches, regexError, records, q);
    }
  }

  // ------------------------------------------------------------------ properties

  /** The filter keeps exactly the matching records; with no query it keeps them all. */
  lemma {:induction false} FilterExact(matches: (string, string) -> bool, query: Option<string>, records: seq<Hr>)
    ensures forall x :: x in Filter(matches, query, records) <==> x in records && Keep(matches, query, x)
    ensures !Given(query) ==> Filter(matches, query, records) == records
    decreases |records|
  {
    if records != [] {
      FilterExact(matches, query, records[1..]);
      assert records == [records[0]] + records[1..];
    }
  }

  /** One step of the filter: the first record is kept or dropped, then the rest is filtered. */
  lemma FilterCons(matches: (string, string) -> bool, query: Option<string>, h: Hr, t: seq<Hr>)
    ensures Filter(matches, query, [h] + t) == (if Keep(matches, query, h) then [h] else []) + Filter(matches, query, t)
  {
    assert ([h] + t)[0] == h && ([h] + t)[1..] == t;
  }

  /** Filtering a concatenation filters each part, so the kept records stay in their order. */
  lemma {:induction false} FilterAppend(matches: (string, string) -> bool, query: Option<string>, a: seq<Hr>, b: seq<Hr>)
    ensures Filter(matches, query, a + b) == Filter(matches, query, a) + Filter(matches, query, b)
    decreases |a|
  {
    if a == [] {
      assert a + b == b;
    } else {
      var head := if Keep(matches, query, a[0]) then [a[0]] else [];
      assert a == [a[0]] + a[1..] && a + b == [a[0]] + (a[1..] + b);
      FilterCons(matches, query, a[0], a[1..]);
      FilterCons(matches, query, a[0], a[1..] + b);
      FilterAppend(matches, query, a[1..], b);
      Regroup(head, Filter(matches, query, a[1..]), Filter(matches, query, b));
    }
  }

  lemma Regroup(x: seq<Hr>, y: seq<Hr>, z: seq<Hr>)
    ensures x + (y + z) == (x + y) + z
  {
  }

  /** For a positive limit, the page count is the ceiling of total / limit: enough pages
      for every record and no page wholly empty. */
  lemma TotalPagesCeil(total: nat, limit: int)
    requires limit > 0
    ensures var tp := TotalPages(total, limit).value;
      tp >= 0 && tp * limit >= total && (total > 0 ==> (tp - 1) * limit < total) && (total == 0 ==> tp == 0)
  {
    var tp := (total + limit - 1) / limit;
    var rem := (total + limit - 1) % limit;
    assert tp * limit + rem == total + limit - 1;
  }

  /** With positive page and limit and a valid pattern, page p holds the records from
      skip = (p-1)*limit on, at most limit of them; an invalid pattern fails with the
      database's message whatever the page. */
  lemma PageSlice(matches: (string, string) -> bool, regexError: string -> Option<string>,
                  records: seq<Hr>, q: SearchQuery, p: int, l: int)
    requires p >= 1 && l >= 1 && PageNumber(q) == Int(p) && LimitNumber(q) == Int(l)
    ensures var filtered := Filter(matches, q.query, records);
      var r := SearchReply(matches, regexError, records, q);
      var s := (p - 1) * l;
      && (!PatternOk(regexError, q.query) ==> r == Failure(regexError(q.query.value).value) && Status(r) == 500)
      && (PatternOk(regexError, q.query) ==>
            && ((s < |filtered|) <==> r.Found?)
            && (r.Found? ==>
                  && r.hrDetails == filtered[s .. if s + l < |filtered| then s + l else |filtered|]
                  && r.totalRecords == |filtered| && r.currentPage == p)
            && (!r.Found? ==> r == NotFound))
  {
    PageAnswer(matches, records, q.query, p, l);
  }

  lemma PageAnswer(matches: (string, string) -> bool, records: seq<Hr>, query: Option<string>, p: int, l: int)
    requires p >= 1 && l >= 1
    ensures var filtered := Filter(matches, query, records);
      var r := Answer(matches, records, query, Int(p), Int(l));
      var s := (p - 1) * l;
      && ((s < |filtered|) <==> r.Found?)
      && (r.Found? ==>
            && r.hrDetails == filtered[s .. if s + l < |filtered| then s + l else |filtered|]
            && r.totalRecords == |filtered| && r.currentPage == p)
      && (!r.Found? ==> r == NotFound)
  {
    NonNegativeProduct(p - 1, l);
    AnswerFrom(matches, records, query, p, l, (p - 1) * l);
  }

  /** The answer for page p, stated with its skip s = (p-1)*limit as a number of its own. */
  lemma AnswerFrom(matches: (string, string) -> bool, records: seq<Hr>, query: Option<string>, p: int, l: int, s: nat)
    requires p >= 1 && l >= 1 && s == (p - 1) * l
    ensures var filtered := Filter(matches, query, records);
      var r := Answer(matches, records, query, Int(p), Int(l));
      && ((s < |filtered|) <==> r.Found?)
      && (r.Found? ==>
            && r.hrDetails == filtered[s .. if s + l < |filtered| then s + l else |filtered|]
            && r.totalRecords == |filtered| && r.currentPage == p)
      && (!r.Found? ==> r == NotFound)
  {
    assert Skip(Int(p), Int(l)) == Int(s);
    WindowPage(Filter(matches, query, records), s, l);
  }

  /** A window with a positive limit is empty exactly when it starts past the end, and
      otherwise holds the next `limit` records, or all that are left. */
  lemma WindowPage(rs: seq<Hr>, s: nat, l: int)
    requires l >= 1
    ensures (s < |rs|) <==> |Window(rs, s, l)| > 0
    ensures s < |rs| ==> Window(rs, s, l) == rs[s .. if s + l < |rs| then s + l else |rs|]
  {
  }

  lemma NonNegativeProduct(a: int, b: int)
    requires a >= 0 && b >= 0
    ensures a * b >= 0
  {
  }

  /** Every matching record is on exactly one page: record k sits on page k / limit + 1 at
      position k % limit, and that page is within the page count. */
  lemma RecordOnItsPage(matches: (string, string) -> bool, records: seq<Hr>, query: Option<string>, l: int, k: nat)
    requires l >= 1 && k < |Filter(matches, query, records)|
    ensures var p := k / l + 1;
      var r := Answer(matches, records, query, Int(p), Int(l));
      && r.Found? && k % l < |r.hrDetails| && r.hrDetails[k % l] == Filter(matches, query, records)[k]
      && r.totalPages.Some? && p <= r.totalPages.value
  {
    var p, s, j := PageStart(k, l);
    RecordAt(matches, records, query, p, l, s, j);
  }

  /** Record k is at position j = k % limit of page p = k / limit + 1, which starts at
      s = (p-1)*limit. */
  lemma PageStart(k: nat, l: int) returns (p: int, s: nat, j: int)
    requires l >= 1
    ensures p == k / l + 1 && j == k % l
    ensures p >= 1 && s == (p - 1) * l && s + j == k && 0 <= j < l
  {
    DivisionParts(k, l);
    p, j := k / l + 1, k % l;
    ShiftedProduct(k / l, l);
    s := (p - 1) * l;
  }

  /** Position j of page p holds record s + j, where s = (p-1)*limit, and p is within the
      page count. */
  lemma RecordAt(matches: (string, string) -> bool, records: seq<Hr>, query: Option<string>, p: int, l: int, s: nat, j: int)
    requires p >= 1 && l >= 1 && s == (p - 1) * l && 0 <= j < l && s + j < |Filter(matches, query, records)|
    ensures var r := Answer(matches, records, query, Int(p), Int(l));
      && r.Found? && j < |r.hrDetails| && r.hrDetails[j] == Filter(matches, query, records)[s + j]
      && r.totalPages.Some? && p <= r.totalPages.value
  {
    AnswerFrom(matches, records, query, p, l, s);
    WithinPageCount(|Filter(matches, query, records)|, p, l);
    TotalPagesOfAnswer(matches, records, query, p, l, s);
  }

  /** A page that is found reports the page count of the whole filtered list. */
  lemma TotalPagesOfAnswer(matches: (string, string) -> bool, records: seq<Hr>, query: Option<string>, p: int, l: int, s: nat)
    requires p >= 1 && l >= 1 && s == (p - 1) * l && s < |Filter(matches, query, records)|
    ensures Answer(matches, records, query, Int(p), Int(l)) == Found(|Filter(matches, query, records)|, p, TotalPages(|Filter(matches, query, records)|, l), Answer(matches, records, query, Int(p), Int(l)).hrDetails)
  {
    assert Skip(Int(p), Int(l)) == Int(s);
  }

  lemma ShiftedProduct(q: int, l: int)
    ensures (q + 1 - 1) * l == q * l
  {
  }

  lemma WithinPageCount(total: nat, p: int, l: int)
    requires p >= 1 && l >= 1 && (p - 1) * l < total
    ensures TotalPages(total, l).Some? && p <= TotalPages(total, l).value
  {
    TotalPagesCeil(total, l);
    ProductOrder(p - 1, TotalPages(total, l).value, l);
  }

  lemma DivisionParts(k: nat, l: int)
    requires l > 0
    ensures (k / l) * l + k % l == k && 0 <= k % l < l
  {
  }

  lemma ProductOrder(a: int, b: int, l: int)
    requires l > 0 && a * l < b * l
    ensures a < b
  {
    assert (b - a) * l > 0;
  }

  /** A page number printed in the query is read back as that number. */
  lemma PrintedPage(q: SearchQuery, p: int)
    ensures PageNumber(q.(page := Some(NumberToString(Int(p))))) == Int(p)
  {
    ParseIntPrinted(p);
  }

  /** A page past the end is answered 404 although records match. */
  lemma PastTheEnd(matches: (string, string) -> bool, regexError: string -> Option<string>,
                    records: seq<Hr>, q: SearchQuery, p: int, l: int)
    requires p >= 1 && l >= 1 && PageNumber(q) == Int(p) && LimitNumber(q) == Int(l)
    requires (p - 1) * l >= |Filter(matches, q.query, records)|
    ensures PatternOk(regexError, q.query) ==> SearchReply(matches, regexError, records, q) == NotFound
  {
    PageSlice(matches, regexError, records, q, p, l);
  }

  /** Populating an empty directory and searching with no query lists the two samples on
      one page. */
  lemma PopulateThenList(matches: (string, string) -> bool, regexError: string -> Option<string>)
    ensures SearchReply(matches, regexError, [] + SampleHRs, SearchQuery(None, None, None)) == Found(2, 1, Some(1), SampleHRs)
  {
    var q := SearchQuery(None, None, None);
    FilterExact(matches, None, SampleHRs);
    assert [] + SampleHRs == SampleHRs;
    assert PatternOk(regexError, q.query);
    assert SearchReply(matches, regexError, SampleHRs, q) == Answer(matches, SampleHRs, None, Int(1), Int(10));
  }
}
