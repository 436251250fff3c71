# backend-ai-hire, modelled in Dafny

This project models the core of an Express backend that helps job seekers. It covers six parts:

- **The HR-contact discovery engine (`utils/emailCrawler.js`).** Given a person's name and/or a
  company name, it works out the company's domain and fills six mailbox templates. It crawls the
  company site breadth-first and keeps the relevant addresses it finds. For a name without a
  company, it reads one web-search page.
- **The user controller.** Signup, signin, refresh-token exchange and logout over a store of users.
- **The résumé analysis handler.** The upload checks, assembling the text of the parsed PDF,
  cleaning and parsing the language model's reply, the shape check, and what is stored.
- **The job-search handler.** The Adzuna request URL, the mapping of each result to a job
  record, and the next page number.
- **The HR directory search.** Filtering, skip/limit pagination, the page count and the empty-page
  rule, plus the sample-data insert.
- **The bearer-token middleware.**

How the outside world is represented:

- The outside world is a value the model takes as a parameter.
- The web is a finite map from URL to a page or a failure. A page is the matches of the email
  pattern in its text, plus the `href`s of its links.
- The search engine's answers are given.
- URL resolution, hostnames, the address validator, bcrypt, JWT verification, the PDF parser,
  `decodeURIComponent`, the language model, `JSON.parse`, the document store's save and the
  `$regex` test are all functions the model does not look into.
- Side effects appear as results:
  - the sequence of browser sessions and HTTP GETs the discovery engine performs;
  - the new state of the user store;
  - the document stored for a résumé.

How the code is modelled:

- Pure logic is specified by functions.
- Code that changes state step by step is modelled by methods:
  - the crawl loop;
  - the pattern loop;
  - the URL builder;
  - the text-assembly loops;
  - the handlers over the user and HR stores.
- Each method is proved equal to its specifying function, and the properties are proved as lemmas
  about those functions.
- JavaScript's string built-ins are modelled once, in `JsStrings`:
  - `trim`, `indexOf`/`includes`, `replace` with a string pattern (including `$` patterns);
  - `split` on one character and `join`;
  - `toLowerCase`;
  - `parseInt` (white space, sign, `0x`, longest digit prefix, NaN);
  - integer printing and `encodeURIComponent`.

Where an idealised reading of the system would differ, the model follows the code:

- **No deduplication.** The result collection is not deduplicated by address. The code's `Set`
  holds a fresh object literal per addition, so the same address found twice appears twice
  (`SameAddressTwice`).
- **The 50-page limit is not a hard ceiling.** It is tested only before each batch, so a crawl can
  visit more than 50 pages (`CrawlCanPassCap`).
- **Case sensitivity.** The relevance test ignores case only for `hr`.
- **Site-crawl source.** A site-crawl entry's source is the page URL.
- **Loose "same host" test.** The hostname only has to occur somewhere in the link.
- **A repeated URL crashes.** A URL met twice in one batch makes the crawl throw
  (`RepeatedLinkThrows`, `LinkAheadInBatchThrows`).

The job-search page number goes into the request URL unencoded, unlike every other value the user
supplies. A page holding `?` or `#` therefore changes the parameters the Adzuna server reads
(`RawPageMovesQuery`); `UrlRoundTrip` holds for every other page.

## Model

| member | source | states |
|---|---|---|
| EmailCrawler.FallbackDomain | utils/emailCrawler.js:38-43 | the fallback domain ends in `.com` and holds no white space and no upper-case letter before it |
| EmailCrawler.SlugIsLoweredLetters | utils/emailCrawler.js:38 | removing white space and lower-casing commute, so the slug is the lower-cased name without its white space |
| EmailCrawler.RemoveSpacesOfTwoWords | utils/emailCrawler.js:38 | two words without white space joined by one space lose exactly that space |
| EmailCrawler.TwoWordFallback | utils/emailCrawler.js:38-43 | a two-word company name falls back to both words lower-cased, joined, plus `.com` |
| EmailCrawler.CompanyDomain | utils/emailCrawler.js:20-45 | the domain is never empty |
| EmailCrawler.CompanyDomainChoice | utils/emailCrawler.js:37-43 | the domain is the host captured from the first link exactly when the search rendered and gave a link with a host; otherwise, including when the search threw, it is the fallback |
| EmailCrawler.SingleWordName | utils/emailCrawler.js:123-126 | a name without a space gives itself lower-cased as first name and the text `undefined` as last name |
| EmailCrawler.TwoWordName | utils/emailCrawler.js:123-126 | a name split at its one space gives both pieces lower-cased |
| EmailCrawler.PatternCandidates | utils/emailCrawler.js:127-137 | at most one entry per template, each valid, with source `Pattern inference` and confidence 0.5 |
| EmailCrawler.PatternCandidatesExact | utils/emailCrawler.js:127-137 | an address is a pattern entry exactly when it is the filled form of some template and is valid |
| EmailCrawler.RoleTemplates | utils/emailCrawler.js:8-12 | the four role templates fill to `hr@`, `careers@`, `recruitment@` and `jobs@` followed by the domain |
| EmailCrawler.RoleTemplate | utils/emailCrawler.js:129-132 | a template `box{domain}` fills to the mailbox followed by the domain |
| EmailCrawler.FillPersonal | utils/emailCrawler.js:129-132 | `{first}<sep>{last}@{domain}` fills to first, separator, last, `@`, domain, when no filled-in value can be mistaken for a placeholder or a `$` pattern |
| EmailCrawler.DottedTemplate | utils/emailCrawler.js:13 | the fifth template fills to `first.last@domain` |
| EmailCrawler.JoinedTemplate | utils/emailCrawler.js:14 | the sixth template fills to `firstlast@domain` |
| EmailCrawler.TwoWordNameCandidates | utils/emailCrawler.js:123-137 | for a two-word name, `hr@domain` and the lower-cased `first.last@domain` are candidates whenever the validator accepts them |
| EmailCrawler.OneWordNamePatterns | utils/emailCrawler.js:123-132 | a one-word name fills the personal templates with the text `undefined` as last name |
| EmailCrawler.SiteCandidates | utils/emailCrawler.js:65-73 | at most one entry per match, each with the page URL as source and confidence 0.9 |
| EmailCrawler.SiteCandidatesSound | utils/emailCrawler.js:65-73 | every address kept from a page passed the validator and the relevance test |
| EmailCrawler.SiteCandidatesExact | utils/emailCrawler.js:65-73 | a matched address is kept exactly when it is valid and relevant |
| EmailCrawler.PageEmailsSound | utils/emailCrawler.js:58-73 | every entry a fetched page adds is valid and relevant |
| EmailCrawler.UpperHrRelevant | utils/emailCrawler.js:67 | `HR@…` is relevant: the `hr` test ignores case |
| EmailCrawler.LowerJobsRelevant | utils/emailCrawler.js:70 | `jobs@…` is relevant |
| EmailCrawler.UpperJobsIrrelevant | utils/emailCrawler.js:68-70 | `Jobs@…` is not relevant: the `career`, `recruit` and `job` tests are case-sensitive |
| EmailCrawler.NoKeywordLetter | utils/emailCrawler.js:66-70 | an address without the letters h, H, c, r and j is never relevant |
| EmailCrawler.AbsoluteLinkHostTest | utils/emailCrawler.js:81-82 | a link starting with `http` is followed exactly when the page's hostname occurs in it |
| EmailCrawler.ProtocolRelativeFollowed | utils/emailCrawler.js:79-80 | a link that does not start with `http` (a protocol-relative one, say) is resolved and followed whatever host it names |
| EmailCrawler.ExtractLinksExact | utils/emailCrawler.js:76-85 | link extraction throws exactly when resolving some followed link throws; otherwise it yields exactly the followed links |
| EmailCrawler.PageEmails | utils/emailCrawler.js:53-73 | the entries of a page carry the page URL as source and confidence 0.9 |
| EmailCrawler.Unvisited | utils/emailCrawler.js:103 | the filter keeps exactly the links not yet visited |
| EmailCrawler.RunBatch | utils/emailCrawler.js:101-104 | a batch only adds to `visited`, to the entries and to the fetch log |
| EmailCrawler.BatchVisitsAll | utils/emailCrawler.js:101-104 | a batch that does not throw visits every URL of the batch |
| EmailCrawler.BatchCountsAll | utils/emailCrawler.js:101-104 | a batch that does not throw grows `visited` by the batch's length |
| EmailCrawler.BatchFetchesAll | utils/emailCrawler.js:101-104 | a batch that does not throw fetches its URLs in order |
| EmailCrawler.BatchCrashIff | utils/emailCrawler.js:49 | a batch throws exactly when it holds a URL twice or a URL already visited |
| EmailCrawler.Crawl | utils/emailCrawler.js:99-107 | the crawl only adds to `visited`, to the entries and to the fetch log; it terminates because 50 − |visited| decreases with every batch |
| EmailCrawler.BatchFetchesOnce | utils/emailCrawler.js:48-50 | a batch keeps the fetch log free of repeats and equal to the visited set |
| EmailCrawler.CrawlKeepsFetchedOnce | utils/emailCrawler.js:99-107 | the crawl keeps the fetch log free of repeats and equal to the visited set |
| EmailCrawler.CrawlFetchesEachUrlOnce | utils/emailCrawler.js:93-111 | a site crawl fetches each URL at most once, and fetches exactly the visited URLs |
| EmailCrawler.CrawlStopsAtCapOrEmpty | utils/emailCrawler.js:99 | a crawl that does not throw stops with no URL left or with at least 50 visited |
| EmailCrawler.BatchEmailsSound | utils/emailCrawler.js:65-104 | a batch keeps every entry valid and relevant, with confidence 0.9 and a visited page as source |
| EmailCrawler.CrawlEmailsSoundFrom | utils/emailCrawler.js:99-107 | a crawl keeps every entry valid and relevant, with confidence 0.9 and a visited page as source |
| EmailCrawler.CrawlEmailsSound | utils/emailCrawler.js:93-111 | every entry of a site crawl is valid and relevant, with confidence 0.9 and a visited page as source |
| EmailCrawler.BatchOfDeadEnds | utils/emailCrawler.js:101-105 | a batch over pages that give no links gathers no URL |
| EmailCrawler.BatchStep | utils/emailCrawler.js:101-104 | a fresh URL at the head of a batch is visited, then the rest of the batch runs |
| EmailCrawler.FirstBatch | utils/emailCrawler.js:96-97 | the first batch is the base URL `https://domain` alone |
| EmailCrawler.CrawlCanPassCap | utils/emailCrawler.js:99-105 | when the home page links to n other distinct dead-end pages, the crawl visits n + 1 pages, past 50 when n ≥ 50 |
| EmailCrawler.CycleVisitsEachPageOnce | utils/emailCrawler.js:99-107 | on the graph A→B, A→C, B→A, the crawl visits A, B and C once each and does not throw |
| EmailCrawler.RepeatedLinkThrows | utils/emailCrawler.js:102-103 | a home page linking twice to the same page makes the second batch throw on it |
| EmailCrawler.LinkAheadInBatchThrows | utils/emailCrawler.js:102-103 | a link to a page the same batch crawls later makes the next batch throw on it |
| EmailCrawler.CrawlMeetsVisited | utils/emailCrawler.js:49 | a batch starting with a visited URL throws on it at once |
| EmailCrawler.CrawlThrows | utils/emailCrawler.js:102-103 | a batch that throws ends the crawl with that throw |
| EmailCrawler.CrawlContinues | utils/emailCrawler.js:99-107 | a batch that does not throw hands the URLs it gathered to the next round |
| EmailCrawler.Crawler.CrawlPage | utils/emailCrawler.js:48-90 | the new `visited`, entries and fetch log, and the return value, are those of the page step: a visited URL changes nothing and returns undefined |
| EmailCrawler.Crawler.AddPageEmails | utils/emailCrawler.js:65-73 | the shared entries grow by exactly the page's kept matches; nothing else changes |
| EmailCrawler.CollectLinks | utils/emailCrawler.js:76-85 | the collected links are exactly those of the link filter, or a throw |
| EmailCrawler.CrawlCompanySite | utils/emailCrawler.js:93-111 | the method's result and its fetch log are those of the functional crawl |
| EmailCrawler.SearchCandidates | utils/emailCrawler.js:164-168 | every name-search entry is valid, with source `Web search` and confidence 0.6 |
| EmailCrawler.Gets | utils/emailCrawler.js:54 | one GET per URL, in order |
| EmailCrawler.EmptyRequest | utils/emailCrawler.js:113-177 | a request with neither name nor company resolves to `[]` with no I/O |
| EmailCrawler.NameOnlyRequest | utils/emailCrawler.js:146-172 | a name alone gives one browser search and only the search page's valid matches |
| EmailCrawler.CrawlStartsAtBase | utils/emailCrawler.js:96-102 | the crawl's first fetch is the base URL |
| EmailCrawler.CompanyRequest | utils/emailCrawler.js:117-144 | with a company, the domain search comes first, then the crawl's GETs starting at the base URL, and no name search; the request fails exactly when the crawl throws; otherwise the result is the pattern entries followed by the site entries; without a name there are no pattern entries |
| EmailCrawler.SameAddressTwice | utils/emailCrawler.js:134-143 | an address found by both the patterns and the crawl appears twice in the result |
| EmailCrawler.ResultsAreValid | utils/emailCrawler.js:113-177 | every result entry passed the validator and carries its stage's confidence |
| EmailCrawler.InferPatterns | utils/emailCrawler.js:128-137 | the loop's entries are exactly the pattern candidates |
| EmailCrawler.AddAll | utils/emailCrawler.js:143 | all the site entries are appended in order |
| EmailCrawler.AddSearchMatches | utils/emailCrawler.js:164-168 | the search page's valid matches are appended in order |
| EmailCrawler.FindHREmails | utils/emailCrawler.js:113-177 | the method's result and I/O trace are those of the stage-by-stage specification |
| UserController.FindFirst | controllers/userController.js:12 | `findOne` answers the first record the filter accepts, or none exactly when no record does |
| UserController.UserStore.constructor | controllers/userController.js:7-196 | an empty store satisfies the unique-email and unique-id invariant |
| UserController.UserStore.Signup | controllers/userController.js:7-41 | the new store and the reply are those of the signup step |
| UserController.UserStore.Signin | controllers/userController.js:44-78 | the new store and the reply are those of the signin step |
| UserController.UserStore.Refresh | controllers/userController.js:137-165 | the reply is that of the refresh step for the body field, where only a string counts as a token; the store is not changed |
| UserController.UserStore.Logout | controllers/userController.js:167-196 | the new store and the reply are those of the logout step |
| UserController.SetTokenValid | controllers/userController.js:23-24 | setting one user's token keeps the invariant and changes only that token |
| UserController.SignupValid | controllers/userController.js:12-24 | signup keeps unique emails and ids |
| UserController.SigninValid | controllers/userController.js:47-61 | signin keeps unique emails and ids |
| UserController.LogoutValid | controllers/userController.js:173-189 | logout keeps unique emails and ids |
| UserController.SignupOutcome | controllers/userController.js:12-36 | signup answers 400 and changes nothing exactly when the lower-cased, trimmed email is registered; otherwise it appends one user holding that email, the trimmed full name and the issued refresh token, and answers 201 with the stored email and the token |
| UserController.SigninOutcome | controllers/userController.js:47-76 | 404 exactly for an unknown (lower-cased, trimmed) email; any failure changes nothing; 500 with bcryptjs's `Illegal arguments: string, undefined` exactly when the record has no password; 400 "Invalid credentials" exactly when the record has a password that does not match; 200 exactly when it matches, and then only that user's token becomes the issued refresh token; no other status is answered |
| UserController.SignupIgnoresCase | Schema/userModel.js:10-16 | a second signup whose email differs only in case or surrounding space is refused with 400 and changes nothing |
| UserController.MixedCaseKey | Schema/userModel.js:10-16 | `Jane@X.com` and `jane@x.com` are stored and looked up as `jane@x.com` |
| UserController.RefreshOutcome | controllers/userController.js:140-159 | for a string token: 401 exactly without a token; 200 with the new access token exactly when some user holds the token; otherwise 403 |
| UserController.OperatorBodyRefreshes | controllers/userController.js:138-159 | as written, the body `{"refreshToken": {"$ne": null}}` is answered 200 with a new access token whenever some user holds any token |
| UserController.RefreshOfBodyOutcome | controllers/userController.js:138-159 | the corrected handler answers 200 exactly for a string token some user holds, agrees with the code on every string body, and answers an operator object 401 |
| UserController.LogoutOutcome | controllers/userController.js:173-191 | 404 exactly for an unknown id; 403 exactly when a supplied token differs from the stored one; errors change nothing; on 200 that user holds no token, none at all when one was presented, and every other user is unchanged; no other status is answered |
| UserController.TokenLifecycle | controllers/userController.js:7-196 | after signup the issued refresh token refreshes; after a logout presenting it, it is refused with 403 |
| ResumeAnalysis.AssembleText | controllers/resumeAnalysisController.js:51-60 | the nested loops build exactly the specified text: each text's decoded first run and a space, page by page, or the first throw |
| ResumeAnalysis.AssembleFails | controllers/resumeAnalysisController.js:55-57 | assembly fails exactly when some text has no run or a malformed escape |
| ResumeAnalysis.AssembleConcat | controllers/resumeAnalysisController.js:53-59 | assembling `a + b` is assembling `a`, then continuing with `b` |
| ResumeAnalysis.AssembleExtends | controllers/resumeAnalysisController.js:56 | a successful assembly extends the text it started from |
| ResumeAnalysis.OneText | controllers/resumeAnalysisController.js:56 | one text yields its decoded first run followed by one space |
| ResumeAnalysis.RemoveFences | controllers/resumeAnalysisController.js:103 | removing the fences never lengthens the text |
| ResumeAnalysis.RemoveFencesPlain | controllers/resumeAnalysisController.js:103 | text before the first backtick passes through unchanged |
| ResumeAnalysis.FencedReply | controllers/resumeAnalysisController.js:103 | a reply wrapped in a ```` ```json ```` block loses exactly the wrapping |
| ResumeAnalysis.CleanReply | controllers/resumeAnalysisController.js:102-105 | the cleaned reply has no white space at either end, no two white-space characters in a row, and only plain spaces |
| ResumeAnalysis.CleanKeepsContent | controllers/resumeAnalysisController.js:102-105 | cleaning removes only fences and white space; every other character stays, in order |
| ResumeAnalysis.CleanOfClean | controllers/resumeAnalysisController.js:102-105 | cleaning an already clean reply changes nothing |
| ResumeAnalysis.ParseFencedReply | controllers/resumeAnalysisController.js:96-111 | a fenced reply that does not parse as it stands is read as its clean inside |
| ResumeAnalysis.CheckShapeExact | controllers/resumeAnalysisController.js:114-130 | the check accepts exactly an object with a truthy score and two arrays, and keeps those three fields unchanged |
| ResumeAnalysis.ZeroScoreRejected | controllers/resumeAnalysisController.js:114 | a score of 0 is rejected like a missing one |
| ResumeAnalysis.AnalyzeResume | controllers/resumeAnalysisController.js:5-154 | the handler's answer and stored document are those of the specification |
| ResumeAnalysis.UploadChecks | controllers/resumeAnalysisController.js:8-24 | a missing file gives 400 before anything else, then a type other than PDF gives 400; these are the only 400 answers |
| ResumeAnalysis.AnalyzeTextAnswers | controllers/resumeAnalysisController.js:68-153 | after the upload checks the handler never answers 400 |
| ResumeAnalysis.BlankTextNotSent | controllers/resumeAnalysisController.js:62-64 | a text that is all white space fails with the no-text message, whatever the language model would answer |
| ResumeAnalysis.SuccessStoresAnswer | controllers/resumeAnalysisController.js:121-145 | a success stores exactly the analysis it answers with, under the upload's file name and the request's profile and level; its score is truthy; no failure stores anything |
| JobController.BuildApiUrl | controllers/jobController.js:9-24 | the appended URL equals the path followed by the parameters joined with `&` |
| JobController.AppendParam | controllers/jobController.js:21-24 | one more `&key=value` on the URL is one more parameter in the list |
| JobController.FixedQuery | controllers/jobController.js:19 | the fixed query is `app_id`, `app_key` and `results_per_page=10`, in order |
| JobController.QueryRoundTrip | controllers/jobController.js:19-24 | splitting the joined parameter list at `&` gives back exactly the parameters, provided the credentials hold no `&` |
| JobController.UrlRoundTrip | controllers/jobController.js:9-24 | the parameters the API server reads from the request URL (after the first `?`, before the first `#`, split at `&`) are exactly the fixed parameters and the filters, provided the credentials hold no `&` or `#` and the page holds no `?` or `#` |
| JobController.RawPageMovesQuery | controllers/jobController.js:19 | the page goes into the path unencoded: the page `1?what=x` makes the server read `what=x?app_id=…` as its first parameter, so the parameters are not the intended ones |
| JobController.PathWithout | controllers/jobController.js:12-19 | the path holds `&`, `?` or `#` only where the page brings one in |
| JobController.NumberPlain | controllers/jobController.js:24 | a printed integer holds no `&`, `?` or `#` |
| JobController.EncodedPlain | controllers/jobController.js:13-22 | an encoded value holds no `&`, `?` or `#` |
| JobController.FiltersPlain | controllers/jobController.js:21-24 | no optional filter holds an `&`, `?` or `#` |
| JobController.FiltersGiven | controllers/jobController.js:21-24 | one filter per given field, in the order what, where, full_time, max_days_old; `full_time` is 1 exactly for the type `fulltime` in any case |
| JobController.EmptyQueryUrl | controllers/jobController.js:6-19 | with no field given the request is for page 1 of `gb`, unfiltered |
| JobController.FormatJobDefaults | controllers/jobController.js:32-42 | each default replaces exactly a missing or falsy value; coordinates are given exactly when both are truthy, and then unchanged; salary text follows `salary_is_predicted === "1"` |
| JobController.NoLocation | controllers/jobController.js:36 | a job without a location object gets `Location not specified` |
| JobController.GetJobs | controllers/jobController.js:4-49 | the handler requests the specified URL and answers the fetch error or the reply for the body |
| JobController.JobsOutcome | controllers/jobController.js:28-42 | an empty result list answers "No jobs found"; a list of objects answers one formatted job per result, in order; the status is 200 exactly when no result is null |
| JobController.ResultsOutcome | controllers/jobController.js:28-42 | the same facts for a body whose next page is already read |
| JobController.NextPage | controllers/jobController.js:44 | `nextPage` is 2 for a missing page and n + 1 for a printed n |
| JobController.PageAfter | controllers/jobController.js:44 | the page after a missing page is 2; after a printed n it is n + 1 |
| HrEmailController.Filter | controllers/hrEmailController.js:27-35 | the filter returns no more records than it is given, each drawn from them and matching |
| HrEmailController.FilterAppend | controllers/hrEmailController.js:27-35 | filtering a concatenation concatenates the filtered parts, so the kept records stay in their order |
| HrEmailController.FilterExact | controllers/hrEmailController.js:27-35 | a record is kept exactly when it matches; with no query every record is kept, in order |
| HrEmailController.Window | controllers/hrEmailController.js:38 | a window never holds more records than the list |
| HrEmailController.WindowPage | controllers/hrEmailController.js:38 | with a positive limit the window is empty exactly past the end, and otherwise holds the next `limit` records or all that are left |
| HrEmailController.HrStore.Populate | controllers/hrEmailController.js:4-17 | populating appends exactly the two sample records |
| HrEmailController.HrStore.Search | controllers/hrEmailController.js:20-53 | the answer is that of the search over the stored records, including the 500 for a pattern the database rejects |
| HrEmailController.TotalPagesCeil | controllers/hrEmailController.js:47 | for a positive limit the page count is the ceiling of total / limit |
| HrEmailController.PageSlice | controllers/hrEmailController.js:22-52 | a pattern the database rejects answers 500 with the database's message whatever the page; otherwise page p with limit l is found exactly when (p−1)·l is below the number of matches, and then holds the matches from (p−1)·l on, at most l of them, with the total count and the page number; otherwise 404 |
| HrEmailController.PageAnswer | controllers/hrEmailController.js:25-48 | the same for page and limit already read |
| HrEmailController.AnswerFrom | controllers/hrEmailController.js:25-48 | the same, with the skip as its own number |
| HrEmailController.RecordOnItsPage | controllers/hrEmailController.js:25-48 | match k sits on page k / l + 1 at position k mod l, and that page is within the page count |
| HrEmailController.RecordAt | controllers/hrEmailController.js:25-48 | position j of page p holds match (p−1)·l + j, and p is within the page count |
| HrEmailController.TotalPagesOfAnswer | controllers/hrEmailController.js:44-48 | a found page reports the count and page count of all matches |
| HrEmailController.WithinPageCount | controllers/hrEmailController.js:47 | a page starting before the end is within the page count |
| HrEmailController.PrintedPage | controllers/hrEmailController.js:22-23 | a page number printed in the query is read back as that number |
| HrEmailController.PastTheEnd | controllers/hrEmailController.js:40-42 | with a valid pattern, a page past the end answers 404 although records match |
| HrEmailController.PopulateThenList | controllers/hrEmailController.js:4-49 | after populating an empty directory, a search with no query lists the two samples on one page |
| AuthMiddleware.Token | middleware/authMiddleware.js:11 | without `Bearer ` the header is the token; otherwise the first `Bearer ` is cut out wherever it is |
| AuthMiddleware.Authenticate | middleware/authMiddleware.js:3-24 | a request passes exactly when a non-empty header gives a non-empty token that verifies; then `req.user` is its payload and `next` runs once, with no response sent by the middleware; otherwise 401 with one of the three messages and no `next` |
| AuthMiddleware.MissingHeader | middleware/authMiddleware.js:6-8 | a missing or empty header is refused with "No token provided" and `next` is not called |
| AuthMiddleware.StripsPrefix | middleware/authMiddleware.js:11 | `Bearer <token>` yields `<token>` |
| AuthMiddleware.StripsInside | middleware/authMiddleware.js:11 | `Bearer ` is cut out where it first occurs, not only at the front |
| AuthMiddleware.BareBearer | middleware/authMiddleware.js:13-15 | a header that is exactly `Bearer ` is refused with "Invalid token format" |
| AuthMiddleware.BearerHeader | middleware/authMiddleware.js:17-23 | a bearer token that verifies passes with its payload; one that does not is refused with "Invalid Token" |
| AuthMiddleware.NoPrefix | middleware/authMiddleware.js:11-23 | a header without `Bearer ` is verified as it stands |
| JsStrings.TrimStart | controllers/resumeAnalysisController.js:62 | the removed prefix is all white space and the rest does not start with white space |
| JsStrings.TrimEnd | controllers/resumeAnalysisController.js:62 | the removed suffix is all white space and the rest does not end with white space |
| JsStrings.Trim | controllers/resumeAnalysisController.js:62 | the trimmed text has no white space at either end |
| JsStrings.TrimIsSlice | controllers/resumeAnalysisController.js:62 | the trimmed text is the slice between a white-space prefix and a white-space suffix |
| JsStrings.TrimEmptyIffBlank | controllers/resumeAnalysisController.js:62 | the trimmed text is empty exactly when the text is all white space |
| JsStrings.RemoveSpaces | utils/emailCrawler.js:38 | the result holds no white space |
| JsStrings.RemoveSpacesAppend | utils/emailCrawler.js:38 | removing white space distributes over concatenation |
| JsStrings.TrimKeepsContent | controllers/resumeAnalysisController.js:105 | trimming keeps every other character, in order |
| JsStrings.CollapseSpaces | controllers/resumeAnalysisController.js:104 | the result has no two white-space characters in a row and only plain spaces, is empty exactly when the text is, and starts like it |
| JsStrings.CollapseKeepsContent | controllers/resumeAnalysisController.js:104 | collapsing keeps every other character, in order |
| JsStrings.TrimKeepsCollapsed | controllers/resumeAnalysisController.js:104-105 | trimming a collapsed text leaves it collapsed |
| JsStrings.CollapseFixed | controllers/resumeAnalysisController.js:104 | collapsing an already collapsed text changes nothing |
| JsStrings.IndexFrom | utils/emailCrawler.js:67-70 | the answer is an occurrence at or after the start, with none before it, or -1 when there is none |
| JsStrings.IndexOf | utils/emailCrawler.js:67-70 | the answer is the first occurrence, or -1 when there is none |
| JsStrings.FirstOccurrence | utils/emailCrawler.js:129-132 | when the pattern's first character is not in `a`, the first occurrence in `a + p + b` is right after `a` |
| JsStrings.SubstitutionLiteral | middleware/authMiddleware.js:11 | a replacement without `$` is inserted literally |
| JsStrings.ReplaceFirst | middleware/authMiddleware.js:11 | a text without an occurrence of the pattern is returned unchanged |
| JsStrings.ReplaceAfter | utils/emailCrawler.js:129-132 | replacing the first occurrence right after `a` by text without `$` gives `a`, the replacement, then the rest |
| JsStrings.Split | utils/emailCrawler.js:125 | the pieces hold no separator |
| JsStrings.SplitWithout | utils/emailCrawler.js:125 | a text without the separator splits into itself alone |
| JsStrings.SplitAround | utils/emailCrawler.js:125 | splitting at one separator splits each side on its own |
| JsStrings.SplitJoin | controllers/jobController.js:19-24 | joining pieces free of the separator, then splitting, gives the pieces back |
| JsStrings.LowerChar | utils/emailCrawler.js:67 | the result is never an upper-case letter, and is white space exactly when the character is |
| JsStrings.Lower | utils/emailCrawler.js:67 | same length, each character lower-cased on its own |
| JsStrings.LowerKeepsAbsent | utils/emailCrawler.js:67 | lower-casing brings in no non-letter character that was absent |
| JsStrings.DigitRun | controllers/jobController.js:44 | the run is the longest prefix of digits of the radix |
| JsStrings.Decimal | controllers/jobController.js:24 | the numeral is non-empty decimal digits, with a leading zero only for 0 itself |
| JsStrings.ParseIntPrinted | controllers/jobController.js:44 | `parseInt` reads back every integer that `String` prints |
| JsStrings.Utf8 | controllers/jobController.js:13-22 | one to four bytes, each below 256 |
| JsStrings.PercentBytes | controllers/jobController.js:13-22 | three characters per byte, each a `%` or an unreserved character |
| JsStrings.EncodeURIComponent | controllers/jobController.js:13-22 | the encoding holds only unreserved characters and `%` |
| JsStrings.EncodeUnreserved | controllers/jobController.js:13-22 | text made of unreserved characters is not changed |

## Left out

- **Network, browser and DOM.** Puppeteer, Google queries, axios and cheerio become the `Env`
  value. Its parts are: the pages, the first search link, the name-search matches, and where a
  fetch or a browser session fails.
- **The pause between batches.** The one-second pause is timing only.
- **Outside libraries left abstract:**
  - the email validator;
  - `new URL` resolution, an abstract function where `None` is a throw;
  - hostnames, an abstract total function, since a URL that was just fetched parses;
  - the regular expressions of lines 17 and 37 of `utils/emailCrawler.js`, whose matches are
    inputs.
- **Concurrency.** Every `await` in the core runs in sequence, so none is modelled.
- **Mongoose.** Mongoose, its schemas and validation, and the MongoDB query engine are replaced by
  a sequence of records. Of the user schema, only the `lowercase` and `trim` setters of the
  email and the `trim` setter of the full name are modelled (`EmailKey`). They apply to the stored
  record and to the `findOne` filter alike, so the reply's `email` and `fullname` are the
  normalised values. Other casting, the `required` and `minlength` validation and the unique index
  errors are not modelled.
- **Types of request fields.** Body and query fields are strings or missing. The refresh handler's
  `refreshToken` may also be a `$ne` operator object (see "Findings"). Other objects in a JSON body,
  and the arrays that repeated query keys produce, are not modelled.
- **How `skip` and `limit` are read.** A skip that is NaN or negative is answered as a failure. A
  limit of 0 means no limit. A negative limit is read as its magnitude. The failure's message
  `skip requires a non-negative number` is a placeholder: the code answers whatever message the
  database driver gives.
- **Order of the HR records.** The directory is held in insertion order, and a query without a
  sort is assumed to return the records in that order. MongoDB does not promise any order, so
  which records land on which page rests on this assumption.
- **The `$regex` match** is an abstract predicate. Whether the database accepts a pattern is the
  abstract function `regexError`, and a rejected pattern answers 500 with its message.
- **Crypto and tokens.**
  - bcrypt is two abstract functions.
  - The token that `jwt.sign` issues is an input, since it holds a clock reading.
  - `jwt.verify` is an abstract function.
  - The `_id` of a new user is a counter.
- **Other handlers and wiring.** `googleAuth`, `linkedinAuth`, the cover-letter controller, the Zod
  validators, the routes, `index.js` and all console output are not part of this model.
- **The language-model prompt.** The prompt text is not modelled. The model is called with the
  profile, the level and the résumé text.
- **Parsing, decoding and saving.** `JSON.parse`, `decodeURIComponent`, pdf2json and the document
  save are abstract partial functions.
- JsStrings.Lower: `toLowerCase` is modelled for the ASCII letters only. Full Unicode case mapping
  is not modelled.
- JsStrings.EncodeURIComponent: strings are sequences of Unicode scalar values, not UTF-16 code
  units, so a lone surrogate such as the JSON escape `\ud800` cannot be represented. The URIError
  that `encodeURIComponent` throws on one is therefore not modelled. At utils/emailCrawler.js:22 and
  :149 the call is outside the `try`, so findHREmails would reject. At
  controllers/jobController.js:13-22 the call is inside the `try`, so getJobs would answer 500.
- JsStrings.NumberToString: integers are printed in decimal. Exponent notation from 1e21 up is not
  modelled, and neither are floating-point page numbers.
- JsStrings.ParseInt: it yields an integer or NaN. A parsed number too large to be exact as a
  double is kept exact here.
- JobController.ResultsReply: the API body is a parsed JSON value. Errors thrown inside
  `data.results.map` appear as failure messages.
- UserController.UserStore.Refresh: it implements the corrected handler `RefreshOfBody`, in which
  only a string counts as a token. The code as written is `RefreshAsWritten`, and the two differ on
  an operator object (see "Findings").
- UserController.RefreshOutcome: it speaks of string tokens only. The operator-object body is
  covered by UserController.OperatorBodyRefreshes and UserController.RefreshOfBodyOutcome.
- JsonValues.Truthy: numbers are reals. NaN and -0 are not represented.
- HrEmailController.TotalPages: for a limit of 0 the page count is None. This stands for the
  Infinity or NaN that JSON prints as `null`.

## Findings

| source | as written | input that shows it | evidently intended | confidence | as-written member | corrected member |
|---|---|---|---|---|---|---|
| controllers/userController.js:138-146 | the body's `refreshToken` goes into the `findOne` filter whatever its type, and any object passes `if (!refreshToken)` | the JSON body `{"refreshToken": {"$ne": null}}` while any user holds a refresh token: 200 with a new access token | only a string that some user holds as refresh token earns a new access token | not executed | UserController.OperatorBodyRefreshes | UserController.RefreshOfBodyOutcome |
