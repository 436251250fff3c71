/**
 * The HR-contact discovery engine of utils/emailCrawler.js.
 *
 * Given a person's name and/or a company name, `FindHREmails` resolves the company's
 * domain, fills six mailbox templates, crawls the company site breadth-first and, for a
 * name without a company, reads one web-search page. The outside world is a value of type
 * `Env`: the web is a finite map from URL to page, the search engine's answers are given,
 * and URL resolution, hostnames and the address validator are functions the model does
 * not look into.
 *
 * The model keeps the code's own behaviour: the result holds one entry per addition (the
 * source's Set holds fresh object literals, so nothing is deduplicated), the 50-page
 * guard is tested only before each batch, and a URL met twice in one batch makes the
 * crawl throw.
 */
module EmailCrawler {
  import opened Outcomes
  import opened JsStrings

  type Url = string

  /** One match of EMAIL_REGEX (line 17) in a page's text; the matching itself is not
      modelled, so the matches are given with the page. */
  type Match = string

  // ------------------------------------------------------------------ the outside world

  /** A fetched page: the matches of EMAIL_REGEX in its body text, and the `href` of each
      `<a>` element that has one, in document order. */
  datatype Page = Page(matches: seq<Match>, hrefs: seq<string>)

  /** What `axios.get` yields for a URL: a failure (timeout, non-2xx, network error) or a page. */
  datatype Fetch = FetchFailed | Fetched(page: Page)

  /** The browser search for the company's site: it threw, or it rendered and gave the
      first result link, if there was one. */
  datatype Lookup = LookupFailed | FirstLink(link: Option<string>)

  datatype Env = Env(
    web: map<Url, Fetch>,                   // a URL outside the map fails to fetch
    resolve: (string, Url) -> Option<Url>,  // `new URL(href, base).href`; None when it throws
    hostname: Url -> string,                // `new URL(url).hostname`
    valid: string -> bool,                  // `emailValidator.validate`
    domainSearch: Lookup,                   // the search for "<company> official website"
    linkDomain: string -> Option<string>,   // group 2 of the host pattern at line 37
    nameSearch: Option<seq<Match>>)         // matches on the "<name> HR email contact" page; None when it threw

  function FetchPage(env: Env, url: Url): Option<Page> {
    if url in env.web && env.web[url].Fetched? then Some(env.web[url].page) else None
  }

  /** One entry of the result: `{ email, source, confidence }`. */
  datatype Candidate = Candidate(email: string, source: string, confidence: real)

  const PatternSource := "Pattern inference"
  const PatternConfidence: real := 0.5
  const SiteConfidence: real := 0.9
  const SearchSource := "Web search"
  const SearchConfidence: real := 0.6

  /** The largest `visited.size` at which another batch still starts. */
  const PageCap := 50

  /** An input/output action of the engine: a browser session on a search URL, or an HTTP GET. */
  datatype Io = Browse(url: Url) | Get(url: Url)

  function GoogleSearch(query: string): Url {
    "https://www.google.com/search?q=" + EncodeURIComponent(query)
  }

  function DomainSearchUrl(companyName: string): Url {
    GoogleSearch(companyName + " official website")
  }

  function NameSearchUrl(name: string): Url {
    GoogleSearch(name + " HR email contact")
  }

  // ------------------------------------------------------------------ the domain

  /** The domain used when the search yields none: the company name lower-cased with
      every white-space character removed, then `.com`. */
  function FallbackDomain(companyName: string): (d: string)
    ensures |d| >= 4 && d[|d| - 4..] == ".com"
    ensures forall i :: 0 <= i < |d| - 4 ==> !IsSpace(d[i]) && !('A' <= d[i] <= 'Z')
  {
    SlugIsLoweredLetters(companyName);
    RemoveSpaces(Lower(companyName)) + ".com"
  }

  /** Lower-casing and removing white space commute, so the slug is the lower-cased
      non-space characters of the name, in order. */
  lemma {:induction false} SlugIsLoweredLetters(s: string)
    ensures RemoveSpaces(Lower(s)) == Lower(RemoveSpaces(s))
    decreases |s|
  {
    if |s| > 0 {
      SlugIsLoweredLetters(s[1..]);
      assert Lower(s)[1..] == Lower(s[1..]);
      assert Lower([s[0]] + RemoveSpaces(s[1..])) == [LowerChar(s[0])] + Lower(RemoveSpaces(s[1..]));
    }
  }

  lemma RemoveSpacesOfTwoWords(a: string, b: string)
    requires forall i :: 0 <= i < |a| ==> !IsSpace(a[i])
    requires forall i :: 0 <= i < |b| ==> !IsSpace(b[i])
    ensures RemoveSpaces(a + " " + b) == a + b
  {
    RemoveSpacesAppend(a + " ", b);
    RemoveSpacesAppend(a, " ");
    RemoveSpacesOfBlank(" ");
    RemoveSpacesOfSolid(a);
    RemoveSpacesOfSolid(b);
    assert a + "" == a;
  }

  /** A two-word company name without other white space ("Acme Corp") falls back to its
      two words lower-cased and joined, then `.com` ("acmecorp.com"). */
  lemma TwoWordFallback(a: string, b: string)
    requires forall i :: 0 <= i < |a| ==> !IsSpace(a[i])
    requires forall i :: 0 <= i < |b| ==> !IsSpace(b[i])
    ensures FallbackDomain(a + " " + b) == Lower(a) + Lower(b) + ".com"
  {
    SlugIsLoweredLetters(a + " " + b);
    RemoveSpacesOfTwoWords(a, b);
    assert RemoveSpaces(Lower(a + " " + b)) == Lower(a) + Lower(b);
  }

  /** getCompanyDomain (lines 20-45): the host captured from the first search-result link,
      or the fallback when the search threw, found no link, or the link shows no host. */
  function CompanyDomain(env: Env, companyName: string): (d: string)
    ensures d != ""
  {
    match env.domainSearch
    case LookupFailed => FallbackDomain(companyName)
    case FirstLink(link) =>
      var captured := if link.Some? then env.linkDomain(link.value) else None;
      if Given(captured) then captured.value else FallbackDomain(companyName)
  }

  /** The domain is the captured host exactly when the search gave a link with a host. */
  lemma CompanyDomainChoice(env: Env, companyName: string)
    ensures var captured := if env.domainSearch.FirstLink? && env.domainSearch.link.Some?
                            then env.linkDomain(env.domainSearch.link.value) else None;
      CompanyDomain(env, companyName) == if Given(captured) then captured.value else FallbackDomain(companyName)
  {
  }

  // ------------------------------------------------------------------ mailbox patterns

  const EmailPatterns: seq<string> := [
    "hr@{domain}",
    "careers@{domain}",
    "recruitment@{domain}",
    "jobs@{domain}",
    "{first}.{last}@{domain}",
    "{first}{last}@{domain}"
  ]

  /** `[first, last] = name.split(' ').map(part => part.toLowerCase())`. */
  function NameParts(name: string): (string, string) {
    var pieces := Split(name, ' ');
    (Lower(pieces[0]), if |pieces| >= 2 then Lower(pieces[1]) else "undefined")
  }

  /** A one-word name has no second piece: `last` is `undefined`, which `replace` prints as
      the text "undefined". */
  lemma SingleWordName(name: string)
    requires ' ' !in name
    ensures NameParts(name) == (Lower(name), "undefined")
  {
    SplitWithout(name, ' ');
  }

  /** Two words split at the space are lower-cased separately. */
  lemma TwoWordName(first: string, last: string)
    requires ' ' !in first && ' ' !in last
    ensures NameParts(first + " " + last) == (Lower(first), Lower(last))
  {
    SplitAround(first, ' ', last);
    SplitWithout(first, ' ');
    SplitWithout(last, ' ');
    assert first + " " + last == first + [' '] + last;
  }

  /** One template filled in: `{domain}`, then `{first}`, then `{last}`, first occurrence each. */
  function FillTemplate(template: string, domain: string, first: string, last: string): string {
    ReplaceFirst(ReplaceFirst(ReplaceFirst(template, "{domain}", domain), "{first}", first), "{last}", last)
  }

  /** The loop at lines 128-137 over `templates`: a filled template is kept when valid. */
  function PatternCandidates(env: Env, templates: seq<string>, domain: string, first: string, last: string): (r: seq<Candidate>)
    ensures |r| <= |templates|
    ensures forall c :: c in r ==> env.valid(c.email) && c.source == PatternSource && c.confidence == PatternConfidence
    decreases |templates|
  {
    if templates == [] then []
    else
      var email := FillTemplate(templates[0], domain, first, last);
      (if env.valid(email) then [Candidate(email, PatternSource, PatternConfidence)] else [])
      + PatternCandidates(env, templates[1..], domain, first, last)
  }

  /** A pattern candidate is exactly a valid filled template, in template order. */
  lemma {:induction false} PatternCandidatesExact(env: Env, templates: seq<string>, domain: string, first: string, last: string, e: string)
    ensures Candidate(e, PatternSource, PatternConfidence) in PatternCandidates(env, templates, domain, first, last)
        <==> env.valid(e) && exists k :: 0 <= k < |templates| && e == FillTemplate(templates[k], domain, first, last)
    decreases |templates|
  {
    if templates != [] {
      PatternCandidatesExact(env, templates[1..], domain, first, last, e);
      if exists k :: 0 <= k < |templates[1..]| && e == FillTemplate(templates[1..][k], domain, first, last) {
        var k :| 0 <= k < |templates[1..]| && e == FillTemplate(templates[1..][k], domain, first, last);
        assert e == FillTemplate(templates[k + 1], domain, first, last);
      }
      if exists k :: 0 <= k < |templates| && e == FillTemplate(templates[k], domain, first, last) {
        var k :| 0 <= k < |templates| && e == FillTemplate(templates[k], domain, first, last);
        if k > 0 {
          assert e == FillTemplate(templates[1..][k - 1], domain, first, last);
        }
      }
    }
  }

  /** The first occurrence of `p` in `a + p + b` is right after `a` when the character
      `p[m]` occurs neither in `a` nor earlier in `p`. */
  lemma FirstOccurrenceBy(a: string, p: string, b: string, m: nat)
    requires m < |p| && p[m] !in a + p[..m]
    ensures IndexOf(a + p + b, p) == |a|
  {
    var s := a + p + b;
    var pre := a + p[..m];
    assert s[|a|..|a| + |p|] == p;
    assert OccursAt(s, p, |a|);
    assert s[..|a| + m] == pre;
    forall j | 0 <= j < |a| ensures !OccursAt(s, p, j) {
      assert s[j + m] == pre[j + m] != p[m];
      assert j + |p| <= |s| ==> s[j..j + |p|][m] != p[m];
    }
  }

  lemma ReplaceFirstBy(a: string, p: string, b: string, rep: string, m: nat)
    requires m < |p| && p[m] !in a + p[..m] && '$' !in rep
    ensures ReplaceFirst(a + p + b, p, rep) == a + rep + b
  {
    var s := a + p + b;
    FirstOccurrenceBy(a, p, b, m);
    assert s[..|a|] == a && s[|a| + |p|..] == b;
    SubstitutionLiteral(rep, p, a, b);
  }

  /** A role mailbox template `box{domain}` becomes `box` then the domain. */
  lemma RoleTemplate(box: string, domain: string, first: string, last: string)
    requires '{' !in box && '{' !in domain && '$' !in domain
    ensures FillTemplate(box + "{domain}", domain, first, last) == box + domain
  {
    assert box + "{domain}" == box + "{domain}" + "";
    ReplaceFirstBy(box, "{domain}", "", domain, 0);
    assert box + domain + "" == box + domain;
    NotContained(box + domain, "{first}");
    NotContained(box + domain, "{last}");
  }

  /** The four role mailboxes: `hr@`, `careers@`, `recruitment@` and `jobs@` the domain. */
  lemma RoleTemplates(domain: string, first: string, last: string)
    requires '{' !in domain && '$' !in domain
    ensures FillTemplate(EmailPatterns[0], domain, first, last) == "hr@" + domain
    ensures FillTemplate(EmailPatterns[1], domain, first, last) == "careers@" + domain
    ensures FillTemplate(EmailPatterns[2], domain, first, last) == "recruitment@" + domain
    ensures FillTemplate(EmailPatterns[3], domain, first, last) == "jobs@" + domain
  {
    assert EmailPatterns[0] == "hr@" + "{domain}";
    assert EmailPatterns[1] == "careers@" + "{domain}";
    assert EmailPatterns[2] == "recruitment@" + "{domain}";
    assert EmailPatterns[3] == "jobs@" + "{domain}";
    RoleTemplate("hr@", domain, first, last);
    RoleTemplate("careers@", domain, first, last);
    RoleTemplate("recruitment@", domain, first, last);
    RoleTemplate("jobs@", domain, first, last);
  }

  /** Filling a template whose `{domain}` comes last, after `{first}` and `{last}` in that
      order, each placeholder once. */
  lemma FillPersonal(template: string, sep: string, domain: string, first: string, last: string)
    requires template == "{first}" + sep + "{last}@" + "{domain}"
    requires '{' !in sep && 'd' !in sep && '{' !in domain && '$' !in domain
    requires '{' !in first && '$' !in first && '$' !in last
    ensures FillTemplate(template, domain, first, last) == first + sep + last + "@" + domain
  {
    var x := sep + "{last}@";
    Reassociate("{first}", sep, "{last}@");
    FillDomainLast("{first}" + x, domain);
    Reassociate("{first}", x, domain);
    FillFront("{first}", x + domain, first);
    LastPlaceholder(first, sep, domain);
    ReplaceFirstBy(first + sep, "{last}", "@" + domain, last, 0);
    Reassociate(first + sep + last, "@", domain);
  }

  lemma LastPlaceholder(first: string, sep: string, domain: string)
    ensures first + ((sep + "{last}@") + domain) == (first + sep) + "{last}" + ("@" + domain)
  {
    assert "{last}@" == "{last}" + "@";
  }

  /** A template ending in its only `{domain}`, with no `d` before it, gets the domain there. */
  lemma FillDomainLast(head: string, domain: string)
    requires 'd' !in head && '$' !in domain
    ensures ReplaceFirst(head + "{domain}", "{domain}", domain) == head + domain
  {
    assert head + "{domain}" + "" == head + "{domain}";
    ReplaceFirstBy(head, "{domain}", "", domain, 1);
    assert head + domain + "" == head + domain;
  }

  /** A placeholder at the very front is replaced there. */
  lemma FillFront(placeholder: string, rest: string, value: string)
    requires |placeholder| > 0 && '$' !in value
    ensures ReplaceFirst(placeholder + rest, placeholder, value) == value + rest
  {
    assert "" + placeholder + rest == placeholder + rest;
    ReplaceFirstBy("", placeholder, rest, value, 0);
    assert "" + value + rest == value + rest;
  }

  /** The dotted personal mailbox: `first.last@domain`. */
  lemma DottedTemplate(domain: string, first: string, last: string)
    requires '{' !in domain && '$' !in domain && '{' !in first && '$' !in first && '$' !in last
    ensures FillTemplate(EmailPatterns[4], domain, first, last) == first + "." + last + "@" + domain
  {
    assert EmailPatterns[4] == "{first}" + "." + "{last}@" + "{domain}";
    FillPersonal(EmailPatterns[4], ".", domain, first, last);
  }

  /** The joined personal mailbox: `firstlast@domain`. */
  lemma JoinedTemplate(domain: string, first: string, last: string)
    requires '{' !in domain && '$' !in domain && '{' !in first && '$' !in first && '$' !in last
    ensures FillTemplate(EmailPatterns[5], domain, first, last) == first + last + "@" + domain
  {
    assert EmailPatterns[5] == "{first}" + "" + "{last}@" + "{domain}";
    FillPersonal(EmailPatterns[5], "", domain, first, last);
    assert first + "" == first;
  }

  /** A two-word name ("Jane Doe" at acme.com, say) yields `hr@domain` and
      `first.last@domain` in lower case, each when the validator accepts it. */
  lemma TwoWordNameCandidates(env: Env, domain: string, first: string, last: string)
    requires ' ' !in first && ' ' !in last && '{' !in domain && '$' !in domain
    requires '{' !in first && '$' !in first && '$' !in last
    ensures var parts := NameParts(first + " " + last);
      var found := PatternCandidates(env, EmailPatterns, domain, parts.0, parts.1);
      var personal := Lower(first) + "." + Lower(last) + "@" + domain;
      && (env.valid("hr@" + domain) ==> Candidate("hr@" + domain, PatternSource, PatternConfidence) in found)
      && (env.valid(personal) ==> Candidate(personal, PatternSource, PatternConfidence) in found)
  {
    TwoWordName(first, last);
    var f, l := Lower(first), Lower(last);
    LowerKeepsAbsent(first, '{');
    LowerKeepsAbsent(first, '$');
    LowerKeepsAbsent(last, '$');
    RoleTemplates(domain, f, l);
    DottedTemplate(domain, f, l);
    PatternCandidatesExact(env, EmailPatterns, domain, f, l, f + "." + l + "@" + domain);
    PatternCandidatesExact(env, EmailPatterns, domain, f, l, "hr@" + domain);
  }

  /** A one-word name fills the personal templates with the text "undefined". */
  lemma OneWordNamePatterns(domain: string, name: string)
    requires ' ' !in name && '{' !in domain && '$' !in domain && '{' !in name && '$' !in name
    ensures var parts := NameParts(name);
      && FillTemplate(EmailPatterns[4], domain, parts.0, parts.1) == Lower(name) + "." + "undefined" + "@" + domain
      && FillTemplate(EmailPatterns[5], domain, parts.0, parts.1) == Lower(name) + "undefined" + "@" + domain
  {
    SingleWordName(name);
    LowerKeepsAbsent(name, '{');
    LowerKeepsAbsent(name, '$');
    DottedTemplate(domain, Lower(name), "undefined");
    JoinedTemplate(domain, Lower(name), "undefined");
  }

  // ------------------------------------------------------------------ one page

  /** The relevance test of lines 67-70: only the `hr` test ignores case. */
  predicate Relevant(email: string) {
    || Contains(Lower(email), "hr")
    || Contains(email, "career")
    || Contains(email, "recruit")
    || Contains(email, "job")
  }

  /** The `forEach` at lines 65-73: every valid, relevant match gives one entry. */
  function SiteCandidates(env: Env, url: Url, ms: seq<Match>): (r: seq<Candidate>)
    ensures |r| <= |ms|
    ensures forall c :: c in r ==> c.source == url && c.confidence == SiteConfidence
    decreases |ms|
  {
    if ms == [] then []
    else
      (if env.valid(ms[0]) && Relevant(ms[0]) then [Candidate(ms[0], url, SiteConfidence)] else [])
      + SiteCandidates(env, url, ms[1..])
  }

  /** Every address kept from a page passed the validator and the relevance test. */
  lemma {:induction false} SiteCandidatesSound(env: Env, url: Url, ms: seq<Match>)
    ensures forall c :: c in SiteCandidates(env, url, ms) ==> env.valid(c.email) && Relevant(c.email)
    decreases |ms|
  {
    if ms != [] {
      SiteCandidatesSound(env, url, ms[1..]);
    }
  }

  lemma PageEmailsSound(env: Env, url: Url)
    ensures forall c :: c in PageEmails(env, url) ==> env.valid(c.email) && Relevant(c.email)
  {
    if FetchPage(env, url).Some? {
      SiteCandidatesSound(env, url, FetchPage(env, url).value.matches);
    }
  }

  lemma SiteCandidatesStep(env: Env, url: Url, ms: seq<Match>, i: nat)
    requires i < |ms|
    ensures SiteCandidates(env, url, ms[i..])
         == (if env.valid(ms[i]) && Relevant(ms[i]) then [Candidate(ms[i], url, SiteConfidence)] else [])
            + SiteCandidates(env, url, ms[i + 1..])
  {
    assert ms[i..][1..] == ms[i + 1..];
  }

  /** An address found on a page is kept exactly when it is valid and relevant. */
  lemma {:induction false} SiteCandidatesExact(env: Env, url: Url, ms: seq<Match>, e: string)
    ensures Candidate(e, url, SiteConfidence) in SiteCandidates(env, url, ms)
        <==> env.valid(e) && Relevant(e) && exists k :: 0 <= k < |ms| && ms[k] == e
    decreases |ms|
  {
    if ms != [] {
      SiteCandidatesExact(env, url, ms[1..], e);
      if exists k :: 0 <= k < |ms[1..]| && ms[1..][k] == e {
        var k :| 0 <= k < |ms[1..]| && ms[1..][k] == e;
        assert ms[k + 1] == e;
      }
      if exists k :: 0 <= k < |ms| && ms[k] == e {
        var k :| 0 <= k < |ms| && ms[k] == e;
        if k > 0 {
          assert ms[1..][k - 1] == e;
        }
      }
    }
  }

  /** Only the `hr` test ignores case: "HR@beta.io" is relevant ... */
  lemma UpperHrRelevant()
    ensures Relevant("HR@beta.io")
  {
    var hr := Lower("HR@beta.io");
    assert hr[0] == 'h' && hr[1] == 'r';
    assert hr[0..2] == "hr";
    assert OccursAt(hr, "hr", 0);
  }

  /** ... and so is "jobs@beta.io" ... */
  lemma LowerJobsRelevant()
    ensures Relevant("jobs@beta.io")
  {
    var jobs := "jobs@beta.io";
    assert jobs[0..3] == "job";
    assert OccursAt(jobs, "job", 0);
  }

  /** ... but "Jobs@beta.io" is not. */
  lemma UpperJobsIrrelevant()
    ensures !Relevant("Jobs@beta.io")
  {
    NoKeywordLetter("Jobs@beta.io");
  }

  /** An address without `h`, `H`, `c`, `r` or `j` holds none of the keywords. */
  lemma NoKeywordLetter(s: string)
    requires 'h' !in s && 'H' !in s && 'c' !in s && 'r' !in s && 'j' !in s
    ensures !Relevant(s)
  {
    NoLowerH(s);
    NotContained(Lower(s), "hr");
    NotContained(s, "career");
    NotContained(s, "recruit");
    NotContained(s, "job");
  }

  /** Lower-casing a text with neither `h` nor `H` gives no `h`. */
  lemma NoLowerH(s: string)
    requires 'h' !in s && 'H' !in s
    ensures 'h' !in Lower(s)
  {
    forall i | 0 <= i < |s| ensures Lower(s)[i] != 'h' {
      assert s[i] != 'h' && s[i] != 'H';
    }
  }

  /** How crawlPage treats one `href` of the page at `pageUrl` (lines 79-83). */
  datatype Link = Skip | Follow(url: Url) | Throws

  /** A non-empty `href` that starts with neither `http` nor `#` and has no `mailto` in it is
      resolved against the page (which may throw); one that starts with `http` is kept when
      the page's hostname occurs anywhere in it; anything else is skipped. */
  function ClassifyHref(env: Env, pageUrl: Url, href: string): Link {
    if href != "" && !StartsWith(href, "http") && !StartsWith(href, "#") && !Contains(href, "mailto") then
      match env.resolve(href, pageUrl)
      case None => Throws
      case Some(u) => Follow(u)
    else if href != "" && StartsWith(href, "http") && Contains(href, env.hostname(pageUrl)) then
      Follow(href)
    else
      Skip
  }

  /** An absolute link is kept exactly when the page's hostname is a substring of it, so
      `https://other.example/?ref=acme.com` is followed from acme.com. */
  lemma AbsoluteLinkHostTest(env: Env, pageUrl: Url, href: string)
    requires StartsWith(href, "http")
    ensures ClassifyHref(env, pageUrl, href) == if Contains(href, env.hostname(pageUrl)) then Follow(href) else Skip
  {
  }

  /** A protocol-relative link is resolved like a relative one, whatever host it names. */
  lemma ProtocolRelativeFollowed(env: Env, pageUrl: Url, href: string, u: Url)
    requires StartsWith(href, "//") && !Contains(href, "mailto") && env.resolve(href, pageUrl) == Some(u)
    ensures ClassifyHref(env, pageUrl, href) == Follow(u)
  {
    assert href[0] == '/';
  }

  /** The `$('a').each` loop at lines 77-84; None when resolving a link threw. */
  function ExtractLinks(env: Env, pageUrl: Url, hrefs: seq<string>): Option<seq<Url>>
    decreases |hrefs|
  {
    if hrefs == [] then Some([])
    else
      match ClassifyHref(env, pageUrl, hrefs[0])
      case Throws => None
      case Skip => ExtractLinks(env, pageUrl, hrefs[1..])
      case Follow(u) =>
        match ExtractLinks(env, pageUrl, hrefs[1..])
        case None => None
        case Some(us) => Some([u] + us)
  }

  /** Link extraction fails exactly when some link throws, and otherwise yields exactly
      the followed links. */
  lemma {:induction false} ExtractLinksExact(env: Env, pageUrl: Url, hrefs: seq<string>, u: Url)
    ensures ExtractLinks(env, pageUrl, hrefs).None?
        <==> exists k :: 0 <= k < |hrefs| && ClassifyHref(env, pageUrl, hrefs[k]) == Throws
    ensures ExtractLinks(env, pageUrl, hrefs).Some? ==>
        (u in ExtractLinks(env, pageUrl, hrefs).value
         <==> exists k :: 0 <= k < |hrefs| && ClassifyHref(env, pageUrl, hrefs[k]) == Follow(u))
    decreases |hrefs|
  {
    if hrefs != [] {
      var rest := hrefs[1..];
      ExtractLinksExact(env, pageUrl, rest, u);
      forall k | 0 <= k < |rest| ensures rest[k] == hrefs[k + 1] { }
      if exists k :: 0 <= k < |hrefs| && ClassifyHref(env, pageUrl, hrefs[k]) == Throws {
        var k :| 0 <= k < |hrefs| && ClassifyHref(env, pageUrl, hrefs[k]) == Throws;
        if k > 0 { assert ClassifyHref(env, pageUrl, rest[k - 1]) == Throws; }
      }
      if exists k :: 0 <= k < |hrefs| && ClassifyHref(env, pageUrl, hrefs[k]) == Follow(u) {
        var k :| 0 <= k < |hrefs| && ClassifyHref(env, pageUrl, hrefs[k]) == Follow(u);
        if k > 0 { assert ClassifyHref(env, pageUrl, rest[k - 1]) == Follow(u); }
      }
    }
  }

  /** The entries a fresh page adds: none when the fetch failed. */
  function PageEmails(env: Env, url: Url): (r: seq<Candidate>)
    ensures forall c :: c in r ==> c.source == url && c.confidence == SiteConfidence
  {
    match FetchPage(env, url)
    case None => []
    case Some(page) => SiteCandidates(env, url, page.matches)
  }

  /** The links a fresh page returns: `[]` when the fetch failed or a link threw (the
      addresses of that page are kept all the same, since they were added first). */
  function PageLinks(env: Env, url: Url): seq<Url> {
    match FetchPage(env, url)
    case None => []
    case Some(page) =>
      var links := ExtractLinks(env, url, page.hrefs);
      if links.Some? then links.value else []
  }

  // ------------------------------------------------------------------ the crawl

  predicate NoDup(s: seq<Url>) {
    forall i, j :: 0 <= i < j < |s| ==> s[i] != s[j]
  }

  function Elems(s: seq<Url>): set<Url> {
    set u | u in s
  }

  /** The crawl's state: the `visited` set, the `emails` accumulator (a sequence, since its
      Set never merges the fresh objects added to it) and the log of fetched URLs. */
  datatype CrawlState = CrawlState(visited: set<Url>, emails: seq<Candidate>, fetched: seq<Url>)

  const Start := CrawlState({}, [], [])

  /** What crawlPage returns: `undefined` for a visited URL, or a list of links. */
  datatype PageOutcome = Undefined | Links(urls: seq<Url>)

  /** The state after crawlPage handled the fresh URL `url`: marked visited before the
      fetch, so a failed fetch still counts. */
  function Visit(env: Env, st: CrawlState, url: Url): CrawlState {
    CrawlState(st.visited + {url}, st.emails + PageEmails(env, url), st.fetched + [url])
  }

  /** crawlPage (lines 48-90): a visited URL is neither fetched again nor changes anything. */
  function PageStep(env: Env, st: CrawlState, url: Url): (CrawlState, PageOutcome) {
    if url in st.visited then (st, Undefined) else (Visit(env, st, url), Links(PageLinks(env, url)))
  }

  /** `links.filter(link => !visited.has(link))` */
  function Unvisited(links: seq<Url>, visited: set<Url>): (r: seq<Url>)
    ensures forall u :: u in r <==> u in links && u !in visited
    ensures (forall u :: u in links ==> u !in visited) ==> r == links
    decreases |links|
  {
    if links == [] then []
    else (if links[0] in visited then [] else [links[0]]) + Unvisited(links[1..], visited)
  }

  /** Where a run stopped: the state, the URLs gathered (the next batch, or the frontier
      left when the crawl ended) and the URL whose repeat made `links.filter` throw. */
  datatype Stop = Stop(state: CrawlState, urls: seq<Url>, crashedOn: Option<Url>)

  /** The `for` loop at lines 101-104 over `batch`, with the links gathered so far in
      `found`: a URL already visited makes crawlPage return `undefined`, on which the
      `filter` throws. */
  function RunBatch(env: Env, batch: seq<Url>, st: CrawlState, found: seq<Url>): (r: Stop)
    ensures st.visited <= r.state.visited && st.emails <= r.state.emails && st.fetched <= r.state.fetched
    decreases |batch|
  {
    if batch == [] then Stop(st, found, None)
    else if batch[0] in st.visited then Stop(st, found, Some(batch[0]))
    else
      var next := Visit(env, st, batch[0]);
      RunBatch(env, batch[1..], next, found + Unvisited(PageLinks(env, batch[0]), next.visited))
  }

  /** A batch that does not throw visits each of its URLs ... */
  lemma {:induction false} BatchVisitsAll(env: Env, batch: seq<Url>, st: CrawlState, found: seq<Url>)
    ensures var r := RunBatch(env, batch, st, found);
      r.crashedOn.None? ==> r.state.visited == st.visited + Elems(batch)
    decreases |batch|
  {
    if batch != [] && batch[0] !in st.visited {
      var u := batch[0];
      var next := Visit(env, st, u);
      var found' := found + Unvisited(PageLinks(env, u), next.visited);
      BatchVisitsAll(env, batch[1..], next, found');
      assert RunBatch(env, batch, st, found) == RunBatch(env, batch[1..], next, found');
      assert Elems(batch) == {u} + Elems(batch[1..]);
    }
  }

  /** ... so that each URL of it adds one to the visited count ... */
  lemma {:induction false} BatchCountsAll(env: Env, batch: seq<Url>, st: CrawlState, found: seq<Url>)
    ensures var r := RunBatch(env, batch, st, found);
      r.crashedOn.None? ==> |r.state.visited| == |st.visited| + |batch|
    decreases |batch|
  {
    if batch != [] && batch[0] !in st.visited {
      var u := batch[0];
      var next := Visit(env, st, u);
      var found' := found + Unvisited(PageLinks(env, u), next.visited);
      assert |next.visited| == |st.visited| + 1;
      BatchCountsAll(env, batch[1..], next, found');
      assert RunBatch(env, batch, st, found) == RunBatch(env, batch[1..], next, found');
    }
  }

  /** ... and fetches them in order. */
  lemma {:induction false} BatchFetchesAll(env: Env, batch: seq<Url>, st: CrawlState, found: seq<Url>)
    ensures var r := RunBatch(env, batch, st, found);
      r.crashedOn.None? ==> r.state.fetched == st.fetched + batch
    decreases |batch|
  {
    if batch != [] && batch[0] !in st.visited {
      var u := batch[0];
      var next := Visit(env, st, u);
      var found' := found + Unvisited(PageLinks(env, u), next.visited);
      BatchStep(env, batch, st, found);
      BatchFetchesAll(env, batch[1..], next, found');
      assert next.fetched == st.fetched + [u];
      assert [u] + batch[1..] == batch;
      Reassociate(st.fetched, [u], batch[1..]);
    }
  }

  /** The `while` loop at lines 99-107: a batch starts only while fewer than 50 URLs are
      visited, and then runs to its end. */
  function Crawl(env: Env, frontier: seq<Url>, st: CrawlState): (r: Stop)
    ensures st.visited <= r.state.visited && st.emails <= r.state.emails && st.fetched <= r.state.fetched
    decreases PageCap - |st.visited|
  {
    if frontier == [] || |st.visited| >= PageCap then Stop(st, frontier, None)
    else
      var b := RunBatch(env, frontier, st, []);
      if b.crashedOn.Some? then b
      else
        BatchCountsAll(env, frontier, st, []);
        Crawl(env, b.urls, b.state)
  }

  function BaseUrl(domain: string): Url {
    "https://" + domain
  }

  /** crawlCompanySite (lines 93-111) as a function of the world. */
  function CrawlSite(env: Env, domain: string): Stop {
    Crawl(env, [BaseUrl(domain)], Start)
  }

  // ------------------------------------------------------------------ crawl properties

  lemma NoDupCons(s: seq<Url>)
    requires s != []
    ensures NoDup(s) <==> s[0] !in s[1..] && NoDup(s[1..])
  {
    var rest := s[1..];
    if NoDup(s) {
      forall i, j | 0 <= i < j < |rest| ensures rest[i] != rest[j] {
        assert rest[i] == s[i + 1] && rest[j] == s[j + 1];
      }
      forall i | 0 <= i < |rest| ensures rest[i] != s[0] {
        assert rest[i] == s[i + 1];
      }
    }
    if s[0] !in rest && NoDup(rest) {
      forall i, j | 0 <= i < j < |s| ensures s[i] != s[j] {
        assert s[j] == rest[j - 1];
        if i > 0 {
          assert s[i] == rest[i - 1];
        }
      }
    }
  }

  /** A batch throws exactly when it holds a URL twice or a URL already visited. */
  lemma {:induction false} BatchCrashIff(env: Env, batch: seq<Url>, st: CrawlState, found: seq<Url>)
    ensures RunBatch(env, batch, st, found).crashedOn.Some?
        <==> !(NoDup(batch) && Elems(batch) !! st.visited)
    decreases |batch|
  {
    if batch != [] {
      var u := batch[0];
      var rest := batch[1..];
      assert Elems(batch) == {u} + Elems(rest);
      NoDupCons(batch);
      if u !in st.visited {
        var next := Visit(env, st, u);
        var found' := found + Unvisited(PageLinks(env, u), next.visited);
        BatchCrashIff(env, rest, next, found');
        assert RunBatch(env, batch, st, found) == RunBatch(env, rest, next, found');
        assert u in Elems(rest) <==> u in rest;
      }
    }
  }

  /** The fetch log lists every visited URL once, and nothing else. */
  ghost predicate FetchedOnce(st: CrawlState) {
    NoDup(st.fetched) && Elems(st.fetched) == st.visited
  }

  lemma NoDupSnoc(s: seq<Url>, u: Url)
    requires NoDup(s) && u !in s
    ensures NoDup(s + [u])
  {
    var t := s + [u];
    forall i, j | 0 <= i < j < |t| ensures t[i] != t[j] {
      if j == |s| {
        assert t[i] == s[i];
      } else {
        assert t[i] == s[i] && t[j] == s[j];
      }
    }
  }

  lemma {:induction false} BatchFetchesOnce(env: Env, batch: seq<Url>, st: CrawlState, found: seq<Url>)
    requires FetchedOnce(st)
    ensures FetchedOnce(RunBatch(env, batch, st, found).state)
    decreases |batch|
  {
    if batch != [] && batch[0] !in st.visited {
      var u := batch[0];
      var next := Visit(env, st, u);
      var found' := found + Unvisited(PageLinks(env, u), next.visited);
      assert u !in st.fetched by {
        assert u !in Elems(st.fetched);
      }
      NoDupSnoc(st.fetched, u);
      assert Elems(next.fetched) == Elems(st.fetched) + {u};
      BatchFetchesOnce(env, batch[1..], next, found');
      assert RunBatch(env, batch, st, found) == RunBatch(env, batch[1..], next, found');
    }
  }

  lemma {:induction false} CrawlKeepsFetchedOnce(env: Env, frontier: seq<Url>, st: CrawlState)
    requires FetchedOnce(st)
    ensures FetchedOnce(Crawl(env, frontier, st).state)
    decreases PageCap - |st.visited|
  {
    if frontier != [] && |st.visited| < PageCap {
      var b := RunBatch(env, frontier, st, []);
      BatchFetchesOnce(env, frontier, st, []);
      if b.crashedOn.None? {
        BatchCountsAll(env, frontier, st, []);
        assert Crawl(env, frontier, st) == Crawl(env, b.urls, b.state);
        CrawlKeepsFetchedOnce(env, b.urls, b.state);
      } else {
        assert Crawl(env, frontier, st) == b;
      }
    }
  }

  /** At most one fetch per URL: the crawl's fetch log has no repeats and lists exactly
      the visited URLs, whether the crawl ends normally or throws. */
  lemma CrawlFetchesEachUrlOnce(env: Env, domain: string)
    ensures NoDup(CrawlSite(env, domain).state.fetched)
    ensures Elems(CrawlSite(env, domain).state.fetched) == CrawlSite(env, domain).state.visited
  {
    assert Elems(Start.fetched) == {};
    CrawlKeepsFetchedOnce(env, [BaseUrl(domain)], Start);
  }

  /** When a crawl ends without throwing, either no URL is left to crawl or at least 50
      are visited. */
  lemma {:induction false} CrawlStopsAtCapOrEmpty(env: Env, frontier: seq<Url>, st: CrawlState)
    ensures var r := Crawl(env, frontier, st);
      r.crashedOn.None? ==> r.urls == [] || |r.state.visited| >= PageCap
    decreases PageCap - |st.visited|
  {
    if frontier != [] && |st.visited| < PageCap {
      var b := RunBatch(env, frontier, st, []);
      if b.crashedOn.None? {
        BatchCountsAll(env, frontier, st, []);
        CrawlStopsAtCapOrEmpty(env, b.urls, b.state);
      }
    }
  }

  /** Every entry the crawl gathers is a valid, relevant address with confidence 0.9, whose
      source is a page the crawl visited. */
  ghost predicate SoundEmails(env: Env, st: CrawlState) {
    forall c :: c in st.emails ==> && env.valid(c.email) && Relevant(c.email)
                                   && c.confidence == SiteConfidence && c.source in st.visited
  }

  lemma {:induction false} BatchEmailsSound(env: Env, batch: seq<Url>, st: CrawlState, found: seq<Url>)
    requires SoundEmails(env, st)
    ensures SoundEmails(env, RunBatch(env, batch, st, found).state)
    decreases |batch|
  {
    if batch != [] && batch[0] !in st.visited {
      var u := batch[0];
      var next := Visit(env, st, u);
      var found' := found + Unvisited(PageLinks(env, u), next.visited);
      PageEmailsSound(env, u);
      assert SoundEmails(env, next);
      BatchEmailsSound(env, batch[1..], next, found');
      assert RunBatch(env, batch, st, found) == RunBatch(env, batch[1..], next, found');
    }
  }

  lemma {:induction false} CrawlEmailsSoundFrom(env: Env, frontier: seq<Url>, st: CrawlState)
    requires SoundEmails(env, st)
    ensures SoundEmails(env, Crawl(env, frontier, st).state)
    decreases PageCap - |st.visited|
  {
    if frontier != [] && |st.visited| < PageCap {
      var b := RunBatch(env, frontier, st, []);
      BatchEmailsSound(env, frontier, st, []);
      if b.crashedOn.None? {
        BatchCountsAll(env, frontier, st, []);
        CrawlEmailsSoundFrom(env, b.urls, b.state);
      }
    }
  }

  lemma CrawlEmailsSound(env: Env, domain: string)
    ensures SoundEmails(env, CrawlSite(env, domain).state)
  {
    CrawlEmailsSoundFrom(env, [BaseUrl(domain)], Start);
  }

  /** A batch over pages that give no links gathers no URL. */
  lemma {:induction false} BatchOfDeadEnds(env: Env, batch: seq<Url>, st: CrawlState, found: seq<Url>)
    requires forall u :: u in batch ==> PageLinks(env, u) == []
    ensures RunBatch(env, batch, st, found).urls == found
    decreases |batch|
  {
    if batch != [] && batch[0] !in st.visited {
      var u := batch[0];
      var next := Visit(env, st, u);
      assert found + Unvisited(PageLinks(env, u), next.visited) == found;
      BatchOfDeadEnds(env, batch[1..], next, found);
      assert RunBatch(env, batch, st, found) == RunBatch(env, batch[1..], next, found);
    }
  }

  /** One fresh URL at the head of a batch. */
  lemma BatchStep(env: Env, batch: seq<Url>, st: CrawlState, found: seq<Url>)
    requires batch != [] && batch[0] !in st.visited
    ensures RunBatch(env, batch, st, found)
         == RunBatch(env, batch[1..], Visit(env, st, batch[0]),
                     found + Unvisited(PageLinks(env, batch[0]), st.visited + {batch[0]}))
  {
  }

  /** The crawl's first batch is the base URL alone. */
  lemma FirstBatch(env: Env, domain: string)
    ensures var base := BaseUrl(domain);
      CrawlSite(env, domain) == Crawl(env, Unvisited(PageLinks(env, base), {base}), Visit(env, Start, base))
  {
    var base := BaseUrl(domain);
    BatchStep(env, [base], Start, []);
    assert [base][1..] == [];
    assert [] + Unvisited(PageLinks(env, base), {base}) == Unvisited(PageLinks(env, base), {base});
    assert Start.visited + {base} == {base};
  }

  /** The page guard is not a hard cap: when the home page links to n distinct other
      pages that give no links, the crawl ends with 1 + n visited pages, past 50 when
      n > 49. */
  lemma CrawlCanPassCap(env: Env, domain: string)
    requires var base := BaseUrl(domain); var links := PageLinks(env, base);
      && NoDup(links) && base !in links
      && forall u :: u in links ==> PageLinks(env, u) == []
    ensures var r := CrawlSite(env, domain);
      && r.crashedOn.None? && r.urls == []
      && |r.state.visited| == 1 + |PageLinks(env, BaseUrl(domain))|
  {
    var base := BaseUrl(domain);
    var links := PageLinks(env, base);
    FirstBatch(env, domain);
    var st1 := Visit(env, Start, base);
    assert st1.visited == {base};
    assert Unvisited(links, {base}) == links;
    if links != [] {
      BatchCrashIff(env, links, st1, []);
      assert Elems(links) !! st1.visited;
      BatchOfDeadEnds(env, links, st1, []);
      BatchCountsAll(env, links, st1, []);
      var b := RunBatch(env, links, st1, []);
      assert Crawl(env, links, st1) == Crawl(env, [], b.state);
    }
  }

  lemma ThreePages(env: Env, a: Url, b: Url, c: Url)
    requires a != b && a != c && b != c
    ensures Unvisited([b, c], {a}) == [b, c] && Unvisited([a], {a, b}) == []
    ensures Unvisited([c], {a, b}) == [c]
    ensures Visit(env, Start, a).visited == {a}
    ensures Visit(env, Visit(env, Start, a), b).visited == {a, b}
    ensures |Visit(env, Visit(env, Visit(env, Start, a), b), c).visited| == 3
    ensures c in Visit(env, Visit(env, Visit(env, Start, a), b), c).visited
  {
    assert Visit(env, Visit(env, Visit(env, Start, a), b), c).visited == {a, b} + {c};
  }

  /** A batch that starts with a visited URL throws at once. */
  lemma CrawlMeetsVisited(env: Env, frontier: seq<Url>, st: CrawlState)
    requires frontier != [] && frontier[0] in st.visited && |st.visited| < PageCap
    ensures Crawl(env, frontier, st).crashedOn == Some(frontier[0])
  {
  }

  /** The second batch of the cycle below. */
  lemma CycleBatch(env: Env, a: Url, b: Url, c: Url)
    requires a != b && a != c && b != c
    requires PageLinks(env, a) == [b, c] && PageLinks(env, b) == [a] && PageLinks(env, c) == []
    ensures RunBatch(env, [b, c], Visit(env, Start, a), [])
         == Stop(Visit(env, Visit(env, Visit(env, Start, a), b), c), [], None)
  {
    var st1 := Visit(env, Start, a);
    var st2 := Visit(env, st1, b);
    ThreePages(env, a, b, c);
    BatchStep(env, [b, c], st1, []);
    assert [b, c][1..] == [c];
    BatchStep(env, [c], st2, []);
  }

  /** A batch that gathers no URL is the crawl's last. */
  lemma LastBatch(env: Env, frontier: seq<Url>, st: CrawlState, last: CrawlState)
    requires frontier != [] && |st.visited| < PageCap
    requires RunBatch(env, frontier, st, []) == Stop(last, [], None)
    ensures Crawl(env, frontier, st) == Stop(last, [], None)
  {
  }

  /** The cycle A -> B, C and B -> A, C -> nothing: the crawl visits exactly A, B and C,
      each once, and stops. */
  lemma CycleVisitsEachPageOnce(env: Env, domain: string, b: Url, c: Url)
    requires var a := BaseUrl(domain);
      && a != b && a != c && b != c
      && PageLinks(env, a) == [b, c] && PageLinks(env, b) == [a] && PageLinks(env, c) == []
    ensures var r := CrawlSite(env, domain);
      && r.crashedOn.None? && r.urls == []
      && r.state.fetched == [BaseUrl(domain), b, c]
      && r.state.visited == {BaseUrl(domain), b, c}
  {
    var a := BaseUrl(domain);
    var st1 := Visit(env, Start, a);
    var st3 := Visit(env, Visit(env, st1, b), c);
    FirstBatch(env, domain);
    ThreePages(env, a, b, c);
    assert CrawlSite(env, domain) == Crawl(env, [b, c], st1);
    CycleBatch(env, a, b, c);
    LastBatch(env, [b, c], st1, st3);
    ThreeVisits(env, a, b, c);
  }

  lemma ThreeVisits(env: Env, a: Url, b: Url, c: Url)
    ensures var st := Visit(env, Visit(env, Visit(env, Start, a), b), c);
      st.fetched == [a, b, c] && st.visited == {a, b, c}
  {
    assert [] + [a] + [b] + [c] == [a, b, c];
  }

  /** A home page that links twice to the same page makes the second batch throw. */
  lemma RepeatedLinkThrows(env: Env, domain: string, u: Url)
    requires u != BaseUrl(domain) && PageLinks(env, BaseUrl(domain)) == [u, u]
    ensures CrawlSite(env, domain).crashedOn == Some(u)
  {
    var a := BaseUrl(domain);
    FirstBatch(env, domain);
    var st1 := Visit(env, Start, a);
    assert st1.visited == {a};
    assert Unvisited([u, u], {a}) == [u, u];
    BatchStep(env, [u, u], st1, []);
    assert [u, u][1..] == [u];
    assert RunBatch(env, [u, u], st1, []).crashedOn == Some(u);
    assert |st1.visited| == 1;
  }

  /** The second batch of the next example: C is queued again after B, then crawled. */
  lemma AheadBatch(env: Env, a: Url, b: Url, c: Url)
    requires a != b && a != c && b != c
    requires PageLinks(env, a) == [b, c] && PageLinks(env, b) == [c] && PageLinks(env, c) == []
    ensures RunBatch(env, [b, c], Visit(env, Start, a), [])
         == Stop(Visit(env, Visit(env, Visit(env, Start, a), b), c), [c], None)
  {
    var st1 := Visit(env, Start, a);
    var st2 := Visit(env, st1, b);
    ThreePages(env, a, b, c);
    BatchStep(env, [b, c], st1, []);
    assert [b, c][1..] == [c];
    BatchStep(env, [c], st2, [c]);
  }

  /** A link to a page that the same batch crawls later is queued again and throws in the
      next batch: A links to B and C, and B links to C. */
  lemma LinkAheadInBatchThrows(env: Env, domain: string, b: Url, c: Url)
    requires var a := BaseUrl(domain);
      && a != b && a != c && b != c
      && PageLinks(env, a) == [b, c] && PageLinks(env, b) == [c] && PageLinks(env, c) == []
    ensures CrawlSite(env, domain).crashedOn == Some(c)
  {
    var a := BaseUrl(domain);
    FirstBatch(env, domain);
    ThreePages(env, a, b, c);
    AheadBatch(env, a, b, c);
    var st1 := Visit(env, Start, a);
    var st3 := Visit(env, Visit(env, st1, b), c);
    assert |st1.visited| == 1;
    assert CrawlSite(env, domain) == Crawl(env, [b, c], st1) == Crawl(env, [c], st3);
    CrawlMeetsVisited(env, [c], st3);
  }

  // ------------------------------------------------------------------ the crawler object

  /** The state crawlCompanySite shares with crawlPage: the `visited` and `emails` Sets,
      plus a ghost log of the fetches made. */
  class Crawler {
    const env: Env
    var visited: set<Url>
    var emails: seq<Candidate>
    ghost var fetched: seq<Url>

    ghost function State(): CrawlState
      reads this
    {
      CrawlState(visited, emails, fetched)
    }

    constructor (env: Env)
      ensures this.env == env && State() == Start
    {
      this.env := env;
      visited, emails := {}, [];
      fetched := [];
    }

    /** crawlPage (lines 48-90). */
    method CrawlPage(url: Url) returns (out: PageOutcome)
      modifies this
      ensures (State(), out) == PageStep(env, old(State()), url)
    {
      if url in visited {
        return Undefined;
      }
      visited := visited + {url};
      fetched := fetched + [url];
      var page := FetchPage(env, url);
      if page.None? {
        assert emails == emails + PageEmails(env, url);
        return Links([]);
      }
      AddPageEmails(url, page.value.matches);
      var links := CollectLinks(env, url, page.value.hrefs);
      return Links(if links.Some? then links.value else []);
    }

    /** The `forEach` at lines 65-73, adding to the shared `emails`. */
    method AddPageEmails(url: Url, ms: seq<Match>)
      modifies this
      ensures visited == old(visited) && fetched == old(fetched)
      ensures emails == old(emails) + SiteCandidates(env, url, ms)
    {
      var i := 0;
      assert ms[0..] == ms;
      while i < |ms|
        invariant 0 <= i <= |ms|
        invariant visited == old(visited) && fetched == old(fetched)
        invariant emails + SiteCandidates(env, url, ms[i..]) == old(emails) + SiteCandidates(env, url, ms)
      {
        var email := ms[i];
        SiteCandidatesStep(env, url, ms, i);
        ghost var rest := SiteCandidates(env, url, ms[i + 1..]);
        if env.valid(email) && Relevant(email) {
          var c := Candidate(email, url, SiteConfidence);
          assert emails + ([c] + rest) == (emails + [c]) + rest;
          emails := emails + [c];
        } else {
          assert SiteCandidates(env, url, ms[i..]) == rest;
        }
        i := i + 1;
      }
      assert ms[i..] == [];
      assert emails + [] == emails;
    }
  }

  /** The `$('a').each` loop at lines 77-84; None when resolving a link threw. */
  method CollectLinks(env: Env, pageUrl: Url, hrefs: seq<string>) returns (links: Option<seq<Url>>)
    ensures links == ExtractLinks(env, pageUrl, hrefs)
  {
    var found: seq<Url> := [];
    var j := 0;
    assert hrefs[0..] == hrefs;
    PrependNothing(ExtractLinks(env, pageUrl, hrefs));
    while j < |hrefs|
      invariant 0 <= j <= |hrefs|
      invariant ExtractLinks(env, pageUrl, hrefs) == Prepend(found, ExtractLinks(env, pageUrl, hrefs[j..]))
    {
      ExtractLinksStep(env, pageUrl, hrefs, j);
      var link := ClassifyHref(env, pageUrl, hrefs[j]);
      if link.Throws? {
        return None;
      }
      if link.Follow? {
        PrependTwice(found, link.url, ExtractLinks(env, pageUrl, hrefs[j + 1..]));
        found := found + [link.url];
      }
      j := j + 1;
    }
    assert hrefs[j..] == [];
    assert found + [] == found;
    return Some(found);
  }

  lemma ExtractLinksStep(env: Env, pageUrl: Url, hrefs: seq<string>, j: nat)
    requires j < |hrefs|
    ensures var rest := ExtractLinks(env, pageUrl, hrefs[j + 1..]);
      ExtractLinks(env, pageUrl, hrefs[j..]) ==
        match ClassifyHref(env, pageUrl, hrefs[j])
        case Throws => None
        case Skip => rest
        case Follow(u) => Prepend([u], rest)
  {
    assert hrefs[j..][1..] == hrefs[j + 1..];
  }

  lemma PrependNothing(rest: Option<seq<Url>>)
    ensures Prepend([], rest) == rest
  {
    if rest.Some? {
      assert [] + rest.value == rest.value;
    }
  }

  lemma PrependTwice(links: seq<Url>, u: Url, rest: Option<seq<Url>>)
    ensures Prepend(links, Prepend([u], rest)) == Prepend(links + [u], rest)
  {
    if rest.Some? {
      assert links + ([u] + rest.value) == links + [u] + rest.value;
    }
  }

  function Prepend(links: seq<Url>, rest: Option<seq<Url>>): Option<seq<Url>> {
    match rest
    case None => None
    case Some(us) => Some(links + us)
  }

  /** The TypeError `links.filter` throws when crawlPage returned undefined for `url`. */
  datatype Crash = Crash(url: Url)

  /** crawlCompanySite (lines 93-111), proved to do what CrawlSite says. */
  method CrawlCompanySite(env: Env, domain: string) returns (r: Result<seq<Candidate>, Crash>, ghost fetched: seq<Url>)
    ensures r == if CrawlSite(env, domain).crashedOn.Some? then Err(Crash(CrawlSite(env, domain).crashedOn.value))
                 else Ok(CrawlSite(env, domain).state.emails)
    ensures fetched == CrawlSite(env, domain).state.fetched
  {
    var crawler := new Crawler(env);
    var urlsToCrawl := [BaseUrl(domain)];
    while |urlsToCrawl| > 0 && |crawler.visited| < PageCap
      invariant crawler.env == env
      invariant Crawl(env, urlsToCrawl, crawler.State()) == CrawlSite(env, domain)
      decreases PageCap - |crawler.visited|
    {
      var newUrls: seq<Url> := [];
      ghost var start := crawler.State();
      var k := 0;
      assert urlsToCrawl[0..] == urlsToCrawl;
      while k < |urlsToCrawl|
        invariant 0 <= k <= |urlsToCrawl|
        invariant crawler.env == env
        invariant RunBatch(env, urlsToCrawl[k..], crawler.State(), newUrls) == RunBatch(env, urlsToCrawl, start, [])
      {
        var url := urlsToCrawl[k];
        ghost var before := crawler.State();
        assert urlsToCrawl[k..][1..] == urlsToCrawl[k + 1..];
        var links := crawler.CrawlPage(url);
        if links.Undefined? {
          BatchMeetsVisited(env, urlsToCrawl[k..], before, newUrls);
          CrawlThrows(env, urlsToCrawl, start);
          r, fetched := Err(Crash(url)), crawler.fetched;
          return;
        }
        BatchStep(env, urlsToCrawl[k..], before, newUrls);
        newUrls := newUrls + Unvisited(links.urls, crawler.visited);
        k := k + 1;
      }
      CrawlContinues(env, urlsToCrawl, start);
      urlsToCrawl := newUrls;
    }
    r, fetched := Ok(crawler.emails), crawler.fetched;
  }

  lemma BatchMeetsVisited(env: Env, batch: seq<Url>, st: CrawlState, found: seq<Url>)
    requires batch != [] && batch[0] in st.visited
    ensures RunBatch(env, batch, st, found) == Stop(st, found, Some(batch[0]))
  {
  }

  /** A batch that throws ends the crawl with that throw. */
  lemma CrawlThrows(env: Env, frontier: seq<Url>, st: CrawlState)
    requires frontier != [] && |st.visited| < PageCap
    requires RunBatch(env, frontier, st, []).crashedOn.Some?
    ensures Crawl(env, frontier, st) == RunBatch(env, frontier, st, [])
  {
  }

  /** A batch that does not throw hands its gathered URLs to the next round. */
  lemma CrawlContinues(env: Env, frontier: seq<Url>, st: CrawlState)
    requires frontier != [] && |st.visited| < PageCap
    requires RunBatch(env, frontier, st, []).crashedOn.None?
    ensures var b := RunBatch(env, frontier, st, []);
      Crawl(env, frontier, st) == Crawl(env, b.urls, b.state) && |b.state.visited| > |st.visited|
  {
    BatchCountsAll(env, frontier, st, []);
  }

  // ------------------------------------------------------------------ the orchestrator

  /** `{ name, companyName }`; an absent or empty field is not given. */
  datatype Request = Request(name: Option<string>, companyName: Option<string>)

  /** What findHREmails does: the value it resolves to, or the error it rejects with, and
      the actions it took on the way. */
  datatype Discovery = Discovery(result: Result<seq<Candidate>, Crash>, io: seq<Io>)

  /** The entries of the name-only search page (lines 164-168): every valid match. */
  function SearchCandidates(env: Env, ms: seq<Match>): (r: seq<Candidate>)
    ensures forall c :: c in r ==> env.valid(c.email) && c.source == SearchSource && c.confidence == SearchConfidence
    decreases |ms|
  {
    if ms == [] then []
    else (if env.valid(ms[0]) then [Candidate(ms[0], SearchSource, SearchConfidence)] else []) + SearchCandidates(env, ms[1..])
  }

  function Gets(urls: seq<Url>): (r: seq<Io>)
    ensures |r| == |urls| && forall k :: 0 <= k < |urls| ==> r[k] == Get(urls[k])
  {
    seq(|urls|, k requires 0 <= k < |urls| => Get(urls[k]))
  }

  function NameSearchFound(env: Env): seq<Candidate> {
    match env.nameSearch
    case None => []
    case Some(ms) => SearchCandidates(env, ms)
  }

  /** Step 4 (lines 147-172): the name-only search runs for a name without a company. */
  function NameStage(env: Env, req: Request, emails: seq<Candidate>, io: seq<Io>): Discovery {
    if Given(req.name) && !Given(req.companyName) then
      Discovery(Ok(emails + NameSearchFound(env)), io + [Browse(NameSearchUrl(req.name.value))])
    else
      Discovery(Ok(emails), io)
  }

  /** The domain findHREmails works with: empty when no company name is given. */
  function RequestDomain(env: Env, req: Request): string {
    if Given(req.companyName) then CompanyDomain(env, req.companyName.value) else ""
  }

  function RequestPatterns(env: Env, req: Request): seq<Candidate> {
    var domain := RequestDomain(env, req);
    if domain != "" && Given(req.name) then
      var parts := NameParts(req.name.value);
      PatternCandidates(env, EmailPatterns, domain, parts.0, parts.1)
    else []
  }

  /** findHREmails (lines 113-177): the stages in their fixed order, each behind its gate. */
  function Discover(env: Env, req: Request): Discovery {
    var domain := RequestDomain(env, req);
    var io := if Given(req.companyName) then [Browse(DomainSearchUrl(req.companyName.value))] else [];
    var patterns := RequestPatterns(env, req);
    if domain != "" then
      var stop := CrawlSite(env, domain);
      var io' := io + Gets(stop.state.fetched);
      if stop.crashedOn.Some? then Discovery(Err(Crash(stop.crashedOn.value)), io')
      else NameStage(env, req, patterns + stop.state.emails, io')
    else
      NameStage(env, req, patterns, io)
  }

  /** An empty request resolves to `[]` and does no I/O at all. */
  lemma EmptyRequest(env: Env, req: Request)
    requires !Given(req.name) && !Given(req.companyName)
    ensures Discover(env, req) == Discovery(Ok([]), [])
  {
  }

  /** A name alone: one browser search for the name, no pattern and no crawl. */
  lemma NameOnlyRequest(env: Env, req: Request)
    requires Given(req.name) && !Given(req.companyName)
    ensures Discover(env, req) == Discovery(Ok(NameSearchFound(env)), [Browse(NameSearchUrl(req.name.value))])
  {
    assert RequestDomain(env, req) == "" && RequestPatterns(env, req) == [];
    assert [] + NameSearchFound(env) == NameSearchFound(env);
    assert [] + [Browse(NameSearchUrl(req.name.value))] == [Browse(NameSearchUrl(req.name.value))];
  }

  /** The crawl's first fetch is the site's base URL. */
  lemma CrawlStartsAtBase(env: Env, domain: string)
    ensures var f := CrawlSite(env, domain).state.fetched; |f| > 0 && f[0] == BaseUrl(domain)
  {
    FirstBatch(env, domain);
    var base := BaseUrl(domain);
    var home := Visit(env, Start, base);
    assert home.fetched == [base];
    var stop := Crawl(env, Unvisited(PageLinks(env, base), {base}), home);
    assert home.fetched <= stop.state.fetched;
  }

  /** A company name, with or without a person's name: the domain search comes first, the
      crawl starts at the domain's base URL, no name search runs, and the result is the
      pattern entries followed by the crawl's entries, nothing merged. */
  lemma CompanyRequest(env: Env, req: Request)
    requires Given(req.companyName)
    ensures var d := Discover(env, req);
      var domain := CompanyDomain(env, req.companyName.value);
      var stop := CrawlSite(env, domain);
      && d.io == [Browse(DomainSearchUrl(req.companyName.value))] + Gets(stop.state.fetched)
      && |d.io| >= 2 && d.io[1] == Get(BaseUrl(domain))
      && (d.result.Ok? <==> stop.crashedOn.None?)
      && (d.result.Ok? ==> d.result.value == RequestPatterns(env, req) + stop.state.emails)
      && (!Given(req.name) ==> RequestPatterns(env, req) == [])
  {
    var domain := CompanyDomain(env, req.companyName.value);
    CrawlStartsAtBase(env, domain);
  }

  /** No deduplication: an address that both a pattern and the crawl produce appears twice. */
  lemma SameAddressTwice(env: Env, req: Request, e: string)
    requires Given(req.companyName) && Given(req.name)
    requires Candidate(e, PatternSource, PatternConfidence) in RequestPatterns(env, req)
    requires var stop := CrawlSite(env, CompanyDomain(env, req.companyName.value));
      stop.crashedOn.None? && exists c :: c in stop.state.emails && c.email == e
    ensures var d := Discover(env, req);
      d.result.Ok? && exists i, j :: 0 <= i < j < |d.result.value| && d.result.value[i].email == e && d.result.value[j].email == e
  {
    CompanyRequest(env, req);
    var stop := CrawlSite(env, CompanyDomain(env, req.companyName.value));
    var c :| c in stop.state.emails && c.email == e;
    InBothHalves(RequestPatterns(env, req), stop.state.emails, Candidate(e, PatternSource, PatternConfidence), c);
  }

  lemma InBothHalves(p: seq<Candidate>, q: seq<Candidate>, a: Candidate, b: Candidate)
    requires a in p && b in q && a.email == b.email
    ensures exists i, j :: 0 <= i < j < |p + q| && (p + q)[i].email == a.email && (p + q)[j].email == a.email
  {
    var i :| 0 <= i < |p| && p[i] == a;
    var j :| 0 <= j < |q| && q[j] == b;
    assert (p + q)[i] == a && (p + q)[|p| + j] == b;
  }

  /** Every entry of a result passed the validator, with the confidence of its stage. */
  lemma ResultsAreValid(env: Env, req: Request)
    ensures var d := Discover(env, req);
      d.result.Ok? ==> forall c :: c in d.result.value ==>
        && env.valid(c.email)
        && (c.confidence == PatternConfidence || c.confidence == SiteConfidence || c.confidence == SearchConfidence)
  {
    var domain := RequestDomain(env, req);
    if domain != "" {
      CrawlEmailsSound(env, domain);
    }
  }

  /** Step 2's loop over the templates (lines 127-138), run on EmailPatterns. */
  method InferPatterns(env: Env, templates: seq<string>, domain: string, first: string, last: string) returns (emails: seq<Candidate>)
    ensures emails == PatternCandidates(env, templates, domain, first, last)
  {
    emails := [];
    for i := 0 to |templates|
      invariant emails + PatternCandidates(env, templates[i..], domain, first, last)
             == PatternCandidates(env, templates, domain, first, last)
    {
      ghost var before := emails;
      var email := FillTemplate(templates[i], domain, first, last);
      if env.valid(email) {
        emails := emails + [Candidate(email, PatternSource, PatternConfidence)];
      }
      PatternStep(env, templates, i, domain, first, last, email, before, emails);
    }
    assert templates[|templates|..] == [];
  }

  lemma PatternStep(env: Env, templates: seq<string>, i: nat, domain: string, first: string, last: string,
                    email: string, before: seq<Candidate>, after: seq<Candidate>)
    requires i < |templates| && email == FillTemplate(templates[i], domain, first, last)
    requires after == if env.valid(email) then before + [Candidate(email, PatternSource, PatternConfidence)] else before
    ensures after + PatternCandidates(env, templates[i + 1..], domain, first, last)
         == before + PatternCandidates(env, templates[i..], domain, first, last)
  {
    var kept := if env.valid(email) then [Candidate(email, PatternSource, PatternConfidence)] else [];
    var rest := PatternCandidates(env, templates[i + 1..], domain, first, last);
    assert templates[i..][1..] == templates[i + 1..];
    assert PatternCandidates(env, templates[i..], domain, first, last) == kept + rest;
    assert after == before + kept;
    Reassociate(before, kept, rest);
  }

  lemma Reassociate<T>(a: seq<T>, b: seq<T>, c: seq<T>)
    ensures (a + b) + c == a + (b + c)
  {
  }

  /** `siteEmails.forEach(email => emails.add(email))` (line 143). */
  method AddAll(emails: seq<Candidate>, more: seq<Candidate>) returns (r: seq<Candidate>)
    ensures r == emails + more
  {
    r := emails;
    for i := 0 to |more|
      invariant r == emails + more[..i]
    {
      assert more[..i + 1] == more[..i] + [more[i]];
      r := r + [more[i]];
    }
    assert more[..|more|] == more;
  }

  /** The loop over the name search's matches (lines 165-169). */
  method AddSearchMatches(env: Env, emails: seq<Candidate>, ms: seq<Match>) returns (r: seq<Candidate>)
    ensures r == emails + SearchCandidates(env, ms)
  {
    r := emails;
    for i := 0 to |ms|
      invariant r + SearchCandidates(env, ms[i..]) == emails + SearchCandidates(env, ms)
    {
      assert ms[i..][1..] == ms[i + 1..];
      if env.valid(ms[i]) {
        r := r + [Candidate(ms[i], SearchSource, SearchConfidence)];
      }
    }
    assert ms[|ms|..] == [];
  }

  /** findHREmails (lines 113-177), proved to do what Discover says. */
  method FindHREmails(env: Env, req: Request) returns (r: Result<seq<Candidate>, Crash>, ghost io: seq<Io>)
    ensures r == Discover(env, req).result
    ensures io == Discover(env, req).io
  {
    var emails: seq<Candidate> := [];
    var domain := "";
    io := [];
    if Given(req.companyName) {
      domain := CompanyDomain(env, req.companyName.value);
      io := [Browse(DomainSearchUrl(req.companyName.value))];
    }
    assert domain == RequestDomain(env, req);
    var first, last := "", "";
    if Given(req.name) {
      var parts := NameParts(req.name.value);
      first, last := parts.0, parts.1;
    }
    if domain != "" && Given(req.name) {
      emails := InferPatterns(env, EmailPatterns, domain, first, last);
    }
    assert emails == RequestPatterns(env, req);
    if domain != "" {
      var site, fetched := CrawlCompanySite(env, domain);
      io := io + Gets(fetched);
      if site.Err? {
        r := Err(site.error);
        return;
      }
      emails := AddAll(emails, site.value);
    }
    if Given(req.name) && !Given(req.companyName) {
      io := io + [Browse(NameSearchUrl(req.name.value))];
      if env.nameSearch.Some? {
        emails := AddSearchMatches(env, emails, env.nameSearch.value);
      } else {
        assert emails + NameSearchFound(env) == emails;
      }
    }
    r := Ok(emails);
  }
}
