/** The client's search functions (src/services/api.js). Each HTTP call to
    the local proxy is an input: its outcome is a `Response`, and the
    client-side `scrapeWebsite` call is a function from URL to reply. The
    blacklist kept in the browser's storage is passed in as a list. */
module Api {
  import opened Js
  import InstagramShaping

  /** A lead as the client builds it, one shape per source. `status` is
      absent on Google and Instagram leads until the lead list sets it. */
  datatype Lead =
    | GoogleLead(
        companyName: string, name: string, address: string, phone: string, email: string,
        website: string, rating: string, reviews: string, owner: string, status: Option<string>)
    | InstagramLead(
        companyName: string, name: string, website: string, description: string, profileUrl: string,
        thumbnail: string, followers: nat, cachedPageLink: string, relatedPagesLink: string,
        status: Option<string>)
    | LinkedInLead(companyName: string, linkedin: string, website: string, status: Option<string>)

  /** What a call to the proxy yields: the call rejected (network error or
      an error status), a body without the expected list, or the list. */
  datatype Response<T> = Rejected(reason: string) | Missing | Found(items: seq<T>)

  // ---------------------------------------------------------------------
  // Scraping a lead's website

  /** The contact data the scrape endpoint answers with; a field it does
      not send is "". */
  datatype ScrapedData = ScrapedData(companyName: string, phone: string, email: string, owner: string)

  /** The empty object `{}`. */
  const NoData := ScrapedData("", "", "", "")

  /** The outcome of the HTTP call to the scrape endpoint. */
  datatype ScrapeReply = ScrapeFailed | ScrapeReplied(data: Option<ScrapedData>)

  /** The client `scrapeWebsite`: no call for an empty URL, and `{}` for a
      failed call or an empty body; it never fails. */
  function ScrapeWebsite(url: string, reply: ScrapeReply): (d: ScrapedData)
    ensures url == "" || reply.ScrapeFailed? || reply.data.None? ==> d == NoData
    ensures url != "" && reply.ScrapeReplied? && reply.data.Some? ==> d == reply.data.value
  {
    if url == "" then NoData
    else
      match reply
      case ScrapeFailed => NoData
      case ScrapeReplied(data) => data.GetOr(NoData)
  }

  // ---------------------------------------------------------------------
  // Google Maps

  /** One local result from the proxy; a field it lacks is "". */
  datatype LocalResult = LocalResult(
    title: string, address: string, phone: string, website: string, rating: string, reviews: string)

  /** The scraped data for a result: only fetched when it has a website. */
  function WebsiteData(result: LocalResult, scrape: string -> ScrapeReply): ScrapedData {
    if result.website != "" then ScrapeWebsite(result.website, scrape(result.website)) else NoData
  }

  /** The merge of search data with scraped data; `||` keeps the first
      non-empty value. */
  function MergeLead(result: LocalResult, data: ScrapedData): Lead {
    var companyName := Or(result.title, data.companyName);
    GoogleLead(
      companyName, companyName, result.address, Or(result.phone, data.phone), data.email,
      result.website, result.rating, result.reviews, data.owner, None)
  }

  function ProcessResult(result: LocalResult, scrape: string -> ScrapeReply): Lead {
    MergeLead(result, WebsiteData(result, scrape))
  }

  /** The merged lead of every result, in order. */
  function ProcessAll(results: seq<LocalResult>, scrape: string -> ScrapeReply): (leads: seq<Lead>)
    ensures |leads| == |results|
    ensures forall k :: 0 <= k < |results| ==> leads[k] == ProcessResult(results[k], scrape)
  {
    Map(results, r => ProcessResult(r, scrape))
  }

  predicate HasCompanyName(lead: Lead) {
    lead.companyName != ""
  }

  /** `searchGoogle`: cut the results to `numResults`, merge each with its
      scraped data, keep the leads that have a company name; no leads when
      the call fails or the body has no `local_results`. */
  function SearchGoogle(response: Response<LocalResult>, numResults: int, scrape: string -> ScrapeReply): (r: seq<Lead>)
    ensures !response.Found? ==> r == []
  {
    match response
    case Found(results) => Filter(ProcessAll(SliceTo(results, numResults), scrape), HasCompanyName)
    case _ => []
  }

  /** At most `numResults` results are processed, in order, and every lead
      returned is a Google lead with a company name, which is also its
      display name. */
  lemma GoogleLeads(results: seq<LocalResult>, numResults: int, scrape: string -> ScrapeReply)
    ensures var out := SearchGoogle(Found(results), numResults, scrape);
      && (0 <= numResults ==> |out| <= numResults)
      && IsSubsequence(out, ProcessAll(SliceTo(results, numResults), scrape))
      && forall k :: 0 <= k < |out| ==> out[k].GoogleLead? && out[k].companyName != "" && out[k].name == out[k].companyName
  {
    var all := ProcessAll(SliceTo(results, numResults), scrape);
    var out := SearchGoogle(Found(results), numResults, scrape);
    forall k | 0 <= k < |out|
      ensures out[k].GoogleLead? && out[k].name == out[k].companyName
    {
      var j :| 0 <= j < |all| && all[j] == out[k];
    }
  }

  /** Every processed result with a company name is returned. */
  lemma GoogleLeadsComplete(results: seq<LocalResult>, numResults: int, scrape: string -> ScrapeReply, k: nat)
    requires k < |SliceTo(results, numResults)|
    requires HasCompanyName(ProcessResult(results[k], scrape))
    ensures ProcessResult(results[k], scrape) in SearchGoogle(Found(results), numResults, scrape)
  {
    var sliced := SliceTo(results, numResults);
    assert sliced[k] == results[k];
    assert ProcessAll(sliced, scrape)[k] == ProcessResult(results[k], scrape);
  }

  /** Search data wins the merge: where the result has a title or a
      phone, the scraped data cannot change it, and address, website,
      rating and reviews come from the result alone. Email and owner come
      from the scraped data alone. */
  lemma SearchDataWins(result: LocalResult, d1: ScrapedData, d2: ScrapedData)
    ensures var l1 := MergeLead(result, d1); var l2 := MergeLead(result, d2);
      && (result.title != "" ==> l1.companyName == l2.companyName == result.title)
      && (result.phone != "" ==> l1.phone == l2.phone == result.phone)
      && l1.address == l2.address == result.address
      && l1.website == l2.website == result.website
      && l1.rating == l2.rating == result.rating && l1.reviews == l2.reviews == result.reviews
      && l1.email == d1.email && l1.owner == d1.owner
  {
  }

  /** Scraped data fills the gaps: a result without title or phone takes
      the scraped company name or phone. */
  lemma ScrapedDataFills(result: LocalResult, d: ScrapedData)
    ensures result.title == "" ==> MergeLead(result, d).companyName == d.companyName
    ensures result.phone == "" ==> MergeLead(result, d).phone == d.phone
  {
  }

  /** A result without a website is not scraped: whatever the scrape
      endpoint would say, the lead is the result's own data. */
  lemma NoWebsiteNoScrape(result: LocalResult, s1: string -> ScrapeReply, s2: string -> ScrapeReply)
    requires result.website == ""
    ensures ProcessResult(result, s1) == ProcessResult(result, s2) == MergeLead(result, NoData)
  {
  }

  /** A failed scrape still yields a lead, from the search data alone; it
      is returned when the result has a title. */
  lemma FailedScrapeKeepsLead(results: seq<LocalResult>, numResults: int, scrape: string -> ScrapeReply, k: nat)
    requires k < |SliceTo(results, numResults)|
    requires scrape(results[k].website) == ScrapeFailed && results[k].title != ""
    ensures ProcessResult(results[k], scrape) == MergeLead(results[k], NoData)
    ensures MergeLead(results[k], NoData) in SearchGoogle(Found(results), numResults, scrape)
  {
    GoogleLeadsComplete(results, numResults, scrape, k);
  }

  // ---------------------------------------------------------------------
  // Instagram

  /** A profile as the client reads it; a field the body lacks is "". */
  datatype ProfileRecord = ProfileRecord(
    username: string, fullName: string, website: string, biography: string, profileUrl: string,
    thumbnail: string, followers: string, cachedPageLink: string, relatedPagesLink: string)

  /** The number formed by the digits of `s`: `parseInt` of the digits
      alone, 0 when there are none (`NaN || 0`) or `s` is absent. */
  function Followers(s: string): nat {
    var digits := Filter(s, IsDigit);
    if digits == "" then 0 else DigitsValue(digits)
  }

  function ToInstagramLead(p: ProfileRecord): Lead {
    InstagramLead(
      p.username, Or(p.fullName, p.username), p.website, p.biography, p.profileUrl,
      p.thumbnail, Followers(p.followers), p.cachedPageLink, p.relatedPagesLink, None)
  }

  predicate HasUsername(p: ProfileRecord) {
    p.username != ""
  }

  /** `searchInstagram`: the profiles with a username, as leads; no leads
      when the call fails or the body has no `instagram_profiles`. */
  function SearchInstagram(response: Response<ProfileRecord>): (r: seq<Lead>)
    ensures !response.Found? ==> r == []
    ensures forall k :: 0 <= k < |r| ==> r[k].InstagramLead?
  {
    match response
    case Found(profiles) => Map(Filter(profiles, HasUsername), ToInstagramLead)
    case _ => []
  }

  /** Every Instagram lead is named after a profile with a username; its
      display name is the full name, or the username when there is none. */
  lemma InstagramLeads(profiles: seq<ProfileRecord>)
    ensures var out := SearchInstagram(Found(profiles));
      && |out| <= |profiles|
      && (forall k :: 0 <= k < |out| ==>
        exists p :: p in profiles && p.username != ""
          && out[k] == ToInstagramLead(p)
          && out[k].companyName == p.username
          && out[k].name == (if p.fullName != "" then p.fullName else p.username))
  {
    var kept := Filter(profiles, HasUsername);
    var out := SearchInstagram(Found(profiles));
    forall k | 0 <= k < |out|
      ensures exists p :: p in profiles && p.username != "" && out[k] == ToInstagramLead(p)
    {
      assert out[k] == ToInstagramLead(kept[k]) && kept[k] in profiles;
    }
  }

  /** Every profile with a username yields a lead. */
  lemma InstagramLeadsComplete(profiles: seq<ProfileRecord>)
    ensures forall p :: p in profiles && p.username != "" ==> ToInstagramLead(p) in SearchInstagram(Found(profiles))
  {
    var kept := Filter(profiles, HasUsername);
    forall p | p in profiles && p.username != ""
      ensures ToInstagramLead(p) in SearchInstagram(Found(profiles))
    {
      var j :| 0 <= j < |profiles| && profiles[j] == p;
      assert HasUsername(profiles[j]);
      MappedMember(kept, ToInstagramLead, p);
    }
  }

  lemma MappedMember<T, U>(xs: seq<T>, f: T -> U, x: T)
    requires x in xs
    ensures f(x) in Map(xs, f)
  {
    var i :| 0 <= i < |xs| && xs[i] == x;
    assert Map(xs, f)[i] == f(x);
  }

  /** The Instagram leads are those of the profiles with a username, in the
      profiles' order and with their multiplicity: a subsequence of the
      profiles that holds each profile with a username as often as the
      profiles do, and no other. */
  lemma InstagramLeadsInOrder(profiles: seq<ProfileRecord>)
    ensures var out := SearchInstagram(Found(profiles));
      exists kept: seq<ProfileRecord> ::
        && IsSubsequence(kept, profiles)
        && (forall p: ProfileRecord :: multiset(kept)[p] == if p.username != "" then multiset(profiles)[p] else 0)
        && |out| == |kept|
        && forall k :: 0 <= k < |kept| ==> out[k] == ToInstagramLead(kept[k])
  {
    var kept := Filter(profiles, HasUsername);
    forall p: ProfileRecord
      ensures multiset(kept)[p] == if p.username != "" then multiset(profiles)[p] else 0
    {
      FilterCount(profiles, HasUsername, p);
    }
    assert IsSubsequence(kept, profiles);
  }

  /** Filtering keeps all characters of `a + b` that pass, in order. */
  lemma {:induction false} FilterConcat(a: string, b: string, p: char -> bool)
    ensures Filter(a + b, p) == Filter(a, p) + Filter(b, p)
  {
    if a == [] {
      assert a + b == b;
    } else {
      assert (a + b)[0] == a[0];
      assert (a + b)[1..] == a[1..] + b;
      FilterConcat(a[1..], b, p);
    }
  }

  /** The follower count of a number's decimal text is that number. */
  lemma FollowersOfDecimal(n: nat)
    ensures Followers(Decimal(n)) == n
  {
    var s := Decimal(n);
    FilterAllDigits(s);
    DecimalRoundTrip(n);
    assert Filter(s, IsDigit) == s != "";
  }

  lemma {:induction false} FilterAllDigits(s: string)
    requires forall k :: 0 <= k < |s| ==> IsDigit(s[k])
    ensures Filter(s, IsDigit) == s
  {
    if s != [] {
      FilterAllDigits(s[1..]);
    }
  }

  /** Separators between the digits do not change the follower count. */
  lemma FollowersSkipSeparator(a: string, c: char, b: string)
    requires !IsDigit(c)
    ensures Followers(a + [c] + b) == Followers(a + b)
  {
    FilterConcat(a + [c], b, IsDigit);
    FilterConcat(a, [c], IsDigit);
    FilterConcat(a, b, IsDigit);
    assert [c][1..] == [];
    assert Filter([c], IsDigit) == [];
    assert Filter(a + [c], IsDigit) == Filter(a, IsDigit);
  }

  /** Text without digits counts no followers. */
  lemma FollowersWithoutDigits(s: string)
    requires forall k :: 0 <= k < |s| ==> !IsDigit(s[k])
    ensures Followers(s) == 0
  {
  }

  /** The server's profile as the client receives it: the server sends
      `name`, which the client never reads, and no `full_name`, `website`,
      `followers` or cache links; a `null` thumbnail becomes "". */
  function FromServer(p: InstagramShaping.Profile): ProfileRecord {
    ProfileRecord(p.username, "", "", p.biography, p.profileUrl, p.thumbnail.GetOr(""), "", "", "")
  }

  /** The proxy's reply to the client: a status-500 reply rejects the call. */
  function ServerResponse(reply: InstagramShaping.RouteReply): Response<ProfileRecord> {
    match reply
    case ServerError(_) => Rejected("Request failed with status code 500")
    case Profiles(ps) => Found(Map(ps, FromServer))
  }

  /** Through server and client together: every shaped profile becomes a
      lead, in order, and each lead's name is its username, not the display
      name the server derived from the title; it counts no followers. */
  lemma InstagramEndToEnd(reply: InstagramShaping.ProviderReply, numResults: int)
    ensures var shaped := InstagramShaping.SearchInstagramRoute(reply, numResults);
      var out := SearchInstagram(ServerResponse(shaped));
      && (shaped.Profiles? ==> |out| == |shaped.profiles|)
      && (shaped.Profiles? ==> forall k :: 0 <= k < |out| ==> out[k].companyName == shaped.profiles[k].username)
      && forall k :: 0 <= k < |out| ==> out[k].name == out[k].companyName && out[k].followers == 0
  {
    var shaped := InstagramShaping.SearchInstagramRoute(reply, numResults);
    if shaped.Profiles? {
      if reply.organic.Some? {
        InstagramShaping.ShapedProfilesValid(reply.organic.value, numResults);
      }
      ClientKeepsShaped(shaped.profiles);
    }
  }

  /** Profiles that all have a username reach the client whole: one lead
      each, in order, named by the username and with no followers. */
  lemma ClientKeepsShaped(ps: seq<InstagramShaping.Profile>)
    requires forall p :: p in ps ==> p.username != ""
    ensures var out := SearchInstagram(Found(Map(ps, FromServer)));
      && |out| == |ps|
      && forall k :: 0 <= k < |out| ==>
        out[k].companyName == ps[k].username && out[k].name == out[k].companyName && out[k].followers == 0
  {
    var wire := Map(ps, FromServer);
    forall k | 0 <= k < |wire|
      ensures HasUsername(wire[k])
    {
      assert ps[k] in ps;
    }
    AllKept(wire, HasUsername);
    assert Filter("", IsDigit) == "";
  }

  /** The profile as the client evidently means to read it: the display
      name the server sends as `name` arrives as the full name. */
  function FromServerNamed(p: InstagramShaping.Profile): ProfileRecord {
    ProfileRecord(p.username, p.name, "", p.biography, p.profileUrl, p.thumbnail.GetOr(""), "", "", "")
  }

  function NamedServerResponse(reply: InstagramShaping.RouteReply): Response<ProfileRecord> {
    match reply
    case ServerError(_) => Rejected("Request failed with status code 500")
    case Profiles(ps) => Found(Map(ps, FromServerNamed))
  }

  /** With the display name read, every shaped profile becomes a lead, in
      order, named by the display name the server derived from its title. */
  lemma DisplayNameReachesClient(reply: InstagramShaping.ProviderReply, numResults: int)
    ensures var shaped := InstagramShaping.SearchInstagramRoute(reply, numResults);
      var out := SearchInstagram(NamedServerResponse(shaped));
      && (shaped.Profiles? ==> |out| == |shaped.profiles|)
      && (shaped.Profiles? ==> forall k :: 0 <= k < |out| ==>
            out[k].companyName == shaped.profiles[k].username && out[k].name == shaped.profiles[k].name)
  {
    var shaped := InstagramShaping.SearchInstagramRoute(reply, numResults);
    if shaped.Profiles? {
      if reply.organic.Some? {
        InstagramShaping.ShapedProfilesValid(reply.organic.value, numResults);
      }
      NamedKeepsShaped(shaped.profiles);
    }
  }

  /** Profiles with a username and a display name reach the client whole,
      each lead named by its display name. */
  lemma NamedKeepsShaped(ps: seq<InstagramShaping.Profile>)
    requires forall p :: p in ps ==> p.username != "" && p.name != ""
    ensures var out := SearchInstagram(Found(Map(ps, FromServerNamed)));
      && |out| == |ps|
      && forall k :: 0 <= k < |out| ==> out[k].companyName == ps[k].username && out[k].name == ps[k].name
  {
    var wire := Map(ps, FromServerNamed);
    forall k | 0 <= k < |wire|
      ensures HasUsername(wire[k])
    {
      assert ps[k] in ps;
    }
    AllKept(wire, HasUsername);
    forall k | 0 <= k < |ps|
      ensures SearchInstagram(Found(wire))[k].name == ps[k].name
    {
      assert ps[k] in ps;
    }
  }

  lemma {:induction false} AllKept<T>(xs: seq<T>, p: T -> bool)
    requires forall k :: 0 <= k < |xs| ==> p(xs[k])
    ensures Filter(xs, p) == xs
  {
    if xs != [] {
      AllKept(xs[1..], p);
    }
  }

  // ---------------------------------------------------------------------
  // LinkedIn

  /** One organic result for LinkedIn; the title may be absent. */
  datatype LinkedInResult = LinkedInResult(title: Option<string>, link: string)

  /** The error a missing title raises when the client splits it. */
  const TitleTypeError := "Cannot read properties of undefined (reading 'split')"

  /** `isBlacklisted`: some blacklist entry has the same company name. */
  predicate IsBlacklisted(blacklist: seq<Lead>, lead: Lead) {
    exists k :: 0 <= k < |blacklist| && blacklist[k].companyName == lead.companyName
  }

  /** The title before its first `|`, trimmed. */
  function CompanyNameOf(title: string): string {
    Trim(SplitHead(title, "|"))
  }

  function ToLinkedInLead(result: LinkedInResult): Lead {
    LinkedInLead(CompanyNameOf(result.title.GetOr("")), result.link, "", Some(""))
  }

  /** The leads that are not blacklisted, in order. */
  function NotBlacklisted(leads: seq<Lead>, blacklist: seq<Lead>): (r: seq<Lead>)
    ensures forall k :: 0 <= k < |r| ==> !IsBlacklisted(blacklist, r[k])
  {
    Filter(leads, l => !IsBlacklisted(blacklist, l))
  }

  /** `searchLinkedIn`: map titles to leads, drop blacklisted ones, then cut
      to `count`. Unlike the other searches it fails: when the call
      fails, when the body has no `organic_results`, and when a result has
      no title. */
  function SearchLinkedIn(response: Response<LinkedInResult>, count: int, blacklist: seq<Lead>): (r: Result<seq<Lead>>)
    ensures response.Rejected? ==> r == Err(response.reason)
    ensures response.Missing? ==> r == Err("No LinkedIn results found")
  {
    match response
    case Rejected(reason) => Err(reason)
    case Missing => Err("No LinkedIn results found")
    case Found(results) =>
      if exists k :: 0 <= k < |results| && results[k].title.None? then Err(TitleTypeError)
      else Ok(SliceTo(NotBlacklisted(Map(results, ToLinkedInLead), blacklist), count))
  }

  /** No lead returned shares its company name with a blacklist entry. */
  lemma LinkedInSkipsBlacklisted(results: seq<LinkedInResult>, count: int, blacklist: seq<Lead>)
    ensures var r := SearchLinkedIn(Found(results), count, blacklist);
      r.Ok? ==> forall k, j :: 0 <= k < |r.value| && 0 <= j < |blacklist| ==> r.value[k].companyName != blacklist[j].companyName
  {
    var r := SearchLinkedIn(Found(results), count, blacklist);
    if r.Ok? {
      var nb := NotBlacklisted(Map(results, ToLinkedInLead), blacklist);
      forall k, j | 0 <= k < |r.value| && 0 <= j < |blacklist|
        ensures r.value[k].companyName != blacklist[j].companyName
      {
        assert r.value[k] == nb[k];
      }
    }
  }

  /** The blacklist is applied before the cut: with at least `count` leads
      not blacklisted, exactly `count` are returned, whatever their
      positions; they are the first ones, in order. */
  lemma LinkedInFilterBeforeCut(results: seq<LinkedInResult>, count: nat, blacklist: seq<Lead>)
    requires forall k :: 0 <= k < |results| ==> results[k].title.Some?
    ensures var nb := NotBlacklisted(Map(results, ToLinkedInLead), blacklist);
      var r := SearchLinkedIn(Found(results), count, blacklist);
      && r.Ok?
      && r.value == nb[..|r.value|]
      && |r.value| == (if count < |nb| then count else |nb|)
      && IsSubsequence(r.value, Map(results, ToLinkedInLead))
  {
    var all := Map(results, ToLinkedInLead);
    var nb := NotBlacklisted(all, blacklist);
    assert IsSubsequence(nb, all);
    var out := SliceTo(nb, count);
    assert SearchLinkedIn(Found(results), count, blacklist) == Ok(out);
    SubsequencePrefix(nb, all, |out|);
  }

  /** The company name holds no `|`, has no surrounding white space, and is
      the title's text before its first `|` with the white space around it
      removed. */
  lemma CompanyNameShape(title: string)
    ensures var c := CompanyNameOf(title); var h := SplitHead(title, "|"); var a := TrimOffset(h);
      && (forall k :: 0 <= k < |c| ==> c[k] != '|')
      && (c == [] || (!IsSpace(c[0]) && !IsSpace(c[|c| - 1])))
      && a + |c| <= |h| && c == title[a..a + |c|]
      && (forall k :: 0 <= k < a ==> IsSpace(h[k]))
      && (forall k :: a + |c| <= k < |h| ==> IsSpace(h[k]))
  {
    NoBarBeforeFirst(title);
    TrimOfPrefix(title, SplitHead(title, "|"));
  }

  /** The trim of a `|`-free prefix, stated over the whole text. */
  lemma TrimOfPrefix(s: string, h: string)
    requires |h| <= |s| && h == s[..|h|]
    requires forall k :: 0 <= k < |h| ==> h[k] != '|'
    ensures var c := Trim(h); var a := TrimOffset(h);
      && (forall k :: 0 <= k < |c| ==> c[k] != '|')
      && (c == [] || (!IsSpace(c[0]) && !IsSpace(c[|c| - 1])))
      && a + |c| <= |h| && c == s[a..a + |c|]
      && (forall k :: 0 <= k < a ==> IsSpace(h[k]))
      && (forall k :: a + |c| <= k < |h| ==> IsSpace(h[k]))
  {
    TrimDrops(h);
    InfixOfPrefix(s, h, Trim(h), TrimOffset(h));
  }

  lemma InfixOfPrefix(s: string, h: string, c: string, a: nat)
    requires |h| <= |s| && h == s[..|h|]
    requires a + |c| <= |h| && c == h[a..a + |c|]
    requires forall k :: 0 <= k < |h| ==> h[k] != '|'
    ensures c == s[a..a + |c|]
    ensures forall k :: 0 <= k < |c| ==> c[k] != '|'
  {
    forall k | 0 <= k < |c|
      ensures c[k] != '|'
    {
      assert c[k] == h[a + k];
    }
  }

  lemma NoBarBeforeFirst(title: string)
    ensures var h := SplitHead(title, "|"); forall k :: 0 <= k < |h| ==> h[k] != '|'
  {
    var h := SplitHead(title, "|");
    forall k | 0 <= k < |h|
      ensures h[k] != '|'
    {
      assert !OccursAt(title, "|", k);
      assert title[k..k + 1] == [h[k]];
    }
  }

  /** A title without `|` gives its own trimmed text as the company name. */
  lemma CompanyNameWithoutBar(title: string)
    requires '|' !in title
    ensures CompanyNameOf(title) == Trim(title)
  {
    forall k: nat | k + 1 <= |title|
      ensures !OccursAt(title, "|", k)
    {
      assert title[k..k + 1] == [title[k]];
    }
    assert !Includes(title, "|");
  }
}
