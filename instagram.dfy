/** The `/api/search/instagram` handler (server.js): how many results it
    asks the search provider for, and how it turns the provider's organic
    results into Instagram profiles — keep profile links, read the
    username and display name, clean the snippet, drop invalid usernames,
    and cut the list to the requested count. The provider call itself is
    an input. */
module InstagramShaping {
  import opened Js

  /** One organic search result. An absent text field is "": the handler
      treats absent and empty alike in every place it reads one. */
  datatype OrganicResult = OrganicResult(link: string, title: string, snippet: string, thumbnail: string)

  /** A profile as the handler sends it; a missing thumbnail is `null`. */
  datatype Profile = Profile(username: string, name: string, biography: string, profileUrl: string, thumbnail: Option<string>)

  /** The parameters sent to the search provider. */
  datatype ProviderRequest = ProviderRequest(q: string, num: int, gl: string, hl: string)

  /** What the provider call gives back: an error, or a body whose
      `organic_results` may be missing. */
  datatype ProviderReply = ProviderFailed | ProviderData(organic: Option<seq<OrganicResult>>)

  /** The handler's reply: a list of profiles, or status 500. */
  datatype RouteReply = Profiles(profiles: seq<Profile>) | ServerError(message: string)

  const ProfileHost := "instagram.com/"
  const TitleSeparator := " \U{2022} "
  const MaxRequested := 100

  /** Three times the requested count, to make up for filtering, but never
      more than 100. */
  function RequestedResults(numResults: int): (r: int)
    ensures r <= MaxRequested && r <= 3 * numResults
    ensures r == MaxRequested || r == 3 * numResults
  {
    if 3 * numResults < MaxRequested then 3 * numResults else MaxRequested
  }

  function RequestFor(query: string, numResults: int): (r: ProviderRequest)
    ensures r.q == "site:instagram.com " + query && r.num == RequestedResults(numResults)
  {
    ProviderRequest("site:instagram.com " + query, RequestedResults(numResults), "de", "de")
  }

  /** A link to a profile page rather than to a post, a search page, tags,
      reels or stories. */
  predicate IsProfileLink(url: string) {
    && Includes(url, ProfileHost)
    && !Includes(url, "/p/")
    && !Includes(url, "/explore/")
    && !Includes(url, "/tags/")
    && !Includes(url, "/reels/")
    && !Includes(url, "/stories/")
  }

  predicate HasProfileLink(result: OrganicResult) {
    IsProfileLink(result.link)
  }

  /** The path segment after the first `instagram.com/`, up to the next
      `/`; "" when the link has no `instagram.com/`. */
  function UsernameOf(link: string): (r: string)
    ensures forall k :: 0 <= k < |r| ==> r[k] != '/'
  {
    match SplitSecond(link, ProfileHost)
    case None => ""
    case Some(part) =>
      var u := SplitHead(part, "/");
      assert forall k :: 0 <= k < |u| ==> u[k] != '/' by {
        forall k | 0 <= k < |u|
          ensures u[k] != '/'
        {
          assert !OccursAt(part, "/", k);
          assert part[k..k + 1] == [u[k]];
        }
      }
      u
  }

  /** The title up to the first ` • `, or the username when that is empty. */
  function DisplayName(title: string, username: string): string {
    Or(SplitHead(title, TitleSeparator), username)
  }

  predicate NotLetter(c: char) {
    !IsAsciiLetter(c)
  }

  /** The snippet without its leading non-letters, white space collapsed
      and trimmed; "" without a snippet. */
  function Biography(snippet: string): string {
    if snippet == "" then "" else Normalize(DropWhile(snippet, NotLetter))
  }

  function ToProfile(result: OrganicResult): Profile {
    var username := UsernameOf(result.link);
    Profile(
      username,
      DisplayName(result.title, username),
      Biography(result.snippet),
      result.link,
      if result.thumbnail == "" then None else Some(result.thumbnail))
  }

  /** The final filter: a username of two or more characters, free of `?`
      and `#`, and not one of the non-profile paths `p` and `explore`. */
  predicate IsValidProfile(p: Profile) {
    && p.username != ""
    && |p.username| > 1
    && '?' !in p.username
    && '#' !in p.username
    && p.username != "p"
    && p.username != "explore"
  }

  /** Every valid profile made from a profile link, in result order. */
  function Candidates(results: seq<OrganicResult>): seq<Profile> {
    Filter(Map(Filter(results, HasProfileLink), ToProfile), IsValidProfile)
  }

  /** The filter, map, filter and slice chain; no profiles when the reply
      has no organic results. */
  function ShapeProfiles(organic: Option<seq<OrganicResult>>, numResults: int): seq<Profile> {
    match organic
    case None => []
    case Some(results) => SliceTo(Candidates(results), numResults)
  }

  /** The handler: status 500 when the provider call fails. */
  function SearchInstagramRoute(reply: ProviderReply, numResults: int): (r: RouteReply)
    ensures r.ServerError? <==> reply.ProviderFailed?
    ensures r.ServerError? ==> r.message == "Failed to search Instagram"
  {
    match reply
    case ProviderFailed => ServerError("Failed to search Instagram")
    case ProviderData(organic) => Profiles(ShapeProfiles(organic, numResults))
  }

  // ---------------------------------------------------------------------
  // Properties

  /** The handler sends at most the requested number of profiles, and no
      more than the provider gave it results. */
  lemma ShapedBound(organic: Option<seq<OrganicResult>>, numResults: int)
    ensures 0 <= numResults ==> |ShapeProfiles(organic, numResults)| <= numResults
    ensures organic.Some? ==> |ShapeProfiles(organic, numResults)| <= |organic.value|
    ensures organic.None? ==> ShapeProfiles(organic, numResults) == []
  {
    if organic.Some? {
      var rs := organic.value;
      assert |Candidates(rs)| <= |Map(Filter(rs, HasProfileLink), ToProfile)| <= |rs|;
    }
  }

  /** Every profile sent comes from a profile link, its username is the one
      read off that link, it passes the validity filter, and it has a
      display name. */
  lemma ShapedProfilesValid(results: seq<OrganicResult>, numResults: int)
    ensures forall p :: p in ShapeProfiles(Some(results), numResults) ==>
      && IsValidProfile(p)
      && IsProfileLink(p.profileUrl)
      && p.username == UsernameOf(p.profileUrl)
      && '/' !in p.username
      && p.name != ""
  {
    var linked := Filter(results, HasProfileLink);
    var mapped := Map(linked, ToProfile);
    var out := ShapeProfiles(Some(results), numResults);
    forall p | p in out
      ensures IsValidProfile(p) && IsProfileLink(p.profileUrl) && p.username == UsernameOf(p.profileUrl) && p.name != ""
    {
      var i :| 0 <= i < |out| && out[i] == p;
      assert p in Candidates(results);
      var j :| 0 <= j < |Candidates(results)| && Candidates(results)[j] == p;
      assert p in mapped;
      var k :| 0 <= k < |mapped| && mapped[k] == p;
      assert p == ToProfile(linked[k]);
      assert linked[k] in results && HasProfileLink(linked[k]);
    }
  }

  /** The profiles sent keep the order of the results they come from. */
  lemma ShapedProfilesInOrder(results: seq<OrganicResult>, numResults: int)
    ensures IsSubsequence(ShapeProfiles(Some(results), numResults), Map(Filter(results, HasProfileLink), ToProfile))
  {
    var cands := Candidates(results);
    var out := ShapeProfiles(Some(results), numResults);
    assert out == cands[..|out|];
    SubsequencePrefix(cands, Map(Filter(results, HasProfileLink), ToProfile), |out|);
  }

  /** Only the final cut drops valid profiles: the handler sends the first
      `numResults` of them, or all when there are fewer. */
  lemma ShapedProfilesComplete(results: seq<OrganicResult>, numResults: nat)
    ensures var out := ShapeProfiles(Some(results), numResults);
      && out == Candidates(results)[..|out|]
      && |out| == if numResults < |Candidates(results)| then numResults else |Candidates(results)|
  {
  }

  /** The username written into a profile URL is read back unchanged,
      provided it has no `/` and does not itself end the host name. */
  lemma {:induction false} UsernameRoundTrip(u: string)
    requires '/' !in u
    requires !Includes(u + "/", ProfileHost)
    ensures UsernameOf("https://www.instagram.com/" + u + "/") == u
  {
    var link := "https://www.instagram.com/" + u + "/";
    assert link[12..26] == ProfileHost;
    assert OccursAt(link, ProfileHost, 12);
    forall k | 0 <= k < 12
      ensures !OccursAt(link, ProfileHost, k)
    {
      assert link[k + 13] != '/';
      assert link[k..k + 14][13] == link[k + 13];
    }
    assert IndexOf(link, ProfileHost, 0) == Some(12);
    var part := SplitSecond(link, ProfileHost).value;
    assert |part| > |u| by {
      if |part| <= |u| {
        var q := 26 + |part|;
        assert OccursAt(link, ProfileHost, q);
        OccurrenceInTail(u, q);
      }
    }
    assert part[..|u| + 1] == u + "/";
    HeadBeforeSlash(part, u);
  }

  /** An occurrence of the host at or after the username's start would
      put a `/` inside the username or make `u + "/"` hold the host. */
  lemma OccurrenceInTail(u: string, q: nat)
    requires '/' !in u
    requires !Includes(u + "/", ProfileHost)
    requires 26 <= q <= 26 + |u|
    ensures !OccursAt("https://www.instagram.com/" + u + "/", ProfileHost, q)
  {
    var link := "https://www.instagram.com/" + u + "/";
    var tail := u + "/";
    assert link[26..] == tail;
    var j := q - 26;
    if j + 14 <= |tail| {
      assert link[q..q + 14] == tail[j..j + 14];
      if tail[j..j + 14] == ProfileHost {
        IncludesAt(tail, ProfileHost, j);
      }
    }
  }

  /** `split('/')[0]` of a text that starts with a slash-free `u` and then
      a slash is `u`. */
  lemma HeadBeforeSlash(part: string, u: string)
    requires '/' !in u && |u| < |part| && part[..|u| + 1] == u + "/"
    ensures SplitHead(part, "/") == u
  {
    var h := SplitHead(part, "/");
    assert OccursAt(part, "/", |u|) by {
      assert part[|u|..|u| + 1] == [part[|u|]];
    }
    IncludesAt(part, "/", |u|);
    forall k | 0 <= k < |u|
      ensures !OccursAt(part, "/", k)
    {
      assert part[k..k + 1] == [u[k]];
    }
  }

  /** The display name is the title before ` • `, falling back to the
      username when the title is missing or starts with the separator. */
  lemma DisplayNameChoice(title: string, username: string)
    ensures var n := DisplayName(title, username);
      && (SplitHead(title, TitleSeparator) == [] ==> n == username)
      && (SplitHead(title, TitleSeparator) != [] ==>
            && n == title[..|n|] && !Includes(n, TitleSeparator)
            && (|n| < |title| ==> OccursAt(title, TitleSeparator, |n|))
            && (forall k :: 0 <= k < |n| ==> !OccursAt(title, TitleSeparator, k)))
  {
    var h := SplitHead(title, TitleSeparator);
    if h != [] && Includes(h, TitleSeparator) {
      var k := IndexOf(h, TitleSeparator, 0).value;
      assert h[k..k + |TitleSeparator|] == title[k..k + |TitleSeparator|];
      assert OccursAt(title, TitleSeparator, k);
    }
  }

  /** A biography starts with a letter and has no surrounding, repeated or
      non-space white space. */
  lemma BiographyShape(snippet: string)
    ensures var b := Biography(snippet);
      && (b == [] || IsAsciiLetter(b[0]))
      && (b == [] || !IsSpace(b[|b| - 1]))
      && IsCollapsed(b)
  {
    if snippet != "" {
      var d := DropWhile(snippet, NotLetter);
      if d != [] {
        assert IsAsciiLetter(d[0]) && !IsSpace(d[0]);
      }
    }
  }

  /** The biography is the normalized snippet from its first ASCII letter
      on: it starts with that letter, and is "" when the snippet has none. */
  lemma BiographyText(snippet: string)
    ensures var i := |snippet| - |DropWhile(snippet, NotLetter)|;
      && (forall k :: 0 <= k < i ==> !IsAsciiLetter(snippet[k]))
      && (i < |snippet| ==> IsAsciiLetter(snippet[i]))
      && Biography(snippet) == Normalize(snippet[i..])
      && (i < |snippet| ==> Biography(snippet) != [] && Biography(snippet)[0] == snippet[i])
      && (i == |snippet| ==> Biography(snippet) == [])
  {
    var d := DropWhile(snippet, NotLetter);
    var i := |snippet| - |d|;
    DropWhileDrops(snippet, NotLetter);
    assert d == snippet[i..];
    if d == [] {
      assert Normalize([]) == [];
    } else {
      assert d[0] == snippet[i] && IsAsciiLetter(d[0]) && !IsSpace(d[0]);
    }
  }

  /** A failing provider call is answered with status 500, and a reply
      without organic results with an empty profile list. */
  lemma RouteEmptyCases(numResults: int)
    ensures SearchInstagramRoute(ProviderData(None), numResults) == Profiles([])
    ensures SearchInstagramRoute(ProviderFailed, numResults).ServerError?
  {
  }
}
