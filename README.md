# LeadGen: a Dafny model of the lead search and contact scraper

LeadGen finds sales leads. A React page (`LeadGenerator`) sends a search
query to a small Express proxy (`server.js`), which asks a web search
provider for Google Maps places or Instagram profiles. For every place
that has a website, the client asks the proxy to scrape that site for a
phone number, an email address and an owner name. The page shows the
leads and lets the user delete a lead, change its status or blacklist it.
LinkedIn leads are checked against the blacklist.

The model covers these parts:

- `js.dfy`, module `Js`: the JavaScript built-ins the code relies on,
  defined over `seq<char>`. These are `trim`, `\s+` collapsing,
  `indexOf`/`includes`, the first two pieces of `split`, `replace` with a
  string pattern, ASCII `toLowerCase`, `slice`, `map`, `filter`, and the
  decimal text of a number. Most carry a contract about their result.
  The white-space clean-up is described further by lemmas about what it
  keeps and joins, and the decimal text by its round trip with digit
  parsing (`Js.DecimalRoundTrip`).
- `patterns.dfy`, module `Patterns`: the scraper's phone and email
  regular expressions (`server.js:92`, `server.js:114`). Each is written
  twice: as a predicate saying which strings the pattern accepts, and as
  the greedy, backtracking matcher the regex engine runs. It is proved
  that the matcher returns the leftmost match, and the longest match at
  that position.
- `fetch.dfy`, module `Fetch`: the retry loop of `scrapeWebsite`. This is
  an imperative method over three network replies, proved against
  specification functions. It records the request sent on each attempt,
  the back-off delays, and the error raised when all attempts fail.
- `extraction.dfy`, module `Extraction`: the phone, email and owner
  heuristics, and the whole `scrapeWebsite`. These are imperative scans
  over an abstract parsed page, proved equal to recursive specification
  functions, with lemmas about what those functions return.
- `instagram.dfy`, module `InstagramShaping`: the `/api/search/instagram`
  handler. It keeps profile links, reads the username and display name,
  cleans the snippet, drops invalid usernames and cuts the list.
- `api.dfy`, module `Api`: the client functions `searchGoogle`,
  `searchInstagram`, `searchLinkedIn`, `isBlacklisted` and the client
  `scrapeWebsite`. Each HTTP call is an input to the model.
- `leadgenerator.dfy`, module `LeadList`: the `LeadGenerator` component
  as a class. Its state hooks and the stored blacklist are fields, and
  its four handlers are methods.

Where the behaviour depends on the environment, the model takes that
behaviour as a parameter:

- network replies are a sequence of transport results;
- the HTML parser is a function from body text to a `Document`;
- the client's scrape call is a function from URL to reply;
- the result of each search call is an input to `HandleSearch`;
- the blacklist in the browser's storage is a list.

The model follows the code. The server's Instagram profiles carry a
`name` field, but the client reads `full_name`. So a lead's display name
is always its username, which `Api.InstagramEndToEnd` proves; see
Findings below. The scrape endpoint never sends a `companyName`, so the
`websiteData.companyName` fallback of `searchGoogle` is modelled but only
takes effect when a reply carries one.

## Model

| member | source | states |
|---|---|---|
| Js.Normalize | server.js:155 | `replace(/\s+/g, ' ').trim()` leaves no white space at either end. The only white space it leaves is single plain spaces. It keeps a leading non-space character. |
| Js.NormalizeWord | server.js:155 | A text without white space is left unchanged. |
| Js.NormalizeJoin | server.js:155 | Two words that start and end visibly, joined by any run of white space, normalize to their normal forms joined by one space. |
| Js.NormalizeSurround | server.js:155 | White space before and after a word that starts and ends visibly is dropped. |
| Js.NormalizeBlank | server.js:155 | A text made only of white space normalizes to "". |
| Js.Trim | server.js:141 | `trim()` gives an infix of the text that neither starts nor ends with white space; `Js.TrimDrops` adds that everything cut off before and after it is white space. |
| Js.CollapseSpaces | server.js:155 | `replace(/\s+/g, ' ')` is empty exactly when the text is, and starts with a space exactly when the text starts with white space, else with the text's first character. |
| Js.ToLowerAscii | server.js:156 | Lower-casing keeps the length, leaves no upper-case ASCII letter, and changes each character only by mapping an upper-case letter to its lower-case form. |
| Js.SplitHead | server.js:146 | `split(sep)[0]` is the prefix before the first `sep`, or the whole text when there is no `sep`. It is shorter than the text exactly when the text contains `sep`. |
| Js.SplitSecond | server.js:144-145 | `split(keyword)[1]` is defined exactly when the text contains the keyword. It is the text between the first occurrence and the second occurrence (or the end), and holds no occurrence itself. |
| Js.Includes | server.js:143 | `includes(pat)`; what it means is stated by `Js.IncludesExactly`. |
| Js.IncludesExactly | server.js:143 | `includes(pat)` holds exactly when the pattern occurs at some position of the text. |
| Js.ReplaceFirst | server.js:104 | `replace('tel:', '')` with a string pattern changes only the first occurrence: at the first position where the pattern occurs, it is replaced and the text around it is kept. A text without the pattern is unchanged, and a leading pattern is dropped. |
| Js.SliceTo | src/services/api.js:25 | `slice(0, n)` is a prefix of length `min(n, length)`; a negative `n` counts from the end. |
| Js.Filter | src/services/api.js:76 | `filter(p)` keeps, in order, a subsequence of the list, all of whose elements pass, and every passing element is in it. |
| Js.FilterCount | src/services/api.js:76 | `filter(p)` keeps each passing element exactly as often as it occurs in the list, and no element that fails. |
| Patterns.FirstPhoneMatch | server.js:92-98 | `text.match(phoneRegex)[0]` as a range: a match found at or after `from` lies within the text. |
| Patterns.ContainsPhone | server.js:105 | `phoneRegex.test(s)`: some phone match exists. |
| Patterns.FirstPhoneMatchIsLeftmostLongest | server.js:92-98 | The first phone match starts at the leftmost position where some infix is in the pattern's language, and it is the longest such infix there. There is no match exactly when no infix is in the language. |
| Patterns.PhoneMatchAtIsLongest | server.js:92 | At a given start, the alternative order and the greedy runs give a phone token, and no longer token starts there. If the matcher fails there, no token starts there. |
| Patterns.PhoneTokenWithinMatch | server.js:92 | Every phone token starting at a position ends within the match made at that position. |
| Patterns.PhoneTokenShape | server.js:92 | A phone match has at least 7 characters. It starts with `+` or a digit, contains a digit, and after its first character holds only digits, spaces, dots and hyphens. |
| Patterns.LastDot | server.js:114 | Backtracking the greedy domain run stops at the last dot that is followed by two or more letters; there is none exactly when no such dot exists. |
| Patterns.FirstEmailMatchIsLeftmostLongest | server.js:114-120 | The first email match is the leftmost infix in the email pattern's language, and the longest one at its start. There is none exactly when no infix is in the language. |
| Patterns.FirstEmailMatch | server.js:114-120 | `text.match(emailRegex)[0]` as a range: a match found at or after `from` lies within the text. |
| Patterns.ContainsEmail | server.js:127 | `emailRegex.test(s)`: some email match exists. |
| Patterns.EmailMatchAtIsLongest | server.js:114 | At a given start, the greedy local part and the backtracked domain give an email token, and no longer token starts there. |
| Patterns.EmailTokenWithinMatch | server.js:114 | Every email token starting at a position ends within the match made there. |
| Patterns.EmailTokenShape | server.js:114 | An email match has exactly one `@` that is not its first character, and a final `.` followed only by two or more letters. |
| Fetch.Classify | server.js:21-26 | The shared client resolves exactly for statuses 200..499 and keeps their status and body. Other statuses and network errors are rejected. |
| Fetch.RequestFor | server.js:55-61 | Every attempt has a 15000 ms timeout and at most 5 redirects. It sends the full browser header set exactly on attempt 1. |
| Fetch.HeaderList | server.js:38-58 | The full header set is the six default headers. Later attempts send only its `User-Agent` entry. |
| Fetch.LastReturned | server.js:47-63 | Names the most recent attempt that returned a response; every later attempt threw. None means every attempt threw. |
| Fetch.LastResponse | server.js:47-63 | The loop's `response`: when set, it is an attempt that returned a response. `Fetch.AttemptStep` and `Fetch.KeptAreLast` state that it is the most recent such attempt. |
| Fetch.LastError | server.js:48-73 | The loop's `error`; `Fetch.AttemptStep` and `Fetch.KeptAreLast` state that it is the message of the most recent attempt that threw. |
| Fetch.AttemptStep | server.js:63-74 | Each attempt overwrites the kept response if it returned one, and otherwise the kept error. |
| Fetch.KeptAreLast | server.js:47-74 | After the loop, the kept response and error are those of the most recent attempt that returned and the most recent attempt that threw. |
| Fetch.ExhaustedError | server.js:80-86 | After three attempts without status 200, the code after the loop raises exactly `FinalError`. |
| Fetch.AllThrownRaisesLast | server.js:74-82 | When every attempt throws, the third attempt's error is raised again. |
| Fetch.StaleResponseNamesStatus | server.js:63-86 | A response outlives later thrown attempts: the error names that response's status, not the later errors. |
| Fetch.FinalError | server.js:80-86 | The error after three failed attempts names the status of the most recent response. Only when no attempt returned is the last thrown error raised again. |
| Fetch.Settle | server.js:80-86 | After the loop: the kept error when no response was kept, a generic error naming a kept status other than 200, else the body. |
| Fetch.RetryLoop | server.js:51-78 | Attempt k sends `RequestFor(k)`. The loop stops at the first status 200 and makes at most 3 attempts. After a failure it waits 1000·k ms. When nothing succeeds, it keeps the last response and the last error. |
| Fetch.FetchPage | server.js:47-86 | The page is returned exactly when the last attempt made got status 200; no earlier attempt did. Otherwise the error is `FinalError` of the three outcomes. The requests and delays are as in `RetryLoop`. A failed fetch made three attempts and waited 1000, 2000 and 3000 ms. |
| Extraction.FirstValue | server.js:101-110 | The scan yields the first defined value in order, and none exactly when no element has one. |
| Extraction.TelValue | server.js:101-108 | A `tel:` link's value: the `href` without its first `tel:`, trimmed, when it contains a phone match. `Extraction.LinkPhone` states the phone it gives. |
| Extraction.MailtoValue | server.js:123-130 | A `mailto:` link's value: the `href` without its first `mailto:`, trimmed, when it contains an email match. `Extraction.FindEmail` is proved to take the first one. |
| Extraction.FindPhone | server.js:93-111 | The phone before clean-up is the first body-text match, else the first `tel:` link whose cleaned value matches. |
| Extraction.FindEmail | server.js:115-133 | The email before clean-up is the first body-text match, else the first `mailto:` link whose cleaned value matches. |
| Extraction.OwnerCandidate | server.js:143-148 | One keyword's owner, "" without the keyword; what it is, is stated by `OwnerCandidateCut`. |
| Extraction.OwnerCandidateCut | server.js:143-148 | Without the keyword the owner is "". With it, take the line after the keyword's first occurrence, up to the next occurrence and the first line break. The owner is that line minus its leading `:`, `\|` and white space and minus its trailing white space. It neither starts with `:`, `\|` or white space nor ends with white space. |
| Extraction.OwnerFor | server.js:143-148 | The step for one keyword computes `OwnerCandidate`, whose content `OwnerCandidateCut` states. |
| Extraction.OwnerInText | server.js:142-150 | The first non-empty keyword candidate in list order. `Extraction.FindOwnerInText` is proved to compute it, and `Extraction.OwnerInTextLead` that it never starts with `:`, `\|` or white space. |
| Extraction.OwnerAmong | server.js:140-152 | The first non-empty owner over the trimmed element texts in document order. `Extraction.FindOwner` is proved to compute it, and `Extraction.OwnerAmongLead` that it never starts with `:`, `\|` or white space. |
| Extraction.FindOwnerInText | server.js:142-151 | The keywords are tried in list order; the first non-empty owner wins. |
| Extraction.FindOwner | server.js:140-152 | The elements' trimmed texts are scanned in document order; the scan ends at the first non-empty owner. |
| Extraction.ContactSpec | server.js:88-163 | The contact data of a page: phone and owner with white space normalized, email lower-cased and trimmed, all empty for a page the parser rejects. |
| Extraction.ExtractContactInfo | server.js:88-163 | The extracted contact data equals `ContactSpec`: the raw phone, email and owner, with the phone and owner normalized and the email lower-cased and trimmed. An unparseable page gives empty fields. |
| Extraction.BodyPhone | server.js:92-98 | A body-text phone is the leftmost, longest phone token, normalized. |
| Extraction.BodyPhoneShape | server.js:92-98 | Such a phone starts with `+` or a digit and otherwise holds only digits, spaces, dots and hyphens. |
| Extraction.NormalizedPhoneShape | server.js:155 | Normalizing a phone token keeps its leading `+` or digit and its character class. |
| Extraction.NormalizeKeepsHead | server.js:155 | Normalizing keeps a visible first character. Every later character is a space or comes from the tail. |
| Extraction.LinkPhone | server.js:100-111 | With no phone in the body text, the phone is the first matching `tel:` link without its `tel:`, trimmed and normalized. |
| Extraction.BodyEmail | server.js:114-120 | A body-text email is the leftmost, longest email token, lower-cased. |
| Extraction.EmailKeepsEnds | server.js:156 | The `trim()` after lower-casing never changes an email match. |
| Extraction.OwnerShape | server.js:146-157 | On a parsed page, an owner that is not empty has no line break and no surrounding white space, and does not start with `:` or `\|`. |
| Extraction.UnparseableIsEmpty | server.js:160-163 | A page the parser rejects yields empty phone, email and owner, not an error. |
| Extraction.ScrapeWebsite | server.js:37-164 | Attempt k sends `RequestFor(k)`, and no attempt before the last got status 200; fewer than three attempts means the last got 200. The scrape succeeds exactly when the last attempt got status 200, and then yields `ContactSpec` of the parsed body, after delays of 1000 × k ms for each earlier attempt. Otherwise it fails with `FinalError`, after three attempts and delays of 1000, 2000 and 3000 ms. |
| InstagramShaping.RequestedResults | server.js:234 | The provider is asked for three times the requested count, capped at 100. |
| InstagramShaping.RequestFor | server.js:236-243 | The query is prefixed with `site:instagram.com `, and `num` is the requested-results count. |
| InstagramShaping.UsernameOf | server.js:264 | A username never contains `/`. |
| InstagramShaping.IsProfileLink | server.js:254-262 | A link is kept when it contains `instagram.com/` and none of `/p/`, `/explore/`, `/tags/`, `/reels/`, `/stories/`. |
| InstagramShaping.DisplayName | server.js:265 | The title before the first ` • `, or the username when that is empty. |
| InstagramShaping.Biography | server.js:267-274 | The snippet from its first ASCII letter, white space normalized; "" without a snippet. |
| InstagramShaping.ToProfile | server.js:262-282 | One result's profile: the username from the link, the display name, the biography, the link and the thumbnail or null. `InstagramShaping.ShapedProfilesValid` states what every shaped profile holds. |
| InstagramShaping.IsValidProfile | server.js:284-292 | A username of more than one character, without `?` or `#`, and not `p` or `explore`. |
| InstagramShaping.Candidates | server.js:251-292 | The valid profiles of the profile links, in result order, before the cut. `InstagramShaping.ShapedProfilesComplete` states that the cut keeps their first `numResults`. |
| InstagramShaping.ShapeProfiles | server.js:252-293 | The filter, map, filter and slice chain; no profiles without organic results. |
| InstagramShaping.SearchInstagramRoute | server.js:229-299 | The handler answers status 500 with "Failed to search Instagram" exactly when the provider call fails. |
| InstagramShaping.RouteEmptyCases | server.js:247-249 | A reply without organic results gives an empty profile list. A failed call gives status 500. |
| InstagramShaping.ShapedBound | server.js:252-293 | At most `numResults` profiles are returned, and no more than the provider's results. |
| InstagramShaping.ShapedProfilesValid | server.js:253-292 | Every profile sent comes from a profile link, has the username read from that link, passes the validity filter, and has a display name. |
| InstagramShaping.ShapedProfilesInOrder | server.js:252-293 | The profiles keep the order of the results they come from. |
| InstagramShaping.ShapedProfilesComplete | server.js:284-293 | Only the final cut drops valid profiles: the first `numResults` valid profiles are sent. |
| InstagramShaping.UsernameRoundTrip | server.js:264 | A slash-free username written into `https://www.instagram.com/u/` is read back unchanged. |
| InstagramShaping.DisplayNameChoice | server.js:265 | The display name is the username when the title's part before ` • ` is empty. Otherwise it is that part: a prefix of the title in which no ` • ` starts, followed in the title by ` • ` unless it is the whole title. So it ends at the first separator. |
| InstagramShaping.BiographyShape | server.js:268-274 | A biography starts with a letter, has no white space at its end, and its only white space is single plain spaces. |
| InstagramShaping.BiographyText | server.js:268-274 | The biography is the snippet from its first ASCII letter on, normalized: no letter comes before that point, the biography starts with that letter, and it is "" when the snippet has no letter. |
| Api.ScrapeWebsite | src/services/api.js:130-144 | An empty URL, a failed call or an empty body gives `{}`; otherwise it gives the body. It never fails. |
| Api.ProcessAll | src/services/api.js:27-52 | Every result is merged with its scraped data, one lead per result, in order. |
| Api.WebsiteData | src/services/api.js:29-36 | The scraped data of a result, or none without a website. `Api.NoWebsiteNoScrape` states that a result without a website is never scraped. |
| Api.ProcessResult | src/services/api.js:28-50 | One result merged with its scraped data. `Api.SearchDataWins`, `Api.ScrapedDataFills` and `Api.FailedScrapeKeepsLead` state its fields. |
| Api.SearchGoogle | src/services/api.js:11-59 | A failed call, or a body without `local_results`, gives no leads. |
| Api.GoogleLeads | src/services/api.js:25-54 | At most `numResults` results are used, in order. Every lead is a Google lead with a non-empty company name, and its name is that company name. |
| Api.GoogleLeadsComplete | src/services/api.js:25-54 | Every processed result that has a company name is returned. |
| Api.SearchDataWins | src/services/api.js:38-49 | The search data's title and phone win over scraped data. Address, website, rating and reviews are the search result's, whatever was scraped. Email and owner come from the scrape. |
| Api.MergeLead | src/services/api.js:38-50 | One lead from a search result and its scraped data, each field taking the first non-empty value. |
| Api.ScrapedDataFills | src/services/api.js:38-44 | A missing title or phone is filled from the scraped data. |
| Api.NoWebsiteNoScrape | src/services/api.js:29-36 | A result without a website is not scraped. |
| Api.FailedScrapeKeepsLead | src/services/api.js:29-36 | A failed scrape still yields the lead, built from the search data alone. |
| Api.SearchInstagram | src/services/api.js:61-92 | A failed call, or a body without `instagram_profiles`, gives no leads. Every lead is an Instagram lead. |
| Api.InstagramLeads | src/services/api.js:75-87 | Each lead comes from a profile with a username, which is its company name. Its name is `full_name`, or the username when that is missing. |
| Api.InstagramLeadsComplete | src/services/api.js:75-87 | Every profile with a username yields a lead. |
| Api.InstagramLeadsInOrder | src/services/api.js:75-87 | The leads are those of the profiles with a username, in the profiles' order, each as often as it occurs: a subsequence of the profiles that holds every profile with a username as often as the profiles do, and no other. |
| Api.ToInstagramLead | src/services/api.js:77-87 | One profile's lead; `Api.InstagramLeads` states its company name and name. |
| Api.Followers | src/services/api.js:84 | The follower count is the number the digits of the text form, 0 without digits. |
| Api.FollowersOfDecimal | src/services/api.js:84 | The follower count of a number's decimal text is that number. |
| Api.FollowersSkipSeparator | src/services/api.js:84 | Non-digit separators do not change the follower count. |
| Api.FollowersWithoutDigits | src/services/api.js:84 | Text without digits counts 0 followers. |
| Api.InstagramEndToEnd | src/services/api.js:75-84 | Through server and client, every shaped profile becomes a lead, in order, named by its username. Each lead counts 0 followers. |
| Api.ClientKeepsShaped | src/services/api.js:75-84 | Profiles that all have a username reach the client whole and in order. |
| Api.DisplayNameReachesClient | src/services/api.js:79 | With the server's `name` read as the full name, every lead's name is the display name the server derived. |
| Api.IsBlacklisted | src/services/api.js:6-9 | A lead is blacklisted when some entry has the same company name. |
| Api.NotBlacklisted | src/services/api.js:118-120 | No lead kept shares a company name with a blacklist entry. |
| Api.SearchLinkedIn | src/services/api.js:94-128 | A failed call is rethrown, and a body without `organic_results` throws "No LinkedIn results found". |
| Api.LinkedInSkipsBlacklisted | src/services/api.js:107-121 | No returned lead has the company name of any blacklist entry. |
| Api.LinkedInFilterBeforeCut | src/services/api.js:107-121 | The blacklist is applied before the cut. Exactly `min(count, non-blacklisted)` leads are returned: the first ones, in order. |
| Api.CompanyNameShape | src/services/api.js:109 | The company name holds no `\|` and has no surrounding white space. It is the title's text before the first `\|`, trimmed: it is a slice of that text, and everything in that text before and after it is white space. |
| Api.CompanyNameWithoutBar | src/services/api.js:109 | A title without `\|` gives its own trimmed text. |
| Api.CompanyNameOf | src/services/api.js:109 | `title.split('\|')[0].trim()`; `Api.CompanyNameShape` states its content. |
| Api.ToLinkedInLead | src/services/api.js:108-118 | One LinkedIn lead, with the company name of its title and its link. `Api.LinkedInSkipsBlacklisted` and `Api.LinkedInFilterBeforeCut` state which leads are kept. |
| LeadList.Selected | src/components/LeadGenerator.js:35-40 | The search awaited is Google's or Instagram's by source; any other source gives no results. |
| LeadList.Scheduled | src/components/LeadGenerator.js:42-45 | A scheduled lead has status `not-scheduled` and is otherwise the lead unchanged. |
| LeadList.ScheduleAll | src/components/LeadGenerator.js:42-45 | Makes one new lead object per result, in order, each scheduled. |
| LeadList.Without | src/components/LeadGenerator.js:55 | Deleting keeps exactly the entries that are not the deleted object, in order. |
| LeadList.WithoutAbsent | src/components/LeadGenerator.js:55 | Deleting an object not in the list changes nothing. |
| LeadList.WithoutIdempotent | src/components/LeadGenerator.js:55 | Deleting twice is deleting once. |
| LeadList.WithoutCount | src/components/LeadGenerator.js:55 | Deleting removes one entry per copy of the object. |
| LeadList.LeadGenerator.constructor | src/components/LeadGenerator.js:18-23 | The initial state: empty query, source `google`, 10 results, no leads, not loading, no error. |
| LeadList.LeadGenerator.HandleSearch | src/components/LeadGenerator.js:25-52 | A blank query only sets the error. Otherwise the selected source's leads replace the list, each scheduled; a failure sets the error and keeps the list. Loading ends off. |
| LeadList.LeadGenerator.HandleDelete | src/components/LeadGenerator.js:54-56 | The list loses exactly the deleted object. Nothing else changes. |
| LeadList.LeadGenerator.HandleBlacklist | src/components/LeadGenerator.js:58-66 | The lead is appended to the blacklist, then deleted from the list. |
| LeadList.LeadGenerator.HandleStatusChange | src/components/LeadGenerator.js:68-75 | Entry `index` becomes a new object with the new status. Every other entry is the same object. |
| LeadList.BlacklistedNotFoundAgain | src/components/LeadGenerator.js:58-62 | After a lead is blacklisted, a LinkedIn search with the updated blacklist never returns its company again. |

## Left out

- HTTP, TLS and the proxy's transport: every call is an input. The
  agent settings (`rejectUnauthorized`, `keepAlive`) and the client's
  30-second timeout are left out, since they only affect the network.
- Waiting: the back-off delays are recorded as a sequence of
  milliseconds, and no time passes.
- The HTML parser: a page is its body text, the `href` of each anchor
  that has one, and each element's text, in document order. The
  `a[href^="tel:"]` and `a[href^="mailto:"]` selectors are a prefix test
  on those hrefs. The parser's own rules are not modelled.
- Unicode case mapping: `toLowerCase` is modelled on ASCII letters only;
  other characters are kept.
- Extraction.ExtractContactInfo: an exception raised by the extraction
  code itself (not by the parser) is not modelled; the parser's rejection
  stands for the `catch` at server.js:160-163.
- Api.Followers: `parseInt` of a very long digit string loses precision
  as a floating-point number. The model gives the exact value.
- InstagramShaping.RequestedResults: `parseInt(numResults)` of a
  non-numeric query parameter is `NaN`, which the model does not
  represent. The count is an integer.
- Concurrency: the scrapes run concurrently under `Promise.all`. The
  model processes them in order, which gives the same result because
  each is independent.
- Storage: the blacklist in the browser's storage is a list field. Its
  JSON encoding is not modelled.
- The other proxy routes are not part of this model: `/api/scrape`
  (server.js:166-195), the Google proxy (server.js:201-226), and the
  LinkedIn route the client calls. Their replies are inputs.
- Logging is not modelled.
- The page's form handling, the rendering and `LeadTable` are not part of
  this model; `numResults` is taken as the integer the form holds.
- LeadList.LeadGenerator.HandleSearch: the `loading` flag is set during
  the search, but only its final value is stated. The search functions
  never reject, so the `catch` branch is only reachable through the
  `Threw` outcome given as input.
- LeadList.LeadGenerator.HandleStatusChange: requires an index within the
  list. JavaScript would extend the array for an index past its end.
- Api.ScrapeWebsite: the scrape reply depends on the URL only, so two
  leads with the same website get the same data.
- Api.MergeLead: rating and review counts are text in the model. The
  client's `result.rating || ''` turns a numeric 0 rating or review count
  into ''. The model does not represent numbers there, so it keeps the
  text as given and does not model that case.
- InstagramShaping.IsValidProfile: `username.length > 1` counts UTF-16
  code units, and the model counts characters. The two differ only for
  characters outside the Basic Multilingual Plane.

## Findings

| source | as written | input that shows it | evidently intended | confidence | as-written member | corrected member |
|---|---|---|---|---|---|---|
| src/services/api.js:79 | The client reads `profile.full_name`, but the server's profiles (server.js:276-282) carry the display name in `name` and have no `full_name`. | Any Instagram result whose title is "Jane Doe • Photos", with username `jane`: the lead's name is `jane`, not "Jane Doe". | The lead's name is the display name the server derived from the title. | high; not executed | Api.InstagramEndToEnd | Api.DisplayNameReachesClient |
