/** The extraction stage of `scrapeWebsite` (server.js): phone, email and
    owner heuristics over a parsed page, and the whole scrape (fetch, then
    extract). The markup parser is abstracted: a page is its body text, the
    `href` of every anchor that has one, and the text of every element, all
    in document order; a document the parser rejects is `Unparseable`. */
module Extraction {
  import opened Js
  import opened Patterns
  import Fetch

  datatype Page = Page(bodyText: string, anchorHrefs: seq<string>, elementTexts: seq<string>)

  datatype Document = Unparseable | Parsed(page: Page)

  datatype ContactInfo = ContactInfo(phone: string, email: string, owner: string)

  const NoContact := ContactInfo("", "", "")

  const OwnerKeywords: seq<string> := ["Inhaber", "Gesch\U{E4}ftsf\U{FC}hrer", "Betreiber", "CEO", "Owner", "Founder"]

  lemma KeywordsNonEmpty()
    ensures forall k :: 0 <= k < |OwnerKeywords| ==> OwnerKeywords[k] != []
  {
    forall k | 0 <= k < |OwnerKeywords|
      ensures OwnerKeywords[k] != []
    {
      assert |OwnerKeywords[k]| > 0;
    }
  }

  // ---------------------------------------------------------------------
  // Specification

  /** The value of a `tel:` link when it holds a phone number: the `href`
      with its first `tel:` removed, trimmed. */
  function TelValue(href: string): Option<string> {
    if StartsWith(href, "tel:") then
      var cleaned := Trim(ReplaceFirst(href, "tel:", ""));
      if ContainsPhone(cleaned) then Some(cleaned) else None
    else None
  }

  /** The value of a `mailto:` link when it holds an email address. */
  function MailtoValue(href: string): Option<string> {
    if StartsWith(href, "mailto:") then
      var cleaned := Trim(ReplaceFirst(href, "mailto:", ""));
      if ContainsEmail(cleaned) then Some(cleaned) else None
    else None
  }

  /** The first defined value of `f` over `xs`. */
  function FirstValue(xs: seq<string>, f: string -> Option<string>): (r: Option<string>)
    ensures r.None? <==> forall k :: 0 <= k < |xs| ==> f(xs[k]).None?
    ensures r.Some? ==> exists k :: 0 <= k < |xs| && f(xs[k]) == r && forall j :: 0 <= j < k ==> f(xs[j]).None?
  {
    if xs == [] then None
    else if f(xs[0]).Some? then f(xs[0])
    else
      var r := FirstValue(xs[1..], f);
      assert forall k :: 1 <= k < |xs| ==> xs[k] == xs[1..][k - 1];
      r
  }

  /** The phone number before clean-up: the first phone match in the body
      text, else the value of the first `tel:` link holding one. */
  function RawPhone(p: Page): string {
    match FirstPhoneMatch(p.bodyText, 0)
    case Some(m) => p.bodyText[m.0..m.1]
    case None => FirstValue(p.anchorHrefs, TelValue).GetOr("")
  }

  function RawEmail(p: Page): string {
    match FirstEmailMatch(p.bodyText, 0)
    case Some(m) => p.bodyText[m.0..m.1]
    case None => FirstValue(p.anchorHrefs, MailtoValue).GetOr("")
  }

  /** The characters stripped in front of an owner name. */
  predicate IsOwnerLead(c: char) {
    c == ':' || c == '|' || IsSpace(c)
  }

  /** The owner named by `keyword` in an element's trimmed text: the text
      between the keyword's first and second occurrences, up to the first
      line break, trimmed and without leading colons, bars and spaces; ""
      when there is none. */
  function OwnerCandidate(text: string, keyword: string): string
    requires keyword != []
  {
    if Includes(text, keyword) then
      var part := SplitSecond(text, keyword).value;
      if part == [] then ""
      else Trim(DropWhile(Trim(SplitHead(part, "\n")), IsOwnerLead))
    else ""
  }

  /** The first non-empty candidate over the keywords, in list order. */
  function OwnerInText(text: string, keywords: seq<string>): string
    requires forall k :: 0 <= k < |keywords| ==> keywords[k] != []
  {
    if keywords == [] then ""
    else
      var o := OwnerCandidate(text, keywords[0]);
      if o != "" then o else OwnerInText(text, keywords[1..])
  }

  /** The first non-empty owner found over the elements, in document order. */
  function OwnerAmong(texts: seq<string>, keywords: seq<string>): string
    requires forall k :: 0 <= k < |keywords| ==> keywords[k] != []
  {
    if texts == [] then ""
    else
      var o := OwnerInText(Trim(texts[0]), keywords);
      if o != "" then o else OwnerAmong(texts[1..], keywords)
  }

  /** What extraction yields for a document. */
  function ContactSpec(doc: Document): ContactInfo {
    match doc
    case Unparseable => NoContact
    case Parsed(p) =>
      KeywordsNonEmpty();
      ContactInfo(Normalize(RawPhone(p)), Trim(ToLowerAscii(RawEmail(p))), Normalize(OwnerAmong(p.elementTexts, OwnerKeywords)))
  }

  // ---------------------------------------------------------------------
  // The extraction code

  /** Extraction as the scraper runs it: mutable `phone`, `email` and
      `owner`, each found by a scan that stops at the first hit, then
      cleaned up. */
  method ExtractContactInfo(doc: Document) returns (info: ContactInfo)
    ensures info == ContactSpec(doc)
  {
    if doc.Unparseable? {
      return NoContact;
    }
    var phone := FindPhone(doc.page);
    var email := FindEmail(doc.page);
    KeywordsNonEmpty();
    var owner := FindOwner(doc.page.elementTexts, OwnerKeywords);
    phone := Normalize(phone);
    email := Trim(ToLowerAscii(email));
    owner := Normalize(owner);
    info := ContactInfo(phone, email, owner);
  }

  /** The first phone match in the body text, else a scan of the `tel:`
      links that stops at the first one holding a phone number. */
  method FindPhone(page: Page) returns (phone: string)
    ensures phone == RawPhone(page)
  {
    var hrefs := page.anchorHrefs;
    phone := "";
    var found := FirstPhoneMatch(page.bodyText, 0);
    if found.Some? {
      phone := page.bodyText[found.value.0..found.value.1];
    }
    if phone == "" {
      var i := 0;
      while i < |hrefs|
        invariant 0 <= i <= |hrefs| && phone == ""
        invariant FirstValue(hrefs, TelValue) == FirstValue(hrefs[i..], TelValue)
      {
        assert hrefs[i..][1..] == hrefs[i + 1..];
        var href := hrefs[i];
        if StartsWith(href, "tel:") && href != "" {
          var cleaned := Trim(ReplaceFirst(href, "tel:", ""));
          if ContainsPhone(cleaned) {
            phone := cleaned;
            break;
          }
        }
        i := i + 1;
      }
    }
  }

  /** The first email match in the body text, else a scan of the `mailto:`
      links that stops at the first one holding an address. */
  method FindEmail(page: Page) returns (email: string)
    ensures email == RawEmail(page)
  {
    var hrefs := page.anchorHrefs;
    email := "";
    var found := FirstEmailMatch(page.bodyText, 0);
    if found.Some? {
      email := page.bodyText[found.value.0..found.value.1];
    }
    if email == "" {
      var i := 0;
      while i < |hrefs|
        invariant 0 <= i <= |hrefs| && email == ""
        invariant FirstValue(hrefs, MailtoValue) == FirstValue(hrefs[i..], MailtoValue)
      {
        assert hrefs[i..][1..] == hrefs[i + 1..];
        var href := hrefs[i];
        if StartsWith(href, "mailto:") && href != "" {
          var cleaned := Trim(ReplaceFirst(href, "mailto:", ""));
          if ContainsEmail(cleaned) {
            email := cleaned;
            break;
          }
        }
        i := i + 1;
      }
    }
  }

  /** Every element's trimmed text in document order; the scan ends at
      the first non-empty owner. */
  method FindOwner(texts: seq<string>, keywords: seq<string>) returns (owner: string)
    requires forall k :: 0 <= k < |keywords| ==> keywords[k] != []
    ensures owner == OwnerAmong(texts, keywords)
  {
    owner := "";
    var e := 0;
    while e < |texts|
      invariant 0 <= e <= |texts| && owner == ""
      invariant OwnerAmong(texts, keywords) == OwnerAmong(texts[e..], keywords)
    {
      assert texts[e..][1..] == texts[e + 1..];
      owner := FindOwnerInText(Trim(texts[e]), keywords);
      if owner != "" {
        return;
      }
      e := e + 1;
    }
  }

  /** The keywords in list order over one element's text; the scan ends at
      the first keyword that yields a non-empty owner. */
  method FindOwnerInText(text: string, keywords: seq<string>) returns (owner: string)
    requires forall k :: 0 <= k < |keywords| ==> keywords[k] != []
    ensures owner == OwnerInText(text, keywords)
  {
    owner := "";
    var k := 0;
    while k < |keywords|
      invariant 0 <= k <= |keywords| && owner == ""
      invariant OwnerInText(text, keywords) == OwnerInText(text, keywords[k..])
    {
      assert keywords[k..][1..] == keywords[k + 1..];
      owner := OwnerFor(text, keywords[k]);
      if owner != "" {
        return;
      }
      k := k + 1;
    }
  }

  /** One keyword's step: split on the keyword, cut at the line break,
      trim, strip leading colons, bars and spaces, trim again. */
  method OwnerFor(text: string, keyword: string) returns (owner: string)
    requires keyword != []
    ensures owner == OwnerCandidate(text, keyword)
  {
    owner := "";
    if Includes(text, keyword) {
      var parts1 := SplitSecond(text, keyword).value;
      if parts1 != "" {
        owner := Trim(SplitHead(parts1, "\n"));
        owner := Trim(DropWhile(owner, IsOwnerLead));
      }
    }
  }

  // ---------------------------------------------------------------------
  // Properties of the specification

  /** A phone number found in the body text is the leftmost match of the
      phone pattern, the longest one there, with white space collapsed. */
  lemma BodyPhone(p: Page)
    requires FirstPhoneMatch(p.bodyText, 0).Some?
    ensures var m := FirstPhoneMatch(p.bodyText, 0).value;
      && IsPhoneToken(p.bodyText[m.0..m.1])
      && ContactSpec(Parsed(p)).phone == Normalize(p.bodyText[m.0..m.1])
      && (forall k :: m.1 < k <= |p.bodyText| ==> !IsPhoneToken(p.bodyText[m.0..k]))
      && (forall j, k :: 0 <= j < k <= |p.bodyText| && j < m.0 ==> !IsPhoneToken(p.bodyText[j..k]))
  {
    FirstPhoneMatchIsLeftmostLongest(p.bodyText, 0);
  }

  /** Such a phone number starts with `+` or a digit and holds only digits,
      spaces, dots and hyphens after that. */
  lemma BodyPhoneShape(p: Page)
    requires FirstPhoneMatch(p.bodyText, 0).Some?
    ensures var phone := ContactSpec(Parsed(p)).phone;
      && phone != [] && (phone[0] == '+' || IsDigit(phone[0]))
      && forall k :: 1 <= k < |phone| ==> InPhoneClass(phone[k])
  {
    BodyPhone(p);
    var m := FirstPhoneMatch(p.bodyText, 0).value;
    NormalizedPhoneShape(p.bodyText[m.0..m.1]);
  }

  lemma NormalizedPhoneShape(t: string)
    requires IsPhoneToken(t)
    ensures var n := Normalize(t);
      && n != [] && (n[0] == '+' || IsDigit(n[0]))
      && forall k :: 1 <= k < |n| ==> InPhoneClass(n[k])
  {
    PhoneTokenShape(t);
    NormalizeKeepsHead(t);
    var n := Normalize(t);
    forall k | 1 <= k < |n|
      ensures InPhoneClass(n[k])
    {
      if n[k] != ' ' {
        var j :| 0 <= j < |t[1..]| && t[1..][j] == n[k];
        assert InPhoneClass(t[j + 1]);
      }
    }
  }

  /** Normalizing a text that starts with a visible character keeps that
      character first; the rest comes from the text's tail or is a space. */
  lemma NormalizeKeepsHead(t: string)
    requires t != [] && !IsSpace(t[0])
    ensures var n := Normalize(t);
      n != [] && n[0] == t[0] && forall k :: 1 <= k < |n| ==> n[k] == ' ' || n[k] in t[1..]
  {
    var c := CollapseSpaces(t);
    assert c == [t[0]] + CollapseSpaces(t[1..]);
    CollapsedChars(t[1..]);
    assert TrimStart(c) == c;
    var n := Normalize(t);
    assert n == TrimEnd(c) == c[..|n|];
    forall k | 1 <= k < |n|
      ensures n[k] == ' ' || n[k] in t[1..]
    {
      assert n[k] == CollapseSpaces(t[1..])[k - 1];
    }
  }

  /** Without a phone number in the body text, the phone comes from the
      first `tel:` link whose cleaned value holds one, taken whole. */
  lemma LinkPhone(p: Page, i: nat)
    requires FirstPhoneMatch(p.bodyText, 0).None?
    requires i < |p.anchorHrefs| && TelValue(p.anchorHrefs[i]).Some?
    requires forall j :: 0 <= j < i ==> TelValue(p.anchorHrefs[j]).None?
    ensures ContactSpec(Parsed(p)).phone == Normalize(Trim(p.anchorHrefs[i][4..]))
  {
    FirstValueAt(p.anchorHrefs, TelValue, i);
    var href := p.anchorHrefs[i];
    assert ReplaceFirst(href, "tel:", "") == href[4..];
  }

  lemma {:induction false} FirstValueAt(xs: seq<string>, f: string -> Option<string>, i: nat)
    requires i < |xs| && f(xs[i]).Some?
    requires forall j :: 0 <= j < i ==> f(xs[j]).None?
    ensures FirstValue(xs, f) == f(xs[i])
  {
    if i > 0 {
      FirstValueAt(xs[1..], f, i - 1);
    }
  }

  /** An email found in the body text is the leftmost, longest match of the
      email pattern, lower-cased: it holds exactly one `@`, ends in a dot and
      at least two letters, and has no upper-case letter. */
  lemma BodyEmail(p: Page)
    requires FirstEmailMatch(p.bodyText, 0).Some?
    ensures var m := FirstEmailMatch(p.bodyText, 0).value;
      && IsEmailToken(p.bodyText[m.0..m.1])
      && ContactSpec(Parsed(p)).email == ToLowerAscii(p.bodyText[m.0..m.1])
  {
    FirstEmailMatchIsLeftmostLongest(p.bodyText, 0);
    var m := FirstEmailMatch(p.bodyText, 0).value;
    var t := p.bodyText[m.0..m.1];
    EmailKeepsEnds(t);
  }

  /** An email match has no white space at either end, so only the case
      change alters it. */
  lemma EmailKeepsEnds(t: string)
    requires IsEmailToken(t)
    ensures Trim(ToLowerAscii(t)) == ToLowerAscii(t)
  {
    var at: nat, dot: nat :| EmailSplit(t, at, dot);
    var low := ToLowerAscii(t);
    assert !IsSpace(low[0]) && !IsSpace(low[|low| - 1]);
    TrimNoop(low);
  }

  /** On a parsed page, an owner, once found, is free of line breaks and
      of surrounding white space, and does not start with `:` or `|`. */
  lemma OwnerShape(doc: Document)
    requires doc.Parsed?
    ensures var o := ContactSpec(doc).owner;
      o != [] ==>
        && o[0] != ':' && o[0] != '|' && !IsSpace(o[0]) && !IsSpace(o[|o| - 1])
        && forall k :: 0 <= k < |o| ==> o[k] != '\n'
  {
    var p := doc.page;
    KeywordsNonEmpty();
    var raw := OwnerAmong(p.elementTexts, OwnerKeywords);
    OwnerOfPage(p);
    OwnerAmongLead(p.elementTexts, OwnerKeywords);
    NormalizedOwner(raw);
  }

  lemma OwnerOfPage(p: Page)
    requires forall k :: 0 <= k < |OwnerKeywords| ==> OwnerKeywords[k] != []
    ensures ContactSpec(Parsed(p)).owner == Normalize(OwnerAmong(p.elementTexts, OwnerKeywords))
  {
  }

  lemma NormalizedOwner(raw: string)
    requires raw == [] || !IsOwnerLead(raw[0])
    ensures var o := Normalize(raw);
      o != [] ==>
        && o[0] != ':' && o[0] != '|' && !IsSpace(o[0]) && !IsSpace(o[|o| - 1])
        && forall k :: 0 <= k < |o| ==> o[k] != '\n'
  {
    var o := Normalize(raw);
    if o != [] {
      assert raw != [];
      assert o[0] == raw[0];
    }
  }

  lemma {:induction false} OwnerAmongLead(texts: seq<string>, keywords: seq<string>)
    requires forall k :: 0 <= k < |keywords| ==> keywords[k] != []
    ensures var o := OwnerAmong(texts, keywords); o == [] || !IsOwnerLead(o[0])
  {
    if texts != [] {
      OwnerInTextLead(Trim(texts[0]), keywords);
      OwnerAmongLead(texts[1..], keywords);
    }
  }

  lemma {:induction false} OwnerInTextLead(text: string, keywords: seq<string>)
    requires forall k :: 0 <= k < |keywords| ==> keywords[k] != []
    ensures var o := OwnerInText(text, keywords); o == [] || !IsOwnerLead(o[0])
  {
    if keywords != [] {
      var o := OwnerCandidate(text, keywords[0]);
      if o != [] {
        var part := SplitSecond(text, keywords[0]).value;
        var d := DropWhile(Trim(SplitHead(part, "\n")), IsOwnerLead);
        assert d != [] && !IsOwnerLead(d[0]);
        assert TrimStart(d) == d;
      }
      OwnerInTextLead(text, keywords[1..]);
    }
  }

  /** `c` is what is left of `line` once its leading colons, bars and white
      space (the first `a` characters) and its trailing white space are cut
      off: `line == line[..a] + c + line[a + |c|..]`, and `c` neither starts
      with a lead character nor ends with white space. */
  predicate OwnerCut(line: string, c: string) {
    var a := |line| - |DropWhile(line, IsOwnerLead)|;
    && a + |c| <= |line| && (forall k :: 0 <= k < |c| ==> c[k] == line[a + k])
    && (forall k :: 0 <= k < a ==> IsOwnerLead(line[k]))
    && (forall k :: a + |c| <= k < |line| ==> IsSpace(line[k]))
    && (c == [] || (!IsOwnerLead(c[0]) && !IsSpace(c[|c| - 1])))
  }

  /** The owner candidate is the part of the keyword's line that follows
      its leading colons, bars and white space, without the white space
      that ends the line; "" when the keyword does not occur. */
  lemma OwnerCandidateCut(text: string, keyword: string)
    requires keyword != []
    ensures !Includes(text, keyword) ==> OwnerCandidate(text, keyword) == ""
    ensures Includes(text, keyword) ==>
      OwnerCut(SplitHead(SplitSecond(text, keyword).value, "\n"), OwnerCandidate(text, keyword))
  {
    if Includes(text, keyword) {
      var part := SplitSecond(text, keyword).value;
      if part != [] {
        LeadTrimCut(SplitHead(part, "\n"));
      }
    }
  }

  /** Trimming, dropping the lead characters and trimming again cuts a line
      into its lead, the candidate and its trailing white space. */
  lemma LeadTrimCut(line: string)
    ensures OwnerCut(line, Trim(DropWhile(Trim(line), IsOwnerLead)))
  {
    LeadTrimSame(line);
    CutOfRest(line);
  }

  /** The two trims around dropping the lead come down to dropping the
      lead and trimming the end. */
  lemma LeadTrimSame(line: string)
    ensures Trim(DropWhile(Trim(line), IsOwnerLead)) == TrimEnd(DropWhile(line, IsOwnerLead))
  {
    var s := TrimStart(line);
    var r := DropWhile(line, IsOwnerLead);
    var c := TrimEnd(r);
    assert DropWhile(Trim(line), IsOwnerLead) == c by {
      assert Trim(line) == TrimEnd(s);
      LeadAfterTrimStart(line);
      LeadBeforeTrimEnd(s);
    }
    assert c == [] || !IsSpace(c[0]) by {
      if c != [] {
        assert c[0] == r[0];
      }
    }
    TrimNoop(c);
  }

  /** Dropping the lead swallows any leading white space. */
  lemma {:induction false} LeadAfterTrimStart(s: string)
    ensures DropWhile(TrimStart(s), IsOwnerLead) == DropWhile(s, IsOwnerLead)
    decreases |s|
  {
    if s != [] && IsSpace(s[0]) {
      LeadAfterTrimStart(s[1..]);
    }
  }

  /** Dropping the lead before or after trimming the end gives the same
      text, up to the trailing white space. */
  lemma {:induction false} LeadBeforeTrimEnd(s: string)
    ensures DropWhile(TrimEnd(s), IsOwnerLead) == TrimEnd(DropWhile(s, IsOwnerLead))
    decreases |s|
  {
    var e := TrimEnd(s);
    TrimEndDrops(s);
    if s != [] && IsOwnerLead(s[0]) {
      if e == [] {
        DropWhileAt(s, IsOwnerLead, |s|);
      } else {
        TrimEndTail(s);
        LeadBeforeTrimEnd(s[1..]);
      }
    } else if s != [] {
      assert e != [] && e[0] == s[0];
    }
  }

  /** What is left after the lead, without its trailing white space, is
      the cut `OwnerCut` describes. */
  lemma CutOfRest(line: string)
    ensures OwnerCut(line, TrimEnd(DropWhile(line, IsOwnerLead)))
  {
    var r := DropWhile(line, IsOwnerLead);
    var a := |line| - |r|;
    DropWhileDrops(line, IsOwnerLead);
    TrimEndDrops(r);
    CutOfSuffix(line, a, r, TrimEnd(r));
  }

  /** Cutting the trailing white space off the suffix `r` that follows a
      lead gives the parts `OwnerCut` asks for. */
  lemma CutOfSuffix(line: string, a: nat, r: string, c: string)
    requires a == |line| - |DropWhile(line, IsOwnerLead)|
    requires a + |r| == |line| && r == line[a..]
    requires r == [] || !IsOwnerLead(r[0])
    requires forall k :: 0 <= k < a ==> IsOwnerLead(line[k])
    requires |c| <= |r| && c == r[..|c|]
    requires c == [] || !IsSpace(c[|c| - 1])
    requires forall k :: |c| <= k < |r| ==> IsSpace(r[k])
    ensures OwnerCut(line, c)
  {
    RestCut(line, a, r, c);
    if c != [] {
      assert c[0] == r[0];
    }
    CutFromParts(line, a, c);
  }

  /** A prefix `c` of the suffix `r` of `line`, with only white space after
      it in `r`, is a slice of `line` with only white space after it. */
  lemma RestCut(line: string, a: nat, r: string, c: string)
    requires a + |r| == |line| && r == line[a..]
    requires |c| <= |r| && c == r[..|c|]
    requires forall k :: |c| <= k < |r| ==> IsSpace(r[k])
    ensures a + |c| <= |line| && (forall k :: 0 <= k < |c| ==> c[k] == line[a + k])
    ensures forall k :: a + |c| <= k < |line| ==> IsSpace(line[k])
  {
    forall k | 0 <= k < |c|
      ensures c[k] == line[a + k]
    {
      assert c[k] == r[k];
    }
    forall k | a + |c| <= k < |line|
      ensures IsSpace(line[k])
    {
      assert line[k] == r[k - a];
    }
  }

  lemma CutFromParts(line: string, a: nat, c: string)
    requires a == |line| - |DropWhile(line, IsOwnerLead)|
    requires a + |c| <= |line| && (forall k :: 0 <= k < |c| ==> c[k] == line[a + k])
    requires forall k :: 0 <= k < a ==> IsOwnerLead(line[k])
    requires forall k :: a + |c| <= k < |line| ==> IsSpace(line[k])
    requires c == [] || (!IsOwnerLead(c[0]) && !IsSpace(c[|c| - 1]))
    ensures OwnerCut(line, c)
  {
  }

  /** A page the parser rejects yields no contact data, and no error. */
  lemma UnparseableIsEmpty()
    ensures ContactSpec(Unparseable) == ContactInfo("", "", "")
  {
  }

  // ---------------------------------------------------------------------
  // The whole scrape

  /** `scrapeWebsite`: fetch with retries, then extract from the page the
      parser makes of the body. Only a fetch failure is reported; extraction
      never fails. */
  method ScrapeWebsite(replies: seq<Fetch.Transport>, parse: string -> Document)
    returns (r: Result<ContactInfo>, requests: seq<Fetch.Request>, delays: seq<nat>)
    requires |replies| == Fetch.MaxAttempts
    ensures 1 <= |requests| <= Fetch.MaxAttempts
    ensures forall k :: 0 <= k < |requests| ==> requests[k] == Fetch.RequestFor(k + 1)
    ensures forall k :: 0 <= k < |requests| - 1 ==> !Fetch.IsSuccess(Fetch.Classify(replies[k]))
    ensures |requests| < Fetch.MaxAttempts ==> Fetch.IsSuccess(Fetch.Classify(replies[|requests| - 1]))
    ensures r.Ok? <==> Fetch.IsSuccess(Fetch.Classify(replies[|requests| - 1]))
    ensures r.Ok? ==> r.value == ContactSpec(parse(replies[|requests| - 1].body))
    ensures r.Err? ==> r.message == Fetch.FinalError(Fetch.Outcomes(replies))
    ensures r.Err? ==> |requests| == Fetch.MaxAttempts && delays == [1000, 2000, 3000]
    ensures r.Ok? ==> |delays| == |requests| - 1 && forall k :: 0 <= k < |delays| ==> delays[k] == 1000 * (k + 1)
  {
    var fetched;
    fetched, requests, delays := Fetch.FetchPage(replies);
    match fetched {
      case Failed(message) =>
        r := Err(message);
      case Page(body) =>
        var info := ExtractContactInfo(parse(body));
        r := Ok(info);
    }
  }
}
