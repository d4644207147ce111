/** The two regular expressions of the contact scraper, hand-coded as the
    backtracking matcher of JavaScript runs them (alternatives in order,
    greedy quantifiers, leftmost start), over characters:

      phone  /(?:\+|00)[1-9][0-9 .-]{8,}|[0-9][0-9 .-]{6,}/g
      email  /[a-zA-Z0-9._%+-]+@[a-zA-Z0-9.-]+\.[a-zA-Z]{2,}/gi

    Each pattern's language is also written down directly (IsPhoneToken,
    IsEmailToken), and the matchers are proved to return the leftmost, and
    at that position the longest, infix in the language. */
module Patterns {
  import opened Js

  /** The maximal run of characters satisfying `p` that starts at `i`. */
  function Run(s: string, i: nat, p: char -> bool): (n: nat)
    requires i <= |s|
    ensures i + n <= |s|
    ensures forall k :: i <= k < i + n ==> p(s[k])
    ensures i + n == |s| || !p(s[i + n])
    decreases |s| - i
  {
    if i < |s| && p(s[i]) then 1 + Run(s, i + 1, p) else 0
  }

  predicate AllFrom(t: string, lo: nat, p: char -> bool) {
    forall k :: lo <= k < |t| ==> p(t[k])
  }

  // ---------------------------------------------------------------------
  // Phone numbers

  predicate IsNonZeroDigit(c: char) { '1' <= c <= '9' }

  /** The class `[0-9 .-]`. */
  predicate InPhoneClass(c: char) { IsDigit(c) || c == ' ' || c == '.' || c == '-' }

  /** The language of the phone pattern, alternative by alternative. */
  ghost predicate IsPhoneToken(t: string) {
    || (|t| >= 10 && t[0] == '+' && IsNonZeroDigit(t[1]) && AllFrom(t, 2, InPhoneClass))
    || (|t| >= 11 && t[0] == '0' && t[1] == '0' && IsNonZeroDigit(t[2]) && AllFrom(t, 3, InPhoneClass))
    || (|t| >= 7 && IsDigit(t[0]) && AllFrom(t, 1, InPhoneClass))
  }

  /** The end of the match the phone pattern makes when started at `i`:
      first `\+[1-9]`, then `00[1-9]`, each followed by a greedy run of at
      least 8 class characters; then `[0-9]` followed by at least 6. */
  function PhoneMatchAt(s: string, i: nat): Option<nat>
    requires i < |s|
  {
    if s[i] == '+' && i + 1 < |s| && IsNonZeroDigit(s[i + 1]) && Run(s, i + 2, InPhoneClass) >= 8 then
      Some(i + 2 + Run(s, i + 2, InPhoneClass))
    else if s[i] == '0' && i + 2 < |s| && s[i + 1] == '0' && IsNonZeroDigit(s[i + 2]) && Run(s, i + 3, InPhoneClass) >= 8 then
      Some(i + 3 + Run(s, i + 3, InPhoneClass))
    else if IsDigit(s[i]) && Run(s, i + 1, InPhoneClass) >= 6 then
      Some(i + 1 + Run(s, i + 1, InPhoneClass))
    else
      None
  }

  /** The match at `i` is a phone token, and no longer infix starting at `i`
      is one; when there is no match, no infix starting at `i` is a token. */
  lemma PhoneMatchAtIsLongest(s: string, i: nat)
    requires i < |s|
    ensures PhoneMatchAt(s, i).Some? ==>
      var e := PhoneMatchAt(s, i).value;
      && i < e <= |s| && IsPhoneToken(s[i..e])
      && forall k :: e < k <= |s| ==> !IsPhoneToken(s[i..k])
    ensures PhoneMatchAt(s, i).None? ==> forall k :: i < k <= |s| ==> !IsPhoneToken(s[i..k])
  {
    forall k | i < k <= |s| && IsPhoneToken(s[i..k])
      ensures PhoneMatchAt(s, i).Some? && k <= PhoneMatchAt(s, i).value
    {
      PhoneTokenWithinMatch(s, i, k);
    }
    if PhoneMatchAt(s, i).Some? {
      PhoneMatchAtIsToken(s, i);
    }
  }

  lemma PhoneMatchAtIsToken(s: string, i: nat)
    requires i < |s| && PhoneMatchAt(s, i).Some?
    ensures var e := PhoneMatchAt(s, i).value; i < e <= |s| && IsPhoneToken(s[i..e])
  {
    var e := PhoneMatchAt(s, i).value;
    var t := s[i..e];
    assert forall m :: 0 <= m < |t| ==> t[m] == s[i + m];
  }

  /** Every phone token starting at `i` ends within the match made there. */
  lemma PhoneTokenWithinMatch(s: string, i: nat, k: nat)
    requires i < k <= |s| && IsPhoneToken(s[i..k])
    ensures PhoneMatchAt(s, i).Some? && k <= PhoneMatchAt(s, i).value
  {
    var t := s[i..k];
    assert forall m :: 0 <= m < |t| ==> t[m] == s[i + m];
    if |t| >= 10 && t[0] == '+' && IsNonZeroDigit(t[1]) && AllFrom(t, 2, InPhoneClass) {
      RunCovers(s, i + 2, k, InPhoneClass);
    } else if |t| >= 11 && t[0] == '0' && t[1] == '0' && IsNonZeroDigit(t[2]) && AllFrom(t, 3, InPhoneClass) {
      RunCovers(s, i + 3, k, InPhoneClass);
    } else {
      BareWithinMatch(s, i, k);
    }
  }

  /** A token of the bare alternative `[0-9][0-9 .-]{6,}` ends within the
      match, also when the `00` alternative is the one that matches. */
  lemma BareWithinMatch(s: string, i: nat, k: nat)
    requires i + 7 <= k <= |s| && IsDigit(s[i])
    requires forall m :: i + 1 <= m < k ==> InPhoneClass(s[m])
    ensures PhoneMatchAt(s, i).Some? && k <= PhoneMatchAt(s, i).value
  {
    RunCovers(s, i + 1, k, InPhoneClass);
    if s[i] == '0' && i + 2 < |s| && s[i + 1] == '0' && IsNonZeroDigit(s[i + 2]) && Run(s, i + 3, InPhoneClass) >= 8 {
      // the `00` alternative wins, and ends where the bare one would
      assert Run(s, i + 1, InPhoneClass) == 2 + Run(s, i + 3, InPhoneClass);
    }
  }

  /** A run covers every stretch of class characters that starts with it. */
  lemma RunCovers(s: string, i: nat, j: nat, p: char -> bool)
    requires i <= j <= |s|
    requires forall k :: i <= k < j ==> p(s[k])
    ensures Run(s, i, p) >= j - i
  {
  }

  /** The first match of the phone pattern at or after `from`, as the
      half-open range it covers: `text.match(phoneRegex)[0]`. */
  function FirstPhoneMatch(s: string, from: nat): (r: Option<(nat, nat)>)
    requires from <= |s|
    ensures r.Some? ==> from <= r.value.0 < r.value.1 <= |s|
    decreases |s| - from
  {
    if from == |s| then None
    else
      match PhoneMatchAt(s, from)
      case Some(e) => Some((from, e))
      case None => FirstPhoneMatch(s, from + 1)
  }

  /** The matcher finds the leftmost infix in the pattern's language and,
      at that position, the longest; it finds none only when there is none. */
  lemma {:induction false} FirstPhoneMatchIsLeftmostLongest(s: string, from: nat)
    requires from <= |s|
    ensures var r := FirstPhoneMatch(s, from);
      && (r.Some? ==> IsPhoneToken(s[r.value.0..r.value.1]))
      && (r.Some? ==> forall k :: r.value.1 < k <= |s| ==> !IsPhoneToken(s[r.value.0..k]))
      && (forall j, k :: from <= j < k <= |s| && (r.None? || j < r.value.0) ==> !IsPhoneToken(s[j..k]))
    decreases |s| - from
  {
    if from < |s| {
      PhoneMatchAtIsLongest(s, from);
      if PhoneMatchAt(s, from).None? {
        FirstPhoneMatchIsLeftmostLongest(s, from + 1);
      }
    }
  }

  /** `phoneRegex.test(s)`. */
  predicate ContainsPhone(s: string) {
    FirstPhoneMatch(s, 0).Some?
  }

  /** What the phone pattern can match: at least 7 characters, all digits,
      spaces, dots or hyphens except a possible leading `+`. */
  lemma PhoneTokenShape(t: string)
    requires IsPhoneToken(t)
    ensures |t| >= 7
    ensures t[0] == '+' || IsDigit(t[0])
    ensures forall k :: 1 <= k < |t| ==> InPhoneClass(t[k])
    ensures exists k :: 0 <= k < |t| && IsDigit(t[k])
  {
    if t[0] == '+' {
      assert IsDigit(t[1]);
    }
  }

  // ---------------------------------------------------------------------
  // Email addresses

  /** The class `[a-zA-Z0-9._%+-]`. */
  predicate InLocalClass(c: char) {
    IsAsciiLetter(c) || IsDigit(c) || c == '.' || c == '_' || c == '%' || c == '+' || c == '-'
  }

  /** The class `[a-zA-Z0-9.-]`. */
  predicate InDomainClass(c: char) {
    IsAsciiLetter(c) || IsDigit(c) || c == '.' || c == '-'
  }

  /** `t` splits as local part `t[..at]`, `@`, domain `t[at+1..dot]`, `.`
      and top-level domain `t[dot+1..]`. */
  predicate EmailSplit(t: string, at: nat, dot: nat) {
    && 0 < at && at + 1 < dot && dot + 3 <= |t|
    && t[at] == '@' && t[dot] == '.'
    && (forall k :: 0 <= k < at ==> InLocalClass(t[k]))
    && (forall k :: at < k < dot ==> InDomainClass(t[k]))
    && AllFrom(t, dot + 1, IsAsciiLetter)
  }

  /** The language of the email pattern. */
  ghost predicate IsEmailToken(t: string) {
    exists at: nat, dot: nat :: EmailSplit(t, at, dot)
  }

  /** `s[j + d]` is a dot followed by at least two letters. */
  predicate DotAt(s: string, j: nat, d: nat) {
    j + d + 2 < |s| && s[j + d] == '.' && IsAsciiLetter(s[j + d + 1]) && IsAsciiLetter(s[j + d + 2])
  }

  /** Backtracking of the greedy domain part: the longest domain length, at
      most `d`, after which `\.[a-zA-Z]{2,}` matches. */
  function LastDot(s: string, j: nat, d: nat): (r: Option<nat>)
    ensures r.Some? ==> 1 <= r.value <= d && DotAt(s, j, r.value)
    ensures r.Some? ==> forall d' :: r.value < d' <= d ==> !DotAt(s, j, d')
    ensures r.None? ==> forall d' :: 1 <= d' <= d ==> !DotAt(s, j, d')
  {
    if d == 0 then None
    else if DotAt(s, j, d) then Some(d)
    else LastDot(s, j, d - 1)
  }

  /** The end of the match the email pattern makes when started at `i`. */
  function EmailMatchAt(s: string, i: nat): Option<nat>
    requires i < |s|
  {
    var l := Run(s, i, InLocalClass);
    if l == 0 || i + l == |s| || s[i + l] != '@' then None
    else DomainMatchAt(s, i + l + 1)
  }

  /** The end of the match of `[a-zA-Z0-9.-]+\.[a-zA-Z]{2,}` started at `j`:
      the greedy domain run, backtracked to its last dot followed by two
      letters, then the greedy run of letters. */
  function DomainMatchAt(s: string, j: nat): Option<nat>
    requires j <= |s|
  {
    match LastDot(s, j, Run(s, j, InDomainClass))
    case None => None
    case Some(d) => Some(j + d + 1 + Run(s, j + d + 1, IsAsciiLetter))
  }

  lemma EmailMatchAtIsToken(s: string, i: nat)
    requires i < |s| && EmailMatchAt(s, i).Some?
    ensures var e := EmailMatchAt(s, i).value; i < e <= |s| && IsEmailToken(s[i..e])
  {
    var l := Run(s, i, InLocalClass);
    var j := i + l + 1;
    var d := LastDot(s, j, Run(s, j, InDomainClass)).value;
    var e := EmailMatchAt(s, i).value;
    var t := s[i..e];
    assert forall m :: 0 <= m < |t| ==> t[m] == s[i + m];
    assert EmailSplit(t, l, l + 1 + d);
  }

  lemma EmailTokenWithinMatch(s: string, i: nat, k: nat)
    requires i < k <= |s| && IsEmailToken(s[i..k])
    ensures EmailMatchAt(s, i).Some? && k <= EmailMatchAt(s, i).value
  {
    var at: nat, dot: nat :| EmailSplit(s[i..k], at, dot);
    EmailSplitInText(s, i, k, at, dot);
    EmailMatchReaches(s, i, k, at, dot);
  }

  lemma EmailMatchReaches(s: string, i: nat, k: nat, at: nat, dot: nat)
    requires 0 < at && at + 1 < dot && i + dot + 3 <= k <= |s|
    requires s[i + at] == '@' && s[i + dot] == '.'
    requires forall m :: i <= m < i + at ==> InLocalClass(s[m])
    requires forall m :: i + at < m < k ==> InDomainClass(s[m])
    requires forall m :: i + dot < m < k ==> IsAsciiLetter(s[m])
    ensures EmailMatchAt(s, i).Some? && k <= EmailMatchAt(s, i).value
  {
    LocalRun(s, i, at);
    DomainBacktracking(s, i + at + 1, k, dot - at - 1);
  }

  /** The greedy local-part run stops exactly at the `@`. */
  lemma LocalRun(s: string, i: nat, at: nat)
    requires i + at < |s| && s[i + at] == '@'
    requires forall m :: i <= m < i + at ==> InLocalClass(s[m])
    ensures Run(s, i, InLocalClass) == at
  {
    RunCovers(s, i, i + at, InLocalClass);
  }

  /** Backtracking from the greedy domain run finds a dot no earlier than
      the token's own, and the match then reaches at least the token's end. */
  lemma DomainBacktracking(s: string, j: nat, k: nat, d0: nat)
    requires j + d0 + 3 <= k <= |s| && 1 <= d0 && DotAt(s, j, d0)
    requires forall m :: j <= m < k ==> InDomainClass(s[m])
    requires forall m :: j + d0 < m < k ==> IsAsciiLetter(s[m])
    ensures DomainMatchAt(s, j).Some? && DomainMatchAt(s, j).value >= k
  {
    RunCovers(s, j, k, InDomainClass);
    var d := LastDot(s, j, Run(s, j, InDomainClass)).value;
    if d == d0 {
      RunCovers(s, j + d + 1, k, IsAsciiLetter);
    } else {
      // a later dot cannot sit among the token's final letters
      assert j + d >= k;
    }
  }

  /** The parts of an email token, read in the text it was cut from. */
  lemma EmailSplitInText(s: string, i: nat, k: nat, at: nat, dot: nat)
    requires i < k <= |s| && EmailSplit(s[i..k], at, dot)
    ensures i + dot + 3 <= k && s[i + at] == '@' && s[i + dot] == '.'
    ensures forall m :: i <= m < i + at ==> InLocalClass(s[m])
    ensures forall m :: i + at < m < k ==> InDomainClass(s[m])
    ensures forall m :: i + dot < m < k ==> IsAsciiLetter(s[m])
  {
    var t := s[i..k];
    assert forall m :: i <= m < k ==> s[m] == t[m - i];
  }

  /** The first match of the email pattern at or after `from`. */
  function FirstEmailMatch(s: string, from: nat): (r: Option<(nat, nat)>)
    requires from <= |s|
    ensures r.Some? ==> from <= r.value.0 < r.value.1 <= |s|
    decreases |s| - from
  {
    if from == |s| then None
    else
      match EmailMatchAt(s, from)
      case Some(e) =>
        EmailMatchAtIsToken(s, from);
        Some((from, e))
      case None => FirstEmailMatch(s, from + 1)
  }

  /** The matcher finds the leftmost infix in the pattern's language and,
      at that position, the longest; it finds none only when there is none. */
  lemma {:induction false} FirstEmailMatchIsLeftmostLongest(s: string, from: nat)
    requires from <= |s|
    ensures var r := FirstEmailMatch(s, from);
      && (r.Some? ==> IsEmailToken(s[r.value.0..r.value.1]))
      && (r.Some? ==> forall k :: r.value.1 < k <= |s| ==> !IsEmailToken(s[r.value.0..k]))
      && (forall j, k :: from <= j < k <= |s| && (r.None? || j < r.value.0) ==> !IsEmailToken(s[j..k]))
    decreases |s| - from
  {
    if from < |s| {
      EmailMatchAtIsLongest(s, from);
      if EmailMatchAt(s, from).None? {
        FirstEmailMatchIsLeftmostLongest(s, from + 1);
      }
    }
  }

  /** The match at `i` is an email token, and no longer infix starting at
      `i` is one; when there is no match, no infix starting at `i` is a
      token. */
  lemma EmailMatchAtIsLongest(s: string, i: nat)
    requires i < |s|
    ensures EmailMatchAt(s, i).Some? ==>
      var e := EmailMatchAt(s, i).value;
      && i < e <= |s| && IsEmailToken(s[i..e])
      && forall k :: e < k <= |s| ==> !IsEmailToken(s[i..k])
    ensures EmailMatchAt(s, i).None? ==> forall k :: i < k <= |s| ==> !IsEmailToken(s[i..k])
  {
    forall k | i < k <= |s| && IsEmailToken(s[i..k])
      ensures EmailMatchAt(s, i).Some? && k <= EmailMatchAt(s, i).value
    {
      EmailTokenWithinMatch(s, i, k);
    }
    if EmailMatchAt(s, i).Some? {
      EmailMatchAtIsToken(s, i);
    }
  }

  /** `emailRegex.test(s)`. */
  predicate ContainsEmail(s: string) {
    FirstEmailMatch(s, 0).Some?
  }

  /** What the email pattern can match: exactly one `@`, and a final `.`
      followed by at least two letters. */
  lemma EmailTokenShape(t: string)
    requires IsEmailToken(t)
    ensures exists at :: 0 < at < |t| && t[at] == '@' && forall k :: 0 <= k < |t| && k != at ==> t[k] != '@'
    ensures exists dot :: 0 < dot <= |t| - 3 && t[dot] == '.' && AllFrom(t, dot + 1, IsAsciiLetter)
  {
    var at: nat, dot: nat :| EmailSplit(t, at, dot);
    assert forall k :: 0 <= k < |t| && k != at ==> t[k] != '@';
  }
}
