/** The JavaScript built-ins the lead generator relies on, over strings of
    characters: `trim`, `\s+` collapsing, `indexOf`/`includes`, the first two
    pieces of `split`, `replace` with a string pattern, ASCII `toLowerCase`,
    `Array.prototype.slice`, `filter` and number-to-decimal conversion. */
module Js {

  datatype Option<+T> = None | Some(value: T) {
    function GetOr(default: T): T {
      match this
      case Some(v) => v
      case None => default
    }
  }

  datatype Result<+T> = Ok(value: T) | Err(message: string)

  // ---------------------------------------------------------------------
  // Characters

  /** The characters matched by `\s` and removed by `String.prototype.trim`
      (ECMAScript WhiteSpace and LineTerminator). */
  predicate IsSpace(c: char) {
    c == ' ' || c == '\t' || c == '\n' || c == '\r' || c == '\U{B}' || c == '\U{C}'
    || c == '\U{A0}' || c == '\U{1680}' || ('\U{2000}' <= c <= '\U{200A}')
    || c == '\U{2028}' || c == '\U{2029}' || c == '\U{202F}' || c == '\U{205F}'
    || c == '\U{3000}' || c == '\U{FEFF}'
  }

  predicate IsDigit(c: char) { '0' <= c <= '9' }

  predicate IsAsciiUpper(c: char) { 'A' <= c <= 'Z' }

  predicate IsAsciiLetter(c: char) { IsAsciiUpper(c) || 'a' <= c <= 'z' }

  // ---------------------------------------------------------------------
  // Trimming and white-space collapsing

  /** Removes the longest prefix of `s` whose characters satisfy `p`
      (`s.replace(/^[...]+/, '')` for the character class `p`). */
  function DropWhile(s: string, p: char -> bool): (r: string)
    ensures |r| <= |s| && r == s[|s| - |r|..]
    ensures r == [] || !p(r[0])
  {
    if s != [] && p(s[0]) then DropWhile(s[1..], p) else s
  }

  /** Every character `DropWhile` removes satisfies `p`. */
  lemma {:induction false} DropWhileDrops(s: string, p: char -> bool)
    ensures forall k :: 0 <= k < |s| - |DropWhile(s, p)| ==> p(s[k])
  {
    if s != [] && p(s[0]) {
      DropWhileDrops(s[1..], p);
      forall k | 1 <= k < |s| - |DropWhile(s, p)|
        ensures p(s[k])
      {
        assert s[k] == s[1..][k - 1];
      }
    }
  }

  /** `DropWhile` stops at the first character that fails `p`. */
  lemma {:induction false} DropWhileAt(s: string, p: char -> bool, j: nat)
    requires j <= |s| && (j == |s| || !p(s[j]))
    requires forall k :: 0 <= k < j ==> p(s[k])
    ensures DropWhile(s, p) == s[j..] && |s| - |DropWhile(s, p)| == j
    decreases j
  {
    if j > 0 {
      assert p(s[0]);
      forall k | 0 <= k < j - 1
        ensures p(s[1..][k])
      {
        assert s[1..][k] == s[k + 1];
      }
      DropWhileAt(s[1..], p, j - 1);
      assert s[1..][j - 1..] == s[j..];
    }
  }

  /** A slice of a slice is a slice of the original sequence. */
  lemma SliceOfSlice<T>(s: seq<T>, i: nat, t: seq<T>, a: nat, b: nat)
    requires i + |t| <= |s| && t == s[i..i + |t|] && a <= b <= |t|
    ensures t[a..b] == s[i + a..i + b]
  {
    assert forall k :: 0 <= k < b - a ==> t[a..b][k] == t[a + k] == s[i + a + k];
  }

  /** `String.prototype.trimStart`. */
  function TrimStart(s: string): (r: string)
    ensures |r| <= |s| && r == s[|s| - |r|..]
    ensures r == [] || !IsSpace(r[0])
  {
    if s != [] && IsSpace(s[0]) then TrimStart(s[1..]) else s
  }

  /** `String.prototype.trimEnd`. */
  function TrimEnd(s: string): (r: string)
    ensures |r| <= |s| && r == s[..|r|]
    ensures r == [] || !IsSpace(r[|r| - 1])
  {
    if s != [] && IsSpace(s[|s| - 1]) then TrimEnd(s[..|s| - 1]) else s
  }

  /** `trimStart` removes white space only. */
  lemma {:induction false} TrimStartDrops(s: string)
    ensures forall k :: 0 <= k < |s| - |TrimStart(s)| ==> IsSpace(s[k])
  {
    if s != [] && IsSpace(s[0]) {
      TrimStartDrops(s[1..]);
      forall k | 1 <= k < |s| - |TrimStart(s)|
        ensures IsSpace(s[k])
      {
        assert s[k] == s[1..][k - 1];
      }
    }
  }

  /** `trimEnd` removes white space only. */
  lemma {:induction false} TrimEndDrops(s: string)
    ensures forall k :: |TrimEnd(s)| <= k < |s| ==> IsSpace(s[k])
  {
    if s != [] && IsSpace(s[|s| - 1]) {
      TrimEndDrops(s[..|s| - 1]);
    }
  }

  /** Trimming the end commutes with dropping the first character, as long
      as something is left. */
  lemma {:induction false} TrimEndTail(s: string)
    requires TrimEnd(s) != []
    ensures TrimEnd(s)[0] == s[0] && TrimEnd(s)[1..] == TrimEnd(s[1..])
    decreases |s|
  {
    if IsSpace(s[|s| - 1]) {
      var u := s[..|s| - 1];
      TrimEndTail(u);
      assert s[1..][..|s| - 2] == u[1..];
    } else if |s| > 1 {
      assert s[1..][|s| - 2] == s[|s| - 1];
    }
  }

  /** `String.prototype.trim`: `s` without its leading and trailing white
      space; the result is the infix of `s` starting at `TrimOffset(s)`. */
  function Trim(s: string): (r: string)
    ensures |r| <= |s| - TrimOffset(s) && r == s[TrimOffset(s)..TrimOffset(s) + |r|]
    ensures r == [] || (!IsSpace(r[0]) && !IsSpace(r[|r| - 1]))
  {
    var t := TrimStart(s);
    assert TrimEnd(t) == s[|s| - |t|..][..|TrimEnd(t)|];
    TrimEnd(t)
  }

  /** `trim` removes white space only, at both ends. */
  lemma TrimDrops(s: string)
    ensures forall k :: 0 <= k < TrimOffset(s) ==> IsSpace(s[k])
    ensures forall k :: TrimOffset(s) + |Trim(s)| <= k < |s| ==> IsSpace(s[k])
  {
    var t := TrimStart(s);
    var e := TrimEnd(t);
    var off := |s| - |t|;
    assert Trim(s) == e && TrimOffset(s) == off;
    TrimStartDrops(s);
    TrimEndDrops(t);
    forall k | off + |e| <= k < |s|
      ensures IsSpace(s[k])
    {
      assert s[k] == t[k - off];
    }
  }

  /** A text without surrounding white space is its own trim. */
  lemma TrimNoop(s: string)
    requires s == [] || (!IsSpace(s[0]) && !IsSpace(s[|s| - 1]))
    ensures Trim(s) == s
  {
    assert TrimStart(s) == s;
    assert TrimEnd(s) == s;
  }

  /** Where the trimmed text starts in `s`. */
  function TrimOffset(s: string): nat {
    |s| - |TrimStart(s)|
  }

  /** `s.replace(/\s+/g, ' ')`: every maximal run of white space becomes one
      space; the other characters are kept in order. */
  function CollapseSpaces(s: string): (r: string)
    ensures (r == []) == (s == [])
    ensures r != [] ==> r[0] == if IsSpace(s[0]) then ' ' else s[0]
  {
    if s == [] then []
    else if IsSpace(s[0]) then [' '] + CollapseSpaces(TrimStart(s[1..]))
    else [s[0]] + CollapseSpaces(s[1..])
  }

  /** Two white-space characters in a row, at `k` and `k + 1`. */
  predicate SpacePairAt(r: string, k: int) {
    0 <= k < |r| - 1 && IsSpace(r[k]) && IsSpace(r[k + 1])
  }

  /** The only white space in `r` is single plain spaces. */
  predicate IsCollapsed(r: string) {
    && (forall k :: 0 <= k < |r| && IsSpace(r[k]) ==> r[k] == ' ')
    && (forall k :: 0 <= k < |r| - 1 ==> !SpacePairAt(r, k))
  }

  /** After collapsing, the only white-space character is the plain space and
      no two white-space characters are adjacent. */
  lemma {:induction false} CollapsedSpacing(s: string)
    ensures IsCollapsed(CollapseSpaces(s))
  {
    if s != [] {
      var rest := if IsSpace(s[0]) then TrimStart(s[1..]) else s[1..];
      CollapsedSpacing(rest);
      var r := CollapseSpaces(s);
      var tail := CollapseSpaces(rest);
      assert r == [r[0]] + tail;
      forall k | 0 <= k < |r| && IsSpace(r[k])
        ensures r[k] == ' '
      {
        if k > 0 {
          assert r[k] == tail[k - 1];
        }
      }
      forall k
        ensures !SpacePairAt(r, k)
      {
        if k > 0 && SpacePairAt(r, k) {
          assert r[k] == tail[k - 1] && r[k + 1] == tail[k];
          assert SpacePairAt(tail, k - 1);
        }
      }
    }
  }

  /** Collapsing introduces no character other than the space. */
  lemma {:induction false} CollapsedChars(s: string)
    ensures forall c :: c in CollapseSpaces(s) ==> c == ' ' || c in s
  {
    if s != [] {
      var rest := if IsSpace(s[0]) then TrimStart(s[1..]) else s[1..];
      CollapsedChars(rest);
      assert forall c :: c in rest ==> c in s;
      assert CollapseSpaces(s)[1..] == CollapseSpaces(rest);
    }
  }

  /** Surrounding white space removed and inner runs reduced to one space:
      `s.replace(/\s+/g, ' ').trim()`. */
  function Normalize(s: string): (r: string)
    ensures r == [] || (!IsSpace(r[0]) && !IsSpace(r[|r| - 1]))
    ensures IsCollapsed(r)
    ensures s != [] && !IsSpace(s[0]) ==> r != [] && r[0] == s[0]
  {
    var c := CollapseSpaces(s);
    assert s != [] && !IsSpace(s[0]) ==> TrimStart(c) == c;
    TrimEndDrops(c);
    CollapsedSpacing(s);
    InfixKeeps(c, Trim(c), TrimOffset(c));
    Trim(c)
  }

  /** `s` holds no white space. */
  predicate NoSpace(s: string) {
    forall k :: 0 <= k < |s| ==> !IsSpace(s[k])
  }

  /** `s` holds only white space. */
  predicate AllSpace(s: string) {
    forall k :: 0 <= k < |s| ==> IsSpace(s[k])
  }

  /** `s` is non-empty and neither starts nor ends with white space. */
  predicate Framed(s: string) {
    s != [] && !IsSpace(s[0]) && !IsSpace(s[|s| - 1])
  }

  /** A word without white space is kept as it is. */
  lemma NormalizeWord(x: string)
    requires NoSpace(x)
    ensures Normalize(x) == x
  {
    NormalizeIsTrimCollapse(x);
    CollapseNoSpace(x);
    if x != [] {
      TrimNoop(x);
    }
  }

  /** A run of white space between two words becomes exactly one space. */
  lemma NormalizeJoin(x: string, w: string, y: string)
    requires Framed(x) && Framed(y) && w != [] && AllSpace(w)
    ensures Normalize(x + w + y) == Normalize(x) + " " + Normalize(y)
  {
    var cx := CollapseSpaces(x);
    var cy := CollapseSpaces(y);
    CollapseJoin(x, w, y);
    CollapseFramed(x);
    CollapseFramed(y);
    var m := cx + " " + cy;
    assert m[0] == cx[0] && m[|m| - 1] == cy[|cy| - 1];
    TrimNoop(m);
    NormalizeIsTrimCollapse(x + w + y);
    NormalizeFramed(x);
    NormalizeFramed(y);
  }

  /** White space around a word is removed. */
  lemma NormalizeSurround(u: string, x: string, v: string)
    requires AllSpace(u) && Framed(x) && AllSpace(v)
    ensures Normalize(u + x + v) == Normalize(x)
  {
    var cx := CollapseSpaces(x);
    var cv := CollapseSpaces(v);
    CollapseFramed(x);
    assert AllSpace(cv) by {
      if v != [] {
        CollapseAllSpace(v);
      }
    }
    var pre: string := if u == [] then [] else " ";
    CollapseSurround(u, x, v);
    TrimAround(pre, cx, cv);
    NormalizeIsTrimCollapse(u + x + v);
    NormalizeFramed(x);
  }

  lemma CollapseSurround(u: string, x: string, v: string)
    requires AllSpace(u) && Framed(x)
    ensures CollapseSpaces(u + x + v)
      == (if u == [] then [] else " ") + CollapseSpaces(x) + CollapseSpaces(v)
  {
    if u == [] {
      CollapseOpen(x, v);
    } else {
      CollapseAfterOpen(u, x, v);
    }
  }

  lemma CollapseOpen(x: string, v: string)
    requires Framed(x)
    ensures CollapseSpaces([] + x + v) == CollapseSpaces(x) + CollapseSpaces(v)
  {
    var xv := x + v;
    assert [] + x + v == xv;
    CollapseAppend(x, v);
  }

  lemma CollapseAfterOpen(u: string, x: string, v: string)
    requires u != [] && AllSpace(u) && Framed(x)
    ensures CollapseSpaces(u + x + v) == " " + CollapseSpaces(x) + CollapseSpaces(v)
  {
    var xv := x + v;
    ConcatAssoc(u, x, v);
    assert xv[0] == x[0];
    CollapseAfterSpaces(u, xv);
    CollapseAppend(x, v);
    ConcatAssoc(" ", CollapseSpaces(x), CollapseSpaces(v));
  }

  lemma CollapseJoin(x: string, w: string, y: string)
    requires Framed(x) && Framed(y) && w != [] && AllSpace(w)
    ensures CollapseSpaces(x + w + y) == CollapseSpaces(x) + " " + CollapseSpaces(y)
  {
    var wy := w + y;
    assert x + w + y == x + wy;
    CollapseAfterSpaces(w, y);
    CollapseAppend(x, wy);
  }

  lemma NormalizeIsTrimCollapse(s: string)
    ensures Normalize(s) == Trim(CollapseSpaces(s))
  {
  }

  /** A framed word normalizes to its own collapse. */
  lemma NormalizeFramed(x: string)
    requires Framed(x)
    ensures Normalize(x) == CollapseSpaces(x)
  {
    CollapseFramed(x);
    TrimNoop(CollapseSpaces(x));
    NormalizeIsTrimCollapse(x);
  }

  /** A text of white space only normalizes to the empty text. */
  lemma NormalizeBlank(w: string)
    requires AllSpace(w)
    ensures Normalize(w) == ""
  {
    if w != [] {
      CollapseAllSpace(w);
      assert TrimStart(" ") == TrimStart([]);
    }
  }

  lemma {:induction false} CollapseNoSpace(x: string)
    requires NoSpace(x)
    ensures CollapseSpaces(x) == x
  {
    if x != [] {
      CollapseNoSpace(x[1..]);
    }
  }

  lemma TrimStartAllSpace(w: string)
    requires AllSpace(w)
    ensures TrimStart(w) == []
  {
  }

  lemma CollapseAllSpace(w: string)
    requires w != [] && AllSpace(w)
    ensures CollapseSpaces(w) == " "
  {
    TrimStartAllSpace(w[1..]);
  }

  /** `trimStart` passes over leading white space to the first word. */
  lemma {:induction false} TrimStartSpaces(w: string, y: string)
    requires AllSpace(w)
    ensures TrimStart(w + y) == TrimStart(y)
  {
    if w != [] {
      assert (w + y)[0] == w[0] && IsSpace(w[0]);
      assert (w + y)[1..] == w[1..] + y;
      TrimStartSpaces(w[1..], y);
    } else {
      assert w + y == y;
    }
  }

  /** `trimStart` stops inside a text that ends with a visible character. */
  lemma {:induction false} TrimStartAppend(x: string, y: string)
    requires x != [] && !IsSpace(x[|x| - 1])
    ensures TrimStart(x + y) == TrimStart(x) + y
  {
    if IsSpace(x[0]) {
      assert (x + y)[1..] == x[1..] + y;
      TrimStartAppend(x[1..], y);
    }
  }

  /** `trimEnd` removes trailing white space back to the last word. */
  lemma {:induction false} TrimEndSpaces(m: string, v: string)
    requires m != [] && !IsSpace(m[|m| - 1]) && AllSpace(v)
    ensures TrimEnd(m + v) == m
  {
    if v != [] {
      var mv := m + v;
      assert mv[..|mv| - 1] == m + v[..|v| - 1];
      TrimEndSpaces(m, v[..|v| - 1]);
    } else {
      assert m + v == m;
    }
  }

  /** Trimming a word surrounded by white space gives the word. */
  lemma TrimAround(u: string, m: string, v: string)
    requires AllSpace(u) && Framed(m) && AllSpace(v)
    ensures Trim(u + m + v) == m
  {
    assert u + m + v == u + (m + v);
    TrimStartSpaces(u, m + v);
    assert TrimStart(m + v) == m + v;
    TrimEndSpaces(m, v);
  }

  /** White space followed by a word collapses to one space and the word's
      own collapse. */
  lemma CollapseAfterSpaces(w: string, y: string)
    requires w != [] && AllSpace(w) && (y == [] || !IsSpace(y[0]))
    ensures CollapseSpaces(w + y) == " " + CollapseSpaces(y)
  {
    assert (w + y)[0] == w[0];
    assert (w + y)[1..] == w[1..] + y;
    TrimStartSpaces(w[1..], y);
  }

  lemma ConcatAssoc<T>(a: seq<T>, b: seq<T>, c: seq<T>)
    ensures a + (b + c) == (a + b) + c
  {
  }

  /** One step of collapsing, at the first character. */
  lemma CollapseHead(s: string)
    requires s != []
    ensures CollapseSpaces(s) == if IsSpace(s[0]) then [' '] + CollapseSpaces(TrimStart(s[1..])) else [s[0]] + CollapseSpaces(s[1..])
  {
  }

  /** Collapsing distributes over a cut right after a visible character. */
  lemma {:induction false} CollapseAppend(x: string, y: string)
    requires x != [] && !IsSpace(x[|x| - 1])
    ensures CollapseSpaces(x + y) == CollapseSpaces(x) + CollapseSpaces(y)
    decreases |x|, 2
  {
    if IsSpace(x[0]) {
      CollapseAppendSpace(x, y);
    } else {
      CollapseAppendVisible(x, y);
    }
  }

  lemma {:induction false} CollapseAppendVisible(x: string, y: string)
    requires x != [] && !IsSpace(x[|x| - 1]) && !IsSpace(x[0])
    ensures CollapseSpaces(x + y) == CollapseSpaces(x) + CollapseSpaces(y)
    decreases |x|, 0
  {
    var xy := x + y;
    var rest := x[1..];
    assert xy[0] == x[0] && xy[1..] == rest + y;
    CollapseHead(xy);
    CollapseHead(x);
    var cy := CollapseSpaces(y);
    if rest == [] {
      assert rest + y == y;
      assert CollapseSpaces(xy) == [x[0]] + cy;
      assert CollapseSpaces(x) == [x[0]];
    } else {
      CollapseAppend(rest, y);
      var cr := CollapseSpaces(rest);
      assert CollapseSpaces(xy) == [x[0]] + (cr + cy);
      assert CollapseSpaces(x) == [x[0]] + cr;
      ConcatAssoc([x[0]], cr, cy);
    }
  }

  lemma {:induction false} CollapseAppendSpace(x: string, y: string)
    requires x != [] && !IsSpace(x[|x| - 1]) && IsSpace(x[0])
    ensures CollapseSpaces(x + y) == CollapseSpaces(x) + CollapseSpaces(y)
    decreases |x|, 0
  {
    var xy := x + y;
    var t := TrimStart(x[1..]);
    SpaceHeadAppend(x, y);
    CollapseHead(xy);
    CollapseHead(x);
    CollapseAppend(t, y);
    var ct := CollapseSpaces(t);
    var cy := CollapseSpaces(y);
    assert CollapseSpaces(xy) == [' '] + (ct + cy);
    assert CollapseSpaces(x) == [' '] + ct;
    ConcatAssoc([' '], ct, cy);
  }

  /** The run of white space after a leading space ends inside `x` when `x`
      ends visibly. */
  lemma SpaceHeadAppend(x: string, y: string)
    requires x != [] && !IsSpace(x[|x| - 1]) && IsSpace(x[0])
    ensures var t := TrimStart(x[1..]);
      t != [] && !IsSpace(t[|t| - 1]) && |t| < |x| && TrimStart((x + y)[1..]) == t + y
  {
    var rest := x[1..];
    assert (x + y)[1..] == rest + y;
    assert |x| > 1;
    assert rest[|rest| - 1] == x[|x| - 1];
    TrimStartAppend(rest, y);
    var t := TrimStart(rest);
    assert t != [] && t[|t| - 1] == x[|x| - 1] by {
      TrimStartDrops(rest);
    }
  }

  /** Collapsing a word framed by visible characters keeps both ends
      visible. */
  lemma {:induction false} CollapseFramed(x: string)
    requires x != [] && !IsSpace(x[|x| - 1])
    ensures var c := CollapseSpaces(x); c != [] && !IsSpace(c[|c| - 1])
    ensures !IsSpace(x[0]) ==> Framed(CollapseSpaces(x))
    decreases |x|
  {
    if IsSpace(x[0]) {
      var t := TrimStart(x[1..]);
      TrimStartDrops(x[1..]);
      assert t != [] && t[|t| - 1] == x[|x| - 1];
      CollapseFramed(t);
    } else if |x| > 1 {
      CollapseFramed(x[1..]);
    }
  }

  /** An infix of a collapsed string is collapsed as well. */
  lemma InfixKeeps(c: string, r: string, a: nat)
    requires a + |r| <= |c| && r == c[a..a + |r|]
    requires IsCollapsed(c)
    ensures IsCollapsed(r)
  {
    forall k | 0 <= k < |r|
      ensures r[k] == c[a + k]
    {
    }
    forall k
      ensures !SpacePairAt(r, k)
    {
      assert SpacePairAt(r, k) ==> SpacePairAt(c, a + k);
    }
  }

  /** `s.toLowerCase()` on ASCII letters; other characters are kept. */
  function ToLowerAscii(s: string): (r: string)
    ensures |r| == |s|
    ensures forall k :: 0 <= k < |r| ==> !IsAsciiUpper(r[k])
    ensures forall k :: 0 <= k < |r| ==> r[k] == s[k] || (IsAsciiUpper(s[k]) && r[k] as int == s[k] as int + 32)
  {
    if s == [] then []
    else
      var c := if IsAsciiUpper(s[0]) then (s[0] as int + 32) as char else s[0];
      [c] + ToLowerAscii(s[1..])
  }

  // ---------------------------------------------------------------------
  // Searching and splitting

  predicate OccursAt(s: string, pat: string, k: nat) {
    k + |pat| <= |s| && s[k..k + |pat|] == pat
  }

  /** `s.indexOf(pat, from)`, with `None` for -1. */
  function IndexOf(s: string, pat: string, from: nat): (r: Option<nat>)
    ensures r.Some? ==> from <= r.value && OccursAt(s, pat, r.value)
    ensures r.Some? ==> forall k :: from <= k < r.value ==> !OccursAt(s, pat, k)
    ensures r.None? ==> forall k :: from <= k ==> !OccursAt(s, pat, k)
    decreases |s| - from
  {
    if from + |pat| > |s| then None
    else if OccursAt(s, pat, from) then Some(from)
    else IndexOf(s, pat, from + 1)
  }

  /** `s.includes(pat)`. */
  predicate Includes(s: string, pat: string) {
    IndexOf(s, pat, 0).Some?
  }

  /** `includes` holds exactly when the pattern occurs somewhere. */
  lemma IncludesExactly(s: string, pat: string)
    ensures Includes(s, pat) <==> exists k: nat :: OccursAt(s, pat, k)
  {
    if Includes(s, pat) {
      assert OccursAt(s, pat, IndexOf(s, pat, 0).value);
    }
  }

  lemma IncludesAt(s: string, pat: string, k: nat)
    requires OccursAt(s, pat, k)
    ensures Includes(s, pat)
  {
  }

  /** `s.split(sep)[0]`: the text before the first occurrence of `sep`, or
      all of `s` when there is none. */
  function SplitHead(s: string, sep: string): (r: string)
    requires sep != []
    ensures |r| <= |s| && r == s[..|r|]
    ensures Includes(s, sep) <==> |r| < |s|
    ensures forall k :: 0 <= k < |r| ==> !OccursAt(s, sep, k)
    ensures |r| < |s| ==> OccursAt(s, sep, |r|)
  {
    match IndexOf(s, sep, 0)
    case None => s
    case Some(i) => s[..i]
  }

  /** `s.split(sep)[1]`: the text between the first and the second
      occurrence of `sep` (or the end of `s`); `None` (undefined) when
      `sep` does not occur in `s`. */
  function SplitSecond(s: string, sep: string): (r: Option<string>)
    requires sep != []
    ensures r.Some? <==> Includes(s, sep)
    ensures r.Some? ==>
      var start := IndexOf(s, sep, 0).value + |sep|;
      && start + |r.value| <= |s|
      && r.value == s[start..start + |r.value|]
      && (forall k :: start <= k < start + |r.value| ==> !OccursAt(s, sep, k))
      && (start + |r.value| == |s| || OccursAt(s, sep, start + |r.value|))
  {
    match IndexOf(s, sep, 0)
    case None => None
    case Some(i) =>
      var rest := i + |sep|;
      match IndexOf(s, sep, rest)
      case None => Some(s[rest..])
      case Some(j) => Some(s[rest..j])
  }

  /** `s.replace(pat, rep)` with a string pattern: only the first occurrence
      is replaced. */
  function ReplaceFirst(s: string, pat: string, rep: string): (r: string)
    ensures !Includes(s, pat) ==> r == s
    ensures OccursAt(s, pat, 0) ==> r == rep + s[|pat|..]
    ensures forall i: nat :: OccursAt(s, pat, i) && (forall k :: 0 <= k < i ==> !OccursAt(s, pat, k)) ==>
      r == s[..i] + rep + s[i + |pat|..]
  {
    match IndexOf(s, pat, 0)
    case None => s
    case Some(i) => s[..i] + rep + s[i + |pat|..]
  }

  /** `a || b` on strings: the first operand unless it is empty. */
  function Or(a: string, b: string): (r: string)
    ensures a != [] ==> r == a
    ensures a == [] ==> r == b
  {
    if a != [] then a else b
  }

  predicate StartsWith(s: string, prefix: string) {
    OccursAt(s, prefix, 0)
  }

  // ---------------------------------------------------------------------
  // Arrays

  /** `xs.slice(0, end)` for an integer `end`; a negative end counts from
      the back. */
  function SliceTo<T>(xs: seq<T>, end: int): (r: seq<T>)
    ensures |r| <= |xs| && r == xs[..|r|]
    ensures end >= 0 ==> |r| == if end < |xs| then end else |xs|
    ensures end < 0 ==> |r| == if |xs| + end > 0 then |xs| + end else 0
  {
    if end >= 0 then (if end < |xs| then xs[..end] else xs)
    else if |xs| + end > 0 then xs[..|xs| + end] else []
  }

  /** `xs.map(f)`. */
  function Map<T, U>(xs: seq<T>, f: T -> U): (r: seq<U>)
    ensures |r| == |xs| && forall k :: 0 <= k < |xs| ==> r[k] == f(xs[k])
  {
    seq(|xs|, k requires 0 <= k < |xs| => f(xs[k]))
  }

  /** `xs.filter(p)`. */
  function Filter<T(==)>(xs: seq<T>, p: T -> bool): (r: seq<T>)
    ensures |r| <= |xs|
    ensures forall k :: 0 <= k < |r| ==> r[k] in xs && p(r[k])
    ensures forall k :: 0 <= k < |xs| && p(xs[k]) ==> xs[k] in r
    ensures IsSubsequence(r, xs)
  {
    if xs == [] then []
    else if p(xs[0]) then [xs[0]] + Filter(xs[1..], p)
    else Filter(xs[1..], p)
  }

  /** `filter` keeps every passing element as often as it occurs, and
      drops every other one. */
  lemma {:induction false} FilterCount<T>(xs: seq<T>, p: T -> bool, x: T)
    ensures multiset(Filter(xs, p))[x] == if p(x) then multiset(xs)[x] else 0
  {
    if xs != [] {
      FilterCount(xs[1..], p, x);
      assert xs == [xs[0]] + xs[1..];
      assert multiset(xs) == multiset{xs[0]} + multiset(xs[1..]);
      if p(xs[0]) {
        assert multiset(Filter(xs, p)) == multiset{xs[0]} + multiset(Filter(xs[1..], p));
      }
    }
  }

  /** `a` is `b` with some elements left out and the rest in order. */
  predicate IsSubsequence<T(==)>(a: seq<T>, b: seq<T>)
    decreases |b|
  {
    a == [] || (b != [] && ((a[0] == b[0] && IsSubsequence(a[1..], b[1..])) || IsSubsequence(a, b[1..])))
  }

  lemma {:induction false} SubsequencePrefix<T>(a: seq<T>, b: seq<T>, n: nat)
    requires IsSubsequence(a, b) && n <= |a|
    ensures IsSubsequence(a[..n], b)
    decreases |b|
  {
    if n > 0 {
      if a[0] == b[0] && IsSubsequence(a[1..], b[1..]) {
        SubsequencePrefix(a[1..], b[1..], n - 1);
        assert a[..n][1..] == a[1..][..n - 1];
      } else {
        SubsequencePrefix(a, b[1..], n);
      }
    }
  }

  lemma {:induction false} SubsequenceTransitive<T>(a: seq<T>, b: seq<T>, c: seq<T>)
    requires IsSubsequence(a, b) && IsSubsequence(b, c)
    ensures IsSubsequence(a, c)
    decreases |c|
  {
    if a != [] {
      if b[0] == c[0] && IsSubsequence(b[1..], c[1..]) {
        if a[0] == b[0] && IsSubsequence(a[1..], b[1..]) {
          SubsequenceTransitive(a[1..], b[1..], c[1..]);
        } else {
          SubsequenceTransitive(a, b[1..], c[1..]);
        }
      } else {
        SubsequenceTransitive(a, b, c[1..]);
      }
    }
  }

  // ---------------------------------------------------------------------
  // Numbers as decimal text

  function DigitChar(d: nat): (c: char)
    requires d < 10
    ensures IsDigit(c)
  {
    ['0', '1', '2', '3', '4', '5', '6', '7', '8', '9'][d]
  }

  function DigitValue(c: char): (d: nat)
    requires IsDigit(c)
    ensures d < 10 && DigitChar(d) == c
  {
    (c as int - '0' as int) as nat
  }

  /** `String(n)` for a non-negative integer. */
  function Decimal(n: nat): (s: string)
    ensures s != [] && forall k :: 0 <= k < |s| ==> IsDigit(s[k])
  {
    if n < 10 then [DigitChar(n)] else Decimal(n / 10) + [DigitChar(n % 10)]
  }

  /** The number written by a string of decimal digits (`parseInt` without
      overflow); 0 for the empty string. */
  function DigitsValue(ds: string): nat
    requires forall k :: 0 <= k < |ds| ==> IsDigit(ds[k])
  {
    if ds == [] then 0 else DigitsValue(ds[..|ds| - 1]) * 10 + DigitValue(ds[|ds| - 1])
  }

  /** Reading back the decimal text of a number gives the number. */
  lemma {:induction false} DecimalRoundTrip(n: nat)
    ensures DigitsValue(Decimal(n)) == n
  {
    if n >= 10 {
      DecimalRoundTrip(n / 10);
      var s := Decimal(n);
      assert s[..|s| - 1] == Decimal(n / 10);
    }
  }
}
