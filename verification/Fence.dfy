/** The UNTRUSTED fence around user text in model prompts: one regular-expression pass replaces
    fence-shaped tags, then a nonce-named pair is wrapped around the result. */
module Fence {
  import opened Json

  /** `\s` on text: ASCII white space, the information separators and the Unicode spaces. */
  predicate IsSpace(c: char) {
    var n := c as int;
    || 9 <= n <= 13 || 28 <= n <= 32 || n == 0x85 || n == 0xA0 || n == 0x1680 || 0x2000 <= n <= 0x200A
    || n == 0x2028 || n == 0x2029 || n == 0x202F || n == 0x205F || n == 0x3000
  }

  /** What is used of `\w`: it excludes white space and the markup characters, and has the hex digits. */
  ghost predicate WordClass(w: char -> bool) {
    && (forall c :: w(c) ==> !IsSpace(c) && c != '<' && c != '>' && c != '/' && c != '[' && c != ']')
    && (forall c :: '0' <= c <= '9' || 'a' <= c <= 'f' ==> w(c))
  }

  /** `[-\w]` */
  predicate Tail(w: char -> bool, c: char) {
    c == '-' || w(c)
  }

  const KEYWORD := "UNTRUSTED"
  const REPLACEMENT := "[fence-tag stripped]"

  /** IGNORECASE on an upper-case letter; the long s folds to S. */
  predicate Folds(c: char, upper: char) {
    c == upper || c as int == upper as int + 32 || (upper == 'S' && c as int == 0x17F)
  }

  predicate KeywordAt(s: string, j: nat) {
    j + 9 <= |s| && forall x :: 0 <= x < 9 ==> Folds(s[j + x], KEYWORD[x])
  }

  // ---- the grammar -----------------------------------------------------------------

  /** t is '<', a slash or not, spaces up to j, the keyword, tail characters up to k, spaces, '>'. */
  ghost predicate TagAt(w: char -> bool, t: string, i: nat, j: nat, k: nat) {
    && i <= j && j + 9 <= k < |t|
    && t[0] == '<' && (i == 1 || (i == 2 && t[1] == '/'))
    && (forall x :: i <= x < j ==> IsSpace(t[x]))
    && KeywordAt(t, j)
    && (forall x :: j + 9 <= x < k ==> Tail(w, t[x]))
    && (forall x :: k <= x < |t| - 1 ==> IsSpace(t[x]))
    && t[|t| - 1] == '>'
  }

  ghost predicate IsTag(w: char -> bool, t: string) {
    exists i: nat, j: nat, k: nat :: TagAt(w, t, i, j, k)
  }

  ghost predicate TagFree(w: char -> bool, s: string) {
    forall i, j :: 0 <= i <= j <= |s| ==> !IsTag(w, s[i..j])
  }

  // ---- the matcher and the pass ------------------------------------------------------

  function SkipSpaces(s: string, i: nat): (j: nat)
    requires i <= |s|
    ensures i <= j <= |s|
    decreases |s| - i
  {
    if i < |s| && IsSpace(s[i]) then SkipSpaces(s, i + 1) else i
  }

  function SkipTail(w: char -> bool, s: string, i: nat): (j: nat)
    requires i <= |s|
    ensures i <= j <= |s|
    decreases |s| - i
  {
    if i < |s| && Tail(w, s[i]) then SkipTail(w, s, i + 1) else i
  }

  /** Length of the tag at the start of s, taking every run greedily. */
  function MatchLen(w: char -> bool, s: string): (r: Option<nat>)
    ensures r.Some? ==> 0 < r.value <= |s|
  {
    if s == "" || s[0] != '<' then None
    else
      var i := if |s| > 1 && s[1] == '/' then 2 else 1;
      var j := SkipSpaces(s, i);
      if !KeywordAt(s, j) then None
      else
        var m := SkipSpaces(s, SkipTail(w, s, j + 9));
        if m < |s| && s[m] == '>' then Some(m + 1) else None
  }

  function Strip(w: char -> bool, s: string): string
    decreases |s|
  {
    if s == "" then ""
    else match MatchLen(w, s)
      case Some(n) => REPLACEMENT + Strip(w, s[n..])
      case None => [s[0]] + Strip(w, s[1..])
  }

  function Fenced(w: char -> bool, text: string, nonce: string): string {
    "<UNTRUSTED-" + nonce + ">\n" + Strip(w, text) + "\n</UNTRUSTED-" + nonce + ">"
  }

  // ---- the greedy matcher is exact -----------------------------------------------------

  lemma {:induction false} SpacesRun(s: string, i: nat)
    requires i <= |s|
    ensures forall x :: i <= x < SkipSpaces(s, i) ==> IsSpace(s[x])
    ensures SkipSpaces(s, i) < |s| ==> !IsSpace(s[SkipSpaces(s, i)])
    decreases |s| - i
  {
    if i < |s| && IsSpace(s[i]) {
      SpacesRun(s, i + 1);
    }
  }

  lemma {:induction false} TailRun(w: char -> bool, s: string, i: nat)
    requires i <= |s|
    ensures forall x :: i <= x < SkipTail(w, s, i) ==> Tail(w, s[x])
    ensures SkipTail(w, s, i) < |s| ==> !Tail(w, s[SkipTail(w, s, i)])
    decreases |s| - i
  {
    if i < |s| && Tail(w, s[i]) {
      TailRun(w, s, i + 1);
    }
  }

  lemma SpacesEnd(s: string, i: nat, j: nat)
    requires i <= j < |s| && (forall x :: i <= x < j ==> IsSpace(s[x])) && !IsSpace(s[j])
    ensures SkipSpaces(s, i) == j
  {
    SpacesRun(s, i);
  }

  lemma TailEnd(w: char -> bool, s: string, i: nat, j: nat)
    requires i <= j < |s| && (forall x :: i <= x < j ==> Tail(w, s[x])) && !Tail(w, s[j])
    ensures SkipTail(w, s, i) == j
  {
    TailRun(w, s, i);
  }

  /** A match is a tag. */
  lemma MatchIsTag(w: char -> bool, s: string)
    requires MatchLen(w, s).Some?
    ensures IsTag(w, s[..MatchLen(w, s).value])
  {
    var n := MatchLen(w, s).value;
    var i := if |s| > 1 && s[1] == '/' then 2 else 1;
    var j := SkipSpaces(s, i);
    var k := SkipTail(w, s, j + 9);
    SpacesRun(s, i);
    TailRun(w, s, j + 9);
    SpacesRun(s, k);
    assert TagAt(w, s[..n], i, j, k);
  }

  /** Every tag at the start is matched, with its own length: the grammar is unambiguous. */
  lemma TagIsMatched(w: char -> bool, s: string, n: nat)
    requires WordClass(w) && n <= |s| && IsTag(w, s[..n])
    ensures MatchLen(w, s) == Some(n)
  {
    var i: nat, j: nat, k: nat :| TagAt(w, s[..n], i, j, k);
    TagWithin(w, s, n, i, j, k);
    hide KeywordAt, WordClass, TagAt, IsTag, SkipSpaces, SkipTail, IsSpace, Tail;
    SpacesEnd(s, i, j);
    TailEnd(w, s, j + 9, k);
    SpacesEnd(s, k, n - 1);
  }

  /** The parts of a tag at the start of s, and what ends each run of them. */
  lemma TagWithin(w: char -> bool, s: string, n: nat, i: nat, j: nat, k: nat)
    requires WordClass(w) && n <= |s| && TagAt(w, s[..n], i, j, k)
    ensures 1 <= i <= j < j + 9 <= k < n && s[0] == '<' && KeywordAt(s, j) && s[n - 1] == '>'
    ensures i == if |s| > 1 && s[1] == '/' then 2 else 1
    ensures (forall x :: i <= x < j ==> IsSpace(s[x])) && !IsSpace(s[j])
    ensures (forall x :: j + 9 <= x < k ==> Tail(w, s[x])) && !Tail(w, s[k])
    ensures (forall x :: k <= x < n - 1 ==> IsSpace(s[x])) && !IsSpace(s[n - 1])
  {
    var t := s[..n];
    assert forall x :: 0 <= x < n ==> t[x] == s[x];
    forall x | 0 <= x < 9 ensures Folds(s[j + x], KEYWORD[x]) {
      assert Folds(t[j + x], KEYWORD[x]);
    }
    assert Folds(s[j + 0], KEYWORD[0]) && KEYWORD[0] == 'U';
  }

  lemma Unmatched(w: char -> bool, s: string, n: nat)
    requires WordClass(w) && n <= |s| && MatchLen(w, s).None?
    ensures !IsTag(w, s[..n])
  {
    if IsTag(w, s[..n]) {
      TagIsMatched(w, s, n);
    }
  }

  /** A tag is at least eleven characters, opens and closes with its only angle brackets, and has no
      square bracket. */
  ghost predicate TagLike(t: string) {
    && |t| >= 11 && t[0] == '<' && t[|t| - 1] == '>'
    && (forall x :: 0 < x < |t| ==> t[x] != '<')
    && (forall x :: 0 <= x < |t| - 1 ==> t[x] != '>')
    && '[' !in t
  }

  lemma TagChars(w: char -> bool, t: string)
    requires WordClass(w)
    ensures IsTag(w, t) ==> TagLike(t)
  {
    if IsTag(w, t) {
      var i: nat, j: nat, k: nat :| TagAt(w, t, i, j, k);
      forall x | 0 < x < |t| - 1 ensures t[x] != '<' && t[x] != '[' && t[x] != '>' {
        if j <= x < j + 9 {
          assert Folds(t[j + (x - j)], KEYWORD[x - j]);
        }
      }
    }
  }

  // ---- which texts are tags ----------------------------------------------------------------

  /** The keyword with each letter in either case. */
  ghost predicate Spelling(key: string) {
    |key| == 9 && forall x :: 0 <= x < 9 ==> key[x] == "UNTRUSTED"[x] || key[x] == "untrusted"[x]
  }

  /** White space of any kind, by code point. */
  ghost predicate Blanks(s: string) {
    forall x :: 0 <= x < |s| ==>
      s[x] as int in {9, 10, 11, 12, 13, 28, 29, 30, 31, 32, 0x85, 0xA0, 0x1680, 0x2000, 0x2001, 0x2002, 0x2003, 0x2004,
                      0x2005, 0x2006, 0x2007, 0x2008, 0x2009, 0x200A, 0x2028, 0x2029, 0x202F, 0x205F, 0x3000}
  }

  /** Opening or closing, blanks before the keyword, the keyword in any case, any word characters and
      hyphens, blanks before the end: all of it is a tag, and is stripped. */
  lemma AnyCaseIsStripped(w: char -> bool, slash: bool, before: string, key: string, tail: string, after: string)
    requires WordClass(w) && Blanks(before) && Spelling(key) && Blanks(after)
    requires forall x :: 0 <= x < |tail| ==> tail[x] == '-' || w(tail[x])
    ensures var t := (if slash then "</" else "<") + before + key + tail + after + ">";
      IsTag(w, t) && Strip(w, t) == "[fence-tag stripped]"
  {
    var open := if slash then "</" else "<";
    var t := open + before + key + tail + after + ">";
    var i, j := |open|, |open| + |before|;
    var k := j + 9 + |tail|;
    forall x | i <= x < j ensures t[x] == before[x - i] {
    }
    forall x | 0 <= x < 9 ensures t[j + x] == key[x] {
    }
    forall x | j + 9 <= x < k ensures t[x] == tail[x - j - 9] {
    }
    forall x | k <= x < |t| - 1 ensures t[x] == after[x - k] {
    }
    SpelledKeyword(t, j, key);
    assert TagAt(w, t, i, j, k);
    assert t[..|t|] == t && t[|t|..] == "";
    TagIsMatched(w, t, |t|);
    hide TagAt, IsTag, MatchLen, Blanks, Spelling, WordClass;
    StripUnroll(w, t);
    StripEmpty(w);
  }

  lemma SpelledKeyword(t: string, j: nat, key: string)
    requires Spelling(key) && j + 9 <= |t| && forall x :: 0 <= x < 9 ==> t[j + x] == key[x]
    ensures KeywordAt(t, j)
  {
    forall x | 0 <= x < 9 ensures Folds(t[j + x], KEYWORD[x]) {
      assert "untrusted"[x] as int == "UNTRUSTED"[x] as int + 32;
    }
  }

  // ---- stripped text is tag-free ---------------------------------------------------------

  lemma StripUnroll(w: char -> bool, s: string)
    requires s != ""
    ensures match MatchLen(w, s)
      case Some(n) => Strip(w, s) == REPLACEMENT + Strip(w, s[n..]) && Strip(w, s)[0] == '['
      case None => Strip(w, s) == [s[0]] + Strip(w, s[1..])
  {
  }

  /** Up to the first square bracket, stripping has changed nothing. */
  lemma {:induction false} PlainPrefix(w: char -> bool, s: string, n: nat)
    requires n <= |Strip(w, s)| && '[' !in Strip(w, s)[..n]
    ensures n <= |s| && Strip(w, s)[..n] == s[..n]
    decreases |s|
  {
    if n > 0 && MatchLen(w, s).None? {
      hide MatchLen;
      var out, rest := Strip(w, s), Strip(w, s[1..]);
      assert rest[..n - 1] == out[..n][1..];
      PlainPrefix(w, s[1..], n - 1);
      assert s[..n] == [s[0]] + s[1..][..n - 1];
    } else if n > 0 {
      hide MatchLen;
      StripUnroll(w, s);
    }
  }

  lemma {:induction false} NoTagLeft(w: char -> bool, s: string, i: nat, j: nat)
    requires WordClass(w) && i <= j <= |Strip(w, s)|
    ensures !IsTag(w, Strip(w, s)[i..j])
    decreases |s|
  {
    hide MatchLen, IsTag, Strip;
    var out := Strip(w, s);
    TagChars(w, out[i..j]);
    if s == "" {
      StripEmpty(w);
    } else {
      StripUnroll(w, s);
      match MatchLen(w, s)
      case Some(n) =>
        var rest, r := Strip(w, s[n..]), |REPLACEMENT|;
        if i < r {
          assert i < j ==> out[i..j][0] == REPLACEMENT[i];
        } else {
          NoTagLeft(w, s[n..], i - r, j - r);
          assert out[i..j] == rest[i - r..j - r];
        }
      case None =>
        if i > 0 {
          NoTagLeft(w, s[1..], i - 1, j - 1);
          assert out[i..j] == Strip(w, s[1..])[i - 1..j - 1];
        } else {
          assert out[i..j] == out[..j];
          if '[' !in out[..j] {
            PlainPrefix(w, s, j);
            Unmatched(w, s, j);
          }
        }
    }
  }

  lemma StripEmpty(w: char -> bool)
    ensures Strip(w, "") == ""
  {
  }

  lemma StrippedIsTagFree(w: char -> bool, s: string)
    requires WordClass(w)
    ensures TagFree(w, Strip(w, s))
  {
    forall i, j | 0 <= i <= j <= |Strip(w, s)| ensures !IsTag(w, Strip(w, s)[i..j]) {
      NoTagLeft(w, s, i, j);
    }
  }

  lemma NoMatchInTagFree(w: char -> bool, s: string)
    requires TagFree(w, s)
    ensures MatchLen(w, s).None?
  {
    hide MatchLen;
    if MatchLen(w, s).Some? {
      var n := MatchLen(w, s).value;
      assert s[0..n] == s[..n];
      MatchIsTag(w, s);
    }
  }

  lemma {:induction false} TagFreeUnchanged(w: char -> bool, s: string)
    requires TagFree(w, s)
    ensures Strip(w, s) == s
    decreases |s|
  {
    hide MatchLen, IsTag;
    if s == "" {
    } else {
      NoMatchInTagFree(w, s);
      assert TagFree(w, s[1..]) by {
        forall i, j | 0 <= i <= j <= |s| - 1 ensures !IsTag(w, s[1..][i..j]) {
          assert s[1..][i..j] == s[i + 1..j + 1];
        }
      }
      TagFreeUnchanged(w, s[1..]);
      assert s == [s[0]] + s[1..];
    }
  }

  lemma StripIdempotent(w: char -> bool, s: string)
    requires WordClass(w)
    ensures Strip(w, Strip(w, s)) == Strip(w, s)
  {
    StrippedIsTagFree(w, s);
    TagFreeUnchanged(w, Strip(w, s));
  }

  // ---- nothing but tags is touched ---------------------------------------------------------

  function Weave(gaps: seq<string>, seps: seq<string>): string
    requires |gaps| == |seps| + 1
  {
    if seps == [] then gaps[0] else gaps[0] + seps[0] + Weave(gaps[1..], seps[1..])
  }

  lemma WeaveFront(c: string, gaps: seq<string>, seps: seq<string>)
    requires |gaps| == |seps| + 1
    ensures Weave([c + gaps[0]] + gaps[1..], seps) == c + Weave(gaps, seps)
  {
    var longer := [c + gaps[0]] + gaps[1..];
    assert longer[1..] == gaps[1..];
    if seps != [] {
      assert longer[0] + seps[0] + Weave(gaps[1..], seps[1..]) == c + (gaps[0] + seps[0] + Weave(gaps[1..], seps[1..]));
    }
  }

  function Replacements(n: nat): (rs: seq<string>)
    ensures |rs| == n
  {
    if n == 0 then [] else [REPLACEMENT] + Replacements(n - 1)
  }

  lemma WeaveCons(sep: string, gaps: seq<string>, seps: seq<string>)
    requires |gaps| == |seps| + 1
    ensures Weave([""] + gaps, [sep] + seps) == sep + Weave(gaps, seps)
  {
    assert ([""] + gaps)[1..] == gaps && ([sep] + seps)[1..] == seps;
    assert "" + sep == sep;
  }

  lemma WeaveOne()
    ensures Replacements(0) == [] && Weave([""], []) == ""
  {
  }

  lemma MoreReplacements(n: nat)
    ensures Replacements(n + 1) == [REPLACEMENT] + Replacements(n)
  {
  }

  /** The text is a weave of gaps and tags, and the output the same weave with every tag replaced. */
  lemma {:induction false} OnlyTagsReplaced(w: char -> bool, s: string) returns (gaps: seq<string>, tags: seq<string>)
    ensures |gaps| == |tags| + 1 && Weave(gaps, tags) == s
    ensures Weave(gaps, Replacements(|tags|)) == Strip(w, s)
    ensures forall i :: 0 <= i < |tags| ==> IsTag(w, tags[i])
    decreases |s|
  {
    hide MatchLen, IsTag, Strip, Weave, Replacements;
    if s == "" {
      gaps, tags := [""], [];
      StripEmpty(w);
      WeaveOne();
    } else {
      StripUnroll(w, s);
      match MatchLen(w, s)
      case Some(n) =>
        MatchIsTag(w, s);
        var gs, ts := OnlyTagsReplaced(w, s[n..]);
        gaps, tags := [""] + gs, [s[..n]] + ts;
        WeaveCons(s[..n], gs, ts);
        WeaveCons(REPLACEMENT, gs, Replacements(|ts|));
        MoreReplacements(|ts|);
        assert s == s[..n] + s[n..];
      case None =>
        var gs, ts := OnlyTagsReplaced(w, s[1..]);
        gaps, tags := [[s[0]] + gs[0]] + gs[1..], ts;
        WeaveFront([s[0]], gs, ts);
        WeaveFront([s[0]], gs, Replacements(|ts|));
        assert s == [s[0]] + s[1..];
    }
  }

  // ---- the fenced text ---------------------------------------------------------------------

  ghost predicate Hex(nonce: string) {
    forall i :: 0 <= i < |nonce| ==> '0' <= nonce[i] <= '9' || 'a' <= nonce[i] <= 'f'
  }

  function Open(nonce: string): string {
    "<UNTRUSTED-" + nonce + ">"
  }

  function Close(nonce: string): string {
    "</UNTRUSTED-" + nonce + ">"
  }

  lemma OuterTags(w: char -> bool, nonce: string)
    requires WordClass(w) && Hex(nonce)
    ensures IsTag(w, Open(nonce)) && IsTag(w, Close(nonce))
  {
    var o, c := Open(nonce), Close(nonce);
    forall x | 0 <= x < 9 ensures o[1 + x] == KEYWORD[x] && c[2 + x] == KEYWORD[x] {
    }
    forall x | 11 <= x < |o| - 1 ensures o[x] == nonce[x - 11] {
    }
    forall x | 12 <= x < |c| - 1 ensures c[x] == nonce[x - 12] {
    }
    assert TagAt(w, o, 1, 1, |o| - 1);
    assert TagAt(w, c, 2, 2, |c| - 1);
  }

  /** In x + y + z, with y tag-free and the outer '<' known, tags start only at those two places. */
  lemma TagPlace(w: char -> bool, x: string, y: string, z: string, i: nat, j: nat)
    requires WordClass(w) && TagFree(w, y) && i <= j <= |x + y + z| && i != 0 && i != |x| + |y| + 1
    requires forall k :: 0 < k < |x| ==> x[k] != '<'
    requires |z| > 1 && z[0] != '>' && z[1] == '<' && (forall k :: 0 <= k < |z| && k != 1 ==> z[k] != '<')
    ensures !IsTag(w, (x + y + z)[i..j])
  {
    hide IsTag, WordClass, TagFree;
    var s, k := x + y + z, |x| + |y| + 1;
    assert s[k] == z[1] && s[k - 1] == z[0];
    if i == j {
      NoTagStart(w, s[i..j]);
    } else if |x| <= i < |x| + |y| {
      if j <= |x| + |y| {
        assert s[i..j] == y[i - |x|..j - |x|];
        NoTagWithin(w, y, i - |x|, j - |x|);
      } else if j == k {
        assert s[i..j][j - i - 1] == z[0];
        NoTagEnd(w, s[i..j]);
      } else {
        assert s[i..j][k - i] == '<';
        NoTagInside(w, s[i..j], k - i);
      }
    } else {
      assert s[i..j][0] == s[i] == if i < |x| then x[i] else z[i - |x| - |y|];
      NoTagStart(w, s[i..j]);
    }
  }

  lemma NoTagStart(w: char -> bool, t: string)
    requires WordClass(w) && (t == "" || t[0] != '<')
    ensures !IsTag(w, t)
  {
    hide IsTag, WordClass;
    TagChars(w, t);
  }

  lemma NoTagInside(w: char -> bool, t: string, k: nat)
    requires WordClass(w) && 0 < k < |t| && t[k] == '<'
    ensures !IsTag(w, t)
  {
    hide IsTag, WordClass;
    TagChars(w, t);
  }

  lemma NoTagEnd(w: char -> bool, t: string)
    requires WordClass(w) && t != "" && t[|t| - 1] != '>'
    ensures !IsTag(w, t)
  {
    hide IsTag, WordClass;
    TagChars(w, t);
  }

  lemma NoTagWithin(w: char -> bool, y: string, i: nat, j: nat)
    requires TagFree(w, y) && i <= j <= |y|
    ensures !IsTag(w, y[i..j])
  {
    hide IsTag;
  }

  /** Two tags starting at one place are the same. */
  lemma UniqueEnd(w: char -> bool, s: string, i: nat, n: nat, j: nat)
    requires WordClass(w) && i <= j <= |s| && i + n <= |s| && IsTag(w, s[i..i + n])
    ensures IsTag(w, s[i..j]) <==> j == i + n
  {
    hide IsTag, MatchLen;
    assert s[i..][..n] == s[i..i + n] && s[i..][..j - i] == s[i..j];
    TagIsMatched(w, s[i..], n);
    if IsTag(w, s[i..j]) {
      TagIsMatched(w, s[i..], j - i);
    }
  }

  lemma Ends(x: string, y: string, z: string)
    ensures var s := x + y + z;
      && s[0..|x|] == x && s[..|x|] == x && s[|s| - |z|..] == z && s[|s| - |z|..|s|] == z
  {
  }

  /** The fenced text contains exactly two tags, the opening and the closing one it was given. */
  lemma ExactlyTwoTags(w: char -> bool, text: string, nonce: string)
    requires WordClass(w) && Hex(nonce)
    ensures var s, n, m := Fenced(w, text, nonce), |Open(nonce)|, |Close(nonce)|;
      && Open(nonce) == "<UNTRUSTED-" + nonce + ">" && Close(nonce) == "</UNTRUSTED-" + nonce + ">"
      && s == Open(nonce) + "\n" + Strip(w, text) + ("\n" + Close(nonce))
      && n <= |s| && s[..n] == Open(nonce) && m <= |s| && s[|s| - m..] == Close(nonce)
      && forall i, j :: 0 <= i <= j <= |s| ==>
           (IsTag(w, s[i..j]) <==> (i == 0 && j == n) || (i == |s| - m && j == |s|))
  {
    hide IsTag, Strip, WordClass, Hex, TagFree;
    OuterTags(w, nonce);
    StrippedIsTagFree(w, text);
    var o, c := Open(nonce), Close(nonce);
    assert Fenced(w, text, nonce) == o + "\n" + Strip(w, text) + ("\n" + c);
    TwoTags(w, o, Strip(w, text), c);
  }

  lemma TwoTags(w: char -> bool, o: string, safe: string, c: string)
    requires WordClass(w) && IsTag(w, o) && IsTag(w, c) && TagFree(w, safe)
    ensures var s := o + "\n" + safe + ("\n" + c);
      && s[..|o|] == o && s[|s| - |c|..] == c
      && forall i, j :: 0 <= i <= j <= |s| ==>
           (IsTag(w, s[i..j]) <==> (i == 0 && j == |o|) || (i == |s| - |c| && j == |s|))
  {
    hide IsTag, WordClass, TagFree;
    var x, z := o + "\n", "\n" + c;
    var s := x + safe + z;
    Ends(o, "\n" + safe + "\n", c);
    assert s == o + ("\n" + safe + "\n") + c;
    TagChars(w, o);
    TagChars(w, c);
    assert forall k :: 0 < k < |x| ==> x[k] != '<';
    assert z[1] == '<' && forall k :: 0 <= k < |z| && k != 1 ==> z[k] != '<';
    hide TagLike;
    forall i, j | 0 <= i <= j <= |s|
      ensures IsTag(w, s[i..j]) <==> (i == 0 && j == |o|) || (i == |s| - |c| && j == |s|)
    {
      if i == 0 {
        UniqueEnd(w, s, 0, |o|, j);
      } else if i == |s| - |c| {
        UniqueEnd(w, s, i, |c|, j);
      } else {
        TagPlace(w, x, safe, z, i, j);
      }
    }
  }
}
