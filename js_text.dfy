/** The string helpers of the editor front end (`resources/js/utils/text.js`):
    slugs, truncation, HTML tag stripping, counting and image extraction.
    Strings are sequences of characters; JavaScript measures them in UTF-16
    code units, which agrees for every character below U+10000. */
module JsText {
  import opened Common
  import Decimal

  // ------------------------------------------------------------ characters

  /** The white space `\s` matches and `trim` removes: the ECMAScript white
      space and line terminator characters. */
  predicate IsSpace(c: char) {
    c == '\t' || c == '\n' || c == '\U{000B}' || c == '\U{000C}' || c == '\r' || c == ' ' ||
    c == '\U{00A0}' || c == '\U{1680}' || ('\U{2000}' <= c <= '\U{200A}') ||
    c == '\U{2028}' || c == '\U{2029}' || c == '\U{202F}' || c == '\U{205F}' ||
    c == '\U{3000}' || c == '\U{FEFF}'
  }

  /** The CJK range the source tests with `[一-龥]`. */
  predicate IsHan(c: char) {
    '\U{4E00}' <= c <= '\U{9FA5}'
  }

  predicate IsUpper(c: char) {
    'A' <= c <= 'Z'
  }

  predicate IsAsciiLetter(c: char) {
    'a' <= c <= 'z' || IsUpper(c)
  }

  /** `\w`: an ASCII letter, a digit or `_`. */
  predicate IsWordChar(c: char) {
    IsAsciiLetter(c) || ('0' <= c <= '9') || c == '_'
  }

  /** The characters a slug from Latin text may hold. */
  predicate IsSlugChar(c: char) {
    'a' <= c <= 'z' || ('0' <= c <= '9') || c == '_' || c == '-'
  }

  /** `toLowerCase` on ASCII letters. */
  function Lower(c: char): (d: char)
    ensures !IsUpper(d)
    ensures !IsUpper(c) ==> d == c
  {
    if IsUpper(c) then (c as int + 32) as char else c
  }

  function ToLower(s: string): (r: string)
    ensures |r| == |s|
    ensures forall i :: 0 <= i < |r| ==> r[i] == Lower(s[i]) && !IsUpper(r[i])
  {
    seq(|s|, i requires 0 <= i < |s| => Lower(s[i]))
  }

  function TrimStart(s: string): (r: string)
    ensures |r| <= |s| && r == s[|s| - |r|..]
    ensures r == [] || !IsSpace(r[0])
    ensures (s == [] || !IsSpace(s[0])) ==> r == s
  {
    if |s| > 0 && IsSpace(s[0]) then TrimStart(s[1..]) else s
  }

  function TrimEnd(s: string): (r: string)
    ensures |r| <= |s| && r == s[..|r|]
    ensures r == [] || !IsSpace(r[|r| - 1])
    ensures (s == [] || !IsSpace(s[|s| - 1])) ==> r == s
    ensures s != [] && !IsSpace(s[0]) ==> r != []
  {
    if |s| > 0 && IsSpace(s[|s| - 1]) then TrimEnd(s[..|s| - 1]) else s
  }

  /** `trim`: white space goes from both ends and nothing else changes. */
  function Trim(s: string): (r: string)
    ensures r == [] || (!IsSpace(r[0]) && !IsSpace(r[|r| - 1]))
    ensures forall i :: 0 <= i < |r| ==> r[i] in s
    ensures (forall i :: 0 <= i < |s| ==> !IsSpace(s[i])) ==> r == s
  {
    var t := TrimStart(s);
    var r := TrimEnd(t);
    assert forall i :: 0 <= i < |r| ==> r[i] == s[|s| - |t| + i];
    r
  }

  lemma {:induction false} TrimStartEmpty(s: string)
    ensures TrimStart(s) == [] <==> forall i :: 0 <= i < |s| ==> IsSpace(s[i])
  {
    if |s| > 0 && IsSpace(s[0]) {
      TrimStartEmpty(s[1..]);
      assert TrimStart(s) == TrimStart(s[1..]);
      assert (forall i :: 0 <= i < |s| ==> IsSpace(s[i])) <==> (forall i :: 0 <= i < |s| - 1 ==> IsSpace(s[1..][i]));
    }
  }

  /** Trimming leaves nothing exactly when the text is all white space. */
  lemma TrimEmpty(s: string)
    ensures Trim(s) == [] <==> forall i :: 0 <= i < |s| ==> IsSpace(s[i])
  {
    TrimStartEmpty(s);
  }

  // ---------------------------------------------------------------- slugs

  /** Every character of a suffix occurs in the whole, and a suffix has no
      double dash the whole lacks. */
  lemma SuffixFacts(s: string, k: nat)
    requires k <= |s|
    ensures forall c :: c in s[k..] ==> c in s
    ensures NoDoubleDash(s) ==> NoDoubleDash(s[k..])
  {
    forall c | c in s[k..] ensures c in s {
      var j :| 0 <= j < |s| - k && s[k..][j] == c;
      assert s[k + j] == c;
    }
  }

  /** Every character of a prefix occurs in the whole, and a prefix has no
      double dash the whole lacks. */
  lemma PrefixFacts(s: string, n: nat)
    requires n <= |s|
    ensures forall c :: c in s[..n] ==> c in s
    ensures NoDoubleDash(s) ==> NoDoubleDash(s[..n])
  {
  }

  /** `replace(/\s+/g, '-')`: each run of white space becomes one dash. */
  function DashSpaces(s: string): (r: string)
    ensures forall c :: c in r ==> !IsSpace(c) && (c == '-' || c in s)
    decreases |s|
  {
    if |s| == 0 then []
    else if IsSpace(s[0]) then
      var t := TrimStart(s[1..]);
      SuffixFacts(s[1..], |s| - 1 - |t|);
      "-" + DashSpaces(t)
    else
      [s[0]] + DashSpaces(s[1..])
  }

  /** Text without white space has nothing to replace. */
  lemma {:induction false} DashSpacesKeepsPlain(s: string)
    requires forall i :: 0 <= i < |s| ==> !IsSpace(s[i])
    ensures DashSpaces(s) == s
    decreases |s|
  {
    if |s| > 0 {
      assert forall i :: 0 <= i < |s| - 1 ==> s[1..][i] == s[i + 1];
      DashSpacesKeepsPlain(s[1..]);
      assert [s[0]] + s[1..] == s;
    }
  }

  /** What survives `replace(/[^\w-]+/g, '')`, and on the CJK branch
      `replace(/[^\w一-龥-]+/g, '')`. */
  predicate Kept(c: char, cjk: bool) {
    IsWordChar(c) || c == '-' || (cjk && IsHan(c))
  }

  function KeepOnly(s: string, cjk: bool): (r: string)
    ensures |r| <= |s|
    ensures forall i :: 0 <= i < |r| ==> Kept(r[i], cjk) && r[i] in s
    ensures (forall i :: 0 <= i < |s| ==> Kept(s[i], cjk)) ==> r == s
  {
    if |s| == 0 then []
    else
      assert forall i :: 0 <= i < |s| - 1 ==> s[1..][i] == s[i + 1];
      if Kept(s[0], cjk) then [s[0]] + KeepOnly(s[1..], cjk) else KeepOnly(s[1..], cjk)
  }

  predicate NoDoubleDash(s: string) {
    forall i :: 0 <= i < |s| - 1 ==> !(s[i] == '-' && s[i + 1] == '-')
  }

  /** `replace(/--+/g, '-')`: each run of dashes becomes one. */
  function Collapse(s: string): (r: string)
    ensures NoDoubleDash(r)
    ensures |s| > 0 ==> |r| > 0 && r[0] == s[0]
    ensures forall i :: 0 <= i < |r| ==> r[i] in s
    ensures NoDoubleDash(s) ==> r == s
  {
    if |s| <= 1 then s
    else
      assert forall i :: 0 <= i < |s| - 1 ==> s[1..][i] == s[i + 1];
      if s[0] == '-' && s[1] == '-' then Collapse(s[1..]) else [s[0]] + Collapse(s[1..])
  }

  function DropLeadingDashes(s: string): (r: string)
    ensures r == [] || r[0] != '-'
    ensures forall c :: c in r ==> c in s
    ensures NoDoubleDash(s) ==> NoDoubleDash(r)
    ensures (s == [] || s[0] != '-') ==> r == s
  {
    if |s| > 0 && s[0] == '-' then
      SuffixFacts(s, 1);
      DropLeadingDashes(s[1..])
    else s
  }

  function DropTrailingDashes(s: string): (r: string)
    ensures |r| <= |s|
    ensures r == [] || (r[|r| - 1] != '-' && r[0] == s[0])
    ensures forall c :: c in r ==> c in s
    ensures NoDoubleDash(s) ==> NoDoubleDash(r)
    ensures (s == [] || s[|s| - 1] != '-') ==> r == s
  {
    if |s| > 0 && s[|s| - 1] == '-' then
      PrefixFacts(s, |s| - 1);
      DropTrailingDashes(s[..|s| - 1])
    else s
  }

  /** `replace(/^-+|-+$/g, '')`: dashes go from both ends. */
  function TrimDashes(s: string): (r: string)
    ensures r == [] || (r[0] != '-' && r[|r| - 1] != '-')
    ensures NoDoubleDash(s) ==> NoDoubleDash(r)
    ensures forall i :: 0 <= i < |r| ==> r[i] in s
    ensures (s == [] || (s[0] != '-' && s[|s| - 1] != '-')) ==> r == s
  {
    DropTrailingDashes(DropLeadingDashes(s))
  }

  /** The chain both branches of `slugify` apply: lower-case, trim, dash the
      white space, drop what is not kept, collapse and trim the dashes. */
  function Pipeline(text: string, cjk: bool): string {
    TrimDashes(Collapse(KeepOnly(DashSpaces(Trim(ToLower(text))), cjk)))
  }

  /** A well-formed slug: slug characters only, no dash at either end and no
      two dashes in a row. */
  predicate IsSlug(s: string) {
    (forall i :: 0 <= i < |s| ==> IsSlugChar(s[i])) &&
    (s == [] || (s[0] != '-' && s[|s| - 1] != '-')) &&
    NoDoubleDash(s)
  }

  predicate HasHan(s: string) {
    exists i :: 0 <= i < |s| && IsHan(s[i])
  }

  /** Lower-casing and trimming leave no upper-case letter. */
  lemma LowerTrimmedChars(text: string)
    ensures forall x :: x in Trim(ToLower(text)) ==> !IsUpper(x)
  {
    var a := ToLower(text);
    var b := Trim(a);
    forall x | x in b ensures !IsUpper(x) {
      var m :| 0 <= m < |b| && b[m] == x;
      assert b[m] in a;
    }
  }

  /** Dashing the white space and keeping only word characters and dashes
      leaves slug characters once no upper-case letter is left. */
  lemma KeptSlugChars(b: string)
    requires forall x :: x in b ==> !IsUpper(x)
    ensures forall x :: x in KeepOnly(DashSpaces(b), false) ==> IsSlugChar(x)
  {
    var c := DashSpaces(b);
    var d := KeepOnly(c, false);
    forall x | x in d ensures IsSlugChar(x) {
      var j :| 0 <= j < |d| && d[j] == x;
      assert Kept(x, false) && x in c;
    }
  }

  /** The Latin branch produces a slug. */
  lemma PipelineIsSlug(text: string)
    ensures IsSlug(Pipeline(text, false))
  {
    var b := Trim(ToLower(text));
    var d := KeepOnly(DashSpaces(b), false);
    var e := Collapse(d);
    var r := TrimDashes(e);
    LowerTrimmedChars(text);
    KeptSlugChars(b);
    forall i | 0 <= i < |r| ensures IsSlugChar(r[i]) {
      assert r[i] in e;
      var j :| 0 <= j < |e| && e[j] == r[i];
      assert e[j] in d;
    }
  }

  /** A slug goes through the chain unchanged. */
  lemma PipelineFixesSlugs(s: string)
    requires IsSlug(s)
    ensures Pipeline(s, false) == s
  {
    forall i | 0 <= i < |s| ensures !IsUpper(s[i]) && !IsSpace(s[i]) && Kept(s[i], false) {
      SlugCharFacts(s[i]);
    }
    assert ToLower(s) == s;
    assert Trim(s) == s;
    DashSpacesKeepsPlain(s);
    assert KeepOnly(s, false) == s;
  }

  lemma SlugCharFacts(c: char)
    requires IsSlugChar(c)
    ensures !IsUpper(c) && !IsSpace(c) && Kept(c, false)
  {
  }

  /** The last six digits of the millisecond clock (`toString().slice(-6)`). */
  function Timestamp(now: nat): (r: string)
    ensures 1 <= |r| <= 6
  {
    var d := Decimal.Show(now);
    if |d| <= 6 then d else d[|d| - 6..]
  }

  /** `replace(/[一-龥]/g, '')`. */
  function RemoveHan(s: string): (r: string)
    ensures forall i :: 0 <= i < |r| ==> !IsHan(r[i])
  {
    if |s| == 0 then [] else if IsHan(s[0]) then RemoveHan(s[1..]) else [s[0]] + RemoveHan(s[1..])
  }

  /** `slugify(text)`, with the clock as a parameter: empty text gives the
      empty slug; text with a CJK character gives its first ten processed
      characters without the CJK ones (or "post"), a dash and the last six
      clock digits; other text goes through the Latin chain. */
  function Slugify(text: string, now: nat): (r: string)
    ensures text == [] ==> r == []
    ensures !HasHan(text) ==> IsSlug(r)
    ensures HasHan(text) ==> |r| > |Timestamp(now)| && r[|r| - |Timestamp(now)|..] == Timestamp(now)
  {
    if text == [] then []
    else if HasHan(text) then
      var processed := Pipeline(text, true);
      var prefix := RemoveHan(if |processed| <= 10 then processed else processed[..10]);
      var r := (if prefix == [] then "post" else prefix) + "-" + Timestamp(now);
      assert r[|r| - |Timestamp(now)|..] == Timestamp(now);
      r
    else
      PipelineIsSlug(text);
      Pipeline(text, false)
  }

  /** Latin slugs settle after one pass: slugifying a slug leaves it as is. */
  lemma SlugifyIdempotent(text: string, now: nat, later: nat)
    requires !HasHan(text)
    ensures Slugify(Slugify(text, now), later) == Slugify(text, now)
  {
    var r := Slugify(text, now);
    assert !HasHan(r) by {
      forall i | 0 <= i < |r| ensures !IsHan(r[i]) {
        assert IsSlugChar(r[i]);
      }
    }
    if r != [] {
      PipelineFixesSlugs(r);
    }
  }

  // ------------------------------------------------------------ HTML tags

  /** The text after the first '>'. */
  function AfterClose(s: string): (r: string)
    ensures |r| <= |s|
    ensures '>' in s ==> |r| < |s|
    ensures forall i :: 0 <= i < |r| ==> r[i] in s
  {
    if |s| == 0 then [] else if s[0] == '>' then s[1..] else AfterClose(s[1..])
  }

  /** What `/<[^>]*>/` finds: a '<' with a '>' somewhere after it. */
  predicate HasTag(s: string) {
    exists i, j :: 0 <= i < j < |s| && s[i] == '<' && s[j] == '>'
  }

  /** `replace(/<[^>]*>/g, '')`: each '<' is removed through the first '>'
      after it; a '<' with no '>' after it stays. */
  function StripHtml(s: string): (r: string)
    ensures |r| <= |s|
    ensures forall i :: 0 <= i < |r| ==> r[i] in s
    ensures !HasTag(r)
    decreases |s|
  {
    if |s| == 0 then []
    else if s[0] == '<' && '>' in s[1..] then StripHtml(AfterClose(s[1..]))
    else
      var rest := StripHtml(s[1..]);
      var r := [s[0]] + rest;
      assert forall j :: 1 <= j < |r| ==> r[j] == rest[j - 1];
      r
  }

  /** Text without a tag is left as it is, so stripping is idempotent. */
  lemma {:induction false} StripHtmlKeepsPlainText(s: string)
    ensures !HasTag(s) ==> StripHtml(s) == s
    decreases |s|
  {
    if |s| > 0 && !HasTag(s) {
      StripHtmlKeepsPlainText(s[1..]);
    }
  }

  lemma StripHtmlIdempotent(s: string)
    ensures StripHtml(StripHtml(s)) == StripHtml(s)
  {
    StripHtmlKeepsPlainText(StripHtml(s));
  }

  /** `hasHtmlTags(text)`. */
  function HasHtmlTags(text: string): (b: bool)
    ensures b <==> exists i, j :: 0 <= i < j < |text| && text[i] == '<' && text[j] == '>'
  {
    text != [] && HasTag(text)
  }

  /** `stripHtmlTags(text)`: no tag is left in the result. */
  function StripHtmlTags(text: string): (r: string)
    ensures !HasHtmlTags(r)
    ensures !HasHtmlTags(text) ==> r == text
  {
    if text == [] then [] else
      StripHtmlKeepsPlainText(text);
      StripHtml(text)
  }

  // ----------------------------------------------------------- truncation

  function Max0(n: int): nat {
    if n < 0 then 0 else n
  }

  /** `truncate(text, length, suffix)`: the tag-free text when it fits in
      `length` characters, otherwise its first `length` characters (none for
      a negative length) followed by the suffix. */
  function Truncate(text: string, length: int, suffix: string): (r: string)
    ensures text == [] ==> r == []
    ensures text != [] && |StripHtml(text)| <= length ==> r == StripHtml(text)
    ensures text != [] && |StripHtml(text)| > length ==>
      |r| == Max0(length) + |suffix| && r[..Max0(length)] <= StripHtml(text) && r[Max0(length)..] == suffix
    ensures |r| <= Max0(length) + |suffix| || r == StripHtml(text)
  {
    if text == [] then []
    else
      var plain := StripHtml(text);
      if |plain| <= length then plain
      else
        var r := plain[..Max0(length)] + suffix;
        assert r[..Max0(length)] == plain[..Max0(length)];
        r
  }

  /** A truncated text never exceeds the limit plus the suffix. */
  lemma TruncateBound(text: string, length: nat, suffix: string)
    ensures |Truncate(text, length, suffix)| <= length + |suffix|
  {
  }

  // ------------------------------------------------------------- counting

  function B(b: bool): int {
    if b then 1 else 0
  }

  /** The number of maximal white-space runs, counted where each run ends. */
  function SpaceRuns(s: string): nat {
    if |s| == 0 then 0
    else (if IsSpace(s[0]) && (|s| == 1 || !IsSpace(s[1])) then 1 else 0) + SpaceRuns(s[1..])
  }

  /** The number of words: maximal runs of characters other than white space. */
  function WordRuns(s: string): nat {
    if |s| == 0 then 0
    else (if !IsSpace(s[0]) && (|s| == 1 || IsSpace(s[1])) then 1 else 0) + WordRuns(s[1..])
  }

  /** Word and space runs alternate, so their counts differ by the ends. */
  lemma {:induction false} RunsAlternate(s: string)
    requires |s| >= 1
    ensures WordRuns(s) - SpaceRuns(s) == B(!IsSpace(s[0])) + B(!IsSpace(s[|s| - 1])) - 1
  {
    if |s| >= 2 {
      RunsAlternate(s[1..]);
    }
  }

  /** A trailing space adds no word. */
  lemma {:induction false} WordRunsSpaceAfter(s: string, c: char)
    requires IsSpace(c)
    ensures WordRuns(s + [c]) == WordRuns(s)
  {
    if |s| >= 1 {
      assert (s + [c])[1..] == s[1..] + [c];
      WordRunsSpaceAfter(s[1..], c);
    }
  }

  lemma {:induction false} WordRunsTrimEnd(s: string)
    ensures WordRuns(TrimEnd(s)) == WordRuns(s)
  {
    if |s| > 0 && IsSpace(s[|s| - 1]) {
      var t := s[..|s| - 1];
      assert s == t + [s[|s| - 1]];
      WordRunsSpaceAfter(t, s[|s| - 1]);
      WordRunsTrimEnd(t);
    }
  }

  lemma {:induction false} WordRunsTrimStart(s: string)
    ensures WordRuns(TrimStart(s)) == WordRuns(s)
  {
    if |s| > 0 && IsSpace(s[0]) {
      WordRunsTrimStart(s[1..]);
    }
  }

  /** `countWords(text)`: empty text has no words; otherwise the pieces of
      the trimmed text split at white-space runs (one more than the runs). */
  function CountWords(text: string): nat {
    if text == [] then 0 else 1 + SpaceRuns(Trim(text))
  }

  /** countWords counts the words of any text with a word in it, while text
      of white space alone counts as one word. */
  lemma CountWordsMeaning(text: string)
    ensures text == [] ==> CountWords(text) == 0
    ensures text != [] && Trim(text) == [] ==> CountWords(text) == 1
    ensures Trim(text) != [] ==> CountWords(text) == WordRuns(text)
  {
    if Trim(text) != [] {
      var t := Trim(text);
      RunsAlternate(t);
      WordRunsTrimStart(text);
      WordRunsTrimEnd(TrimStart(text));
    }
  }

  /** `Math.ceil(n / d)` for a positive divisor. */
  function CeilDiv(n: nat, d: nat): (r: nat)
    requires d > 0
    ensures n == 0 ==> r == 0
    ensures n > 0 ==> (r - 1) * d < n <= r * d
  {
    var q := (n + d - 1) / d;
    var m := (n + d - 1) % d;
    assert q * d + m == n + d - 1;
    assert (q - 1) * d == q * d - d;
    q
  }

  /** `readingTime(text, wordsPerMinute)`. */
  function ReadingTime(text: string, wordsPerMinute: nat): nat
    requires wordsPerMinute > 0
  {
    if text == [] then 0 else CeilDiv(1 + SpaceRuns(Trim(StripHtml(text))), wordsPerMinute)
  }

  lemma CeilDivOne(d: nat)
    requires d > 0
    ensures CeilDiv(1, d) == 1
  {
  }

  /** readingTime divides the word count of the tag-free text by the rate,
      rounding up; tag-free text that is empty still counts one word. */
  lemma ReadingTimeCountsWords(text: string, wordsPerMinute: nat)
    requires wordsPerMinute > 0 && text != []
    ensures ReadingTime(text, wordsPerMinute) ==
      CeilDiv(if StripHtml(text) == [] then 1 else CountWords(StripHtml(text)), wordsPerMinute)
  {
  }

  /** readingTime of empty text is 0 and of white space alone is 1 minute;
      otherwise it rounds the number of words up to whole minutes. */
  lemma ReadingTimeMeaning(text: string, wordsPerMinute: nat)
    requires wordsPerMinute > 0
    ensures text == [] ==> ReadingTime(text, wordsPerMinute) == 0
    ensures text != [] && Trim(StripHtml(text)) == [] ==> ReadingTime(text, wordsPerMinute) == 1
    ensures Trim(StripHtml(text)) != [] ==>
      ReadingTime(text, wordsPerMinute) == CeilDiv(WordRuns(StripHtml(text)), wordsPerMinute)
  {
    if text != [] {
      var plain := StripHtml(text);
      if Trim(plain) == [] {
        CeilDivOne(wordsPerMinute);
      } else {
        CountWordsMeaning(plain);
      }
    }
  }

  /** `replace(/\s/g, '')`. */
  function RemoveSpaces(s: string): (r: string)
    ensures forall i :: 0 <= i < |r| ==> !IsSpace(r[i])
    ensures |r| <= |s|
  {
    if |s| == 0 then [] else if IsSpace(s[0]) then RemoveSpaces(s[1..]) else [s[0]] + RemoveSpaces(s[1..])
  }

  /** `countCharacters(text)`. */
  function CountCharacters(text: string): nat {
    if text == [] then 0 else |RemoveSpaces(text)|
  }

  /** countCharacters adds up over concatenation ... */
  lemma {:induction false} CountCharactersAppend(a: string, b: string)
    ensures CountCharacters(a + b) == CountCharacters(a) + CountCharacters(b)
  {
    if |a| > 0 {
      assert (a + b)[1..] == a[1..] + b;
      CountCharactersAppend(a[1..], b);
    } else {
      assert a + b == b;
    }
  }

  /** ... and counts one for each character other than white space. */
  lemma CountCharactersOne(c: char)
    ensures CountCharacters([c]) == if IsSpace(c) then 0 else 1
  {
  }

  // --------------------------------------------------------------- images

  /** The first position at or after `from` holding `c`. */
  function IndexOf(s: string, c: char, from: nat): (r: Option<nat>)
    ensures r.Some? ==> from <= r.value < |s| && s[r.value] == c
    ensures r.Some? ==> forall k :: from <= k < r.value ==> s[k] != c
    ensures r.None? ==> forall k :: from <= k < |s| ==> s[k] != c
    decreases |s| - from
  {
    if from >= |s| then None else if s[from] == c then Some(from) else IndexOf(s, c, from + 1)
  }

  /** The URL of a `![alt](url)` starting at `i`: the alt text runs to the
      first ']', which must be followed by '(', and the URL is the non-empty
      text up to the first ')'. */
  function ImageAt(s: string, i: nat): (r: Option<string>)
    ensures r.Some? ==> r.value != [] && ')' !in r.value
  {
    if i + 2 <= |s| && s[i] == '!' && s[i + 1] == '[' then
      match IndexOf(s, ']', i + 2)
      case None => None
      case Some(j) =>
        if j + 1 < |s| && s[j + 1] == '(' then
          match IndexOf(s, ')', j + 2)
          case None => None
          case Some(k) => if k > j + 2 then Some(s[j + 2..k]) else None
        else None
    else None
  }

  /** No position from `i` up to `k` holds an image. */
  predicate NoImageBetween(s: string, i: nat, k: nat) {
    forall m :: i <= m < k ==> ImageAt(s, m).None?
  }

  /** The global, non-overlapping scan of the image pattern, as a position:
      the first position at or after `i` holding an image. */
  function ImageFrom(s: string, i: nat): (r: Option<nat>)
    ensures r.Some? ==> i <= r.value < |s| && ImageAt(s, r.value).Some? && NoImageBetween(s, i, r.value)
    ensures r.None? ==> NoImageBetween(s, i, |s|)
    decreases |s| - i
  {
    if i >= |s| then None
    else if ImageAt(s, i).Some? then Some(i)
    else ImageFrom(s, i + 1)
  }

  /** `extractFirstImageUrl(markdown)`: the URL of the leftmost image, or
      null when there is none. */
  function ExtractFirstImageUrl(markdown: string): (r: Option<string>)
    ensures r.Some? ==> r.value != [] && ')' !in r.value
    ensures r.Some? ==> exists k :: 0 <= k < |markdown| && ImageAt(markdown, k) == r && NoImageBetween(markdown, 0, k)
    ensures r.None? ==> NoImageBetween(markdown, 0, |markdown|)
  {
    if markdown == [] then None
    else
      match ImageFrom(markdown, 0)
      case None => None
      case Some(k) => ImageAt(markdown, k)
  }

  /** The Markdown an image is written as. */
  function Image(alt: string, url: string): string {
    "![" + alt + "](" + url + ")"
  }

  /** The URL written into an image comes back out. */
  lemma ExtractWrittenImage(alt: string, url: string)
    requires ']' !in alt && url != [] && ')' !in url
    ensures ExtractFirstImageUrl(Image(alt, url)) == Some(url)
  {
    var s := Image(alt, url);
    var j := 2 + |alt|;
    assert s[j] == ']' && s[j + 1] == '(';
    assert forall k :: 2 <= k < j ==> s[k] == alt[k - 2];
    assert IndexOf(s, ']', 2) == Some(j);
    var k := j + 2 + |url|;
    assert s[k] == ')';
    assert forall m :: j + 2 <= m < k ==> s[m] == url[m - j - 2];
    assert IndexOf(s, ')', j + 2) == Some(k);
    assert s[j + 2..k] == url;
    assert ImageAt(s, 0) == Some(url);
  }
}
