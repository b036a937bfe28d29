/** The article reading-time estimate (`resources/js/utils/readingTime.js`):
    tags are stripped, each CJK character and each run of ASCII letters is one
    word, and 300 words take a minute. */
module ReadingEstimate {
  import opened JsText

  const WordsPerMinute := 300

  /** The text after a leading run of ASCII letters. */
  function DropLetters(s: string): (r: string)
    ensures |r| <= |s| && r == s[|s| - |r|..]
    ensures r == [] || !IsAsciiLetter(r[0])
    ensures forall i :: 0 <= i < |s| - |r| ==> IsAsciiLetter(s[i])
  {
    if |s| > 0 && IsAsciiLetter(s[0]) then
      var r := DropLetters(s[1..]);
      assert forall i :: 1 <= i < |s| - |r| ==> s[i] == s[1..][i - 1];
      r
    else s
  }

  /** The matches of `/[一-龥]|[a-zA-Z]+/g`, counted left to right. */
  function Units(s: string): nat
    decreases |s|
  {
    if |s| == 0 then 0
    else if IsHan(s[0]) then 1 + Units(s[1..])
    else if IsAsciiLetter(s[0]) then 1 + Units(DropLetters(s[1..]))
    else Units(s[1..])
  }

  /** `estimateReadingTime(content)`. */
  function EstimateReadingTime(content: string): nat {
    CeilDiv(Units(StripHtml(content)), WordsPerMinute)
  }

  /** Nothing counts exactly when there is neither a CJK character nor an
      ASCII letter: digits, punctuation and white space count nothing. */
  lemma {:induction false} UnitsZero(s: string)
    ensures Units(s) == 0 <==> forall i :: 0 <= i < |s| ==> !IsHan(s[i]) && !IsAsciiLetter(s[i])
    decreases |s|
  {
    if |s| > 0 && !IsHan(s[0]) && !IsAsciiLetter(s[0]) {
      UnitsZero(s[1..]);
      assert forall i :: 1 <= i < |s| ==> s[i] == s[1..][i - 1];
    }
  }

  /** Each CJK character is a word of its own. */
  lemma {:induction false} HanCountsEach(s: string)
    requires forall i :: 0 <= i < |s| ==> IsHan(s[i])
    ensures Units(s) == |s|
  {
    if |s| > 0 {
      HanCountsEach(s[1..]);
    }
  }

  /** A run of ASCII letters is one word, however long. */
  lemma LettersCountOnce(s: string)
    requires |s| > 0 && forall i :: 0 <= i < |s| ==> IsAsciiLetter(s[i])
    ensures Units(s) == 1
  {
    assert DropLetters(s[1..]) == [];
  }

  /** The estimate is 0 minutes with nothing to count and 1 minute for 1 to
      300 words; beyond that it rounds the words up to whole minutes. */
  lemma EstimateBands(content: string)
    ensures var n := Units(StripHtml(content));
      (EstimateReadingTime(content) == 0 <==> n == 0) &&
      (EstimateReadingTime(content) == 1 <==> 1 <= n <= WordsPerMinute) &&
      (n > 0 ==> (EstimateReadingTime(content) - 1) * WordsPerMinute < n <= EstimateReadingTime(content) * WordsPerMinute)
  {
  }

  /** Tags are removed before counting: a tag adds nothing to the estimate. */
  lemma EstimateIgnoresTags(content: string)
    ensures EstimateReadingTime(content) == EstimateReadingTime(StripHtml(content))
  {
    StripHtmlIdempotent(content);
  }

  /** White space alone reads in 0 minutes here, but in 1 minute by the
      text helper's `readingTime`. */
  lemma WhiteSpaceEstimates(text: string)
    requires text != [] && forall i :: 0 <= i < |text| ==> IsSpace(text[i])
    ensures EstimateReadingTime(text) == 0
    ensures ReadingTime(text, 200) == 1
  {
    assert !HasTag(text) by {
      assert forall i :: 0 <= i < |text| ==> text[i] != '<';
    }
    StripHtmlKeepsPlainText(text);
    assert Units(StripHtml(text)) == 0 by {
      UnitsZero(text);
    }
    assert Trim(StripHtml(text)) == [] by {
      TrimEmpty(text);
    }
    ReadingTimeMeaning(text, 200);
  }
}
