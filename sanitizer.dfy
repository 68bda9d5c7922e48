/** `extractSnippet`'s splice: the first match of `.*animejs.*` is cut out of the
    document text, so that the inlined script does not import the library again. */
module Sanitizer {
  import opened Js
  import opened AnimeRegex

  /** `text.substr(0, r.index) + text.substr(r.index + r[0].length, text.length)`
      when `exec` (with `lastIndex` reset to 0) finds a match, else `text`. */
  function Sanitize(text: string): (r: string)
    ensures |r| <= |text|
  {
    var found := FirstMatch(text, 0);
    if found.None? then text
    else
      var m := found.value;
      Substr(text, 0, m.start) + Substr(text, m.start + (m.end - m.start), |text|)
  }

  /** With a match, the result is the text before it followed by the text after
      it, byte for byte, and is shorter by exactly the match's length, which is at
      least the keyword's. */
  lemma SanitizeSplices(text: string)
    requires FirstMatch(text, 0).Some?
    ensures var m := FirstMatch(text, 0).value;
      && Sanitize(text) == text[..m.start] + text[m.end..]
      && |Sanitize(text)| == |text| - (m.end - m.start)
      && m.end - m.start >= |Keyword|
  {
    var m := FirstMatch(text, 0).value;
    SubstrPrefix(text, m.start);
    SubstrRemainder(text, m.end);
  }

  /** The text comes back unchanged exactly when it holds no `animejs`. */
  lemma SanitizeUnchangedIff(text: string)
    ensures Sanitize(text) == text <==> !ContainsKeyword(text)
  {
    FirstMatchFoundIff(text);
    if FirstMatch(text, 0).Some? {
      SanitizeSplices(text);
    }
  }

  /** What is removed is the whole first line holding `animejs`: it begins at the
      start of the text or after a line terminator, ends at a line terminator or
      the end of the text, holds the keyword, and no keyword comes before it. */
  lemma SanitizeRemovesFirstKeywordLine(text: string)
    requires ContainsKeyword(text)
    ensures exists p, e :: IsFirstKeywordLine(text, p, e) && Sanitize(text) == text[..p] + text[e..]
  {
    FirstMatchFoundIff(text);
    var m := FirstMatch(text, 0).value;
    SanitizeSplices(text);
    FirstMatchIsFirstKeywordLine(text);
    assert Sanitize(text) == text[..m.start] + text[m.end..];
  }

  /** Cutting a terminator-free span out of a text keeps its terminator count. */
  lemma CutKeepsTerminators(text: string, lo: nat, hi: nat)
    requires lo <= hi <= |text|
    requires NoTerminatorIn(text, lo, hi)
    ensures CountTerminators(text[..lo] + text[hi..]) == CountTerminators(text)
  {
    var before, removed, after := text[..lo], text[lo..hi], text[hi..];
    assert text == before + removed + after;
    forall i | 0 <= i < |removed|
      ensures !IsLineTerminator(removed[i])
    {
      assert removed[i] == text[lo + i];
    }
    CountTerminatorsNone(removed);
    CountTerminatorsConcat(before + removed, after);
    CountTerminatorsConcat(before, removed);
    CountTerminatorsConcat(before, after);
  }

  /** The removed span holds no line terminator, so the number of lines is kept. */
  lemma SanitizeKeepsLineCount(text: string)
    ensures CountTerminators(Sanitize(text)) == CountTerminators(text)
  {
    if FirstMatch(text, 0).Some? {
      var m := FirstMatch(text, 0).value;
      SanitizeSplices(text);
      FirstMatchIsExecResult(text, 0);
      assert NoTerminatorIn(text, m.start, m.end);
      CutKeepsTerminators(text, m.start, m.end);
    }
  }

  /** Cutting `text[lo..hi]` moves a keyword at or after `hi` left by `hi - lo`. */
  lemma CutShiftsLaterKeyword(text: string, lo: nat, hi: nat, k: nat)
    requires lo <= hi <= k
    requires OccursAt(text, k)
    ensures OccursAt(text[..lo] + text[hi..], k - (hi - lo))
  {
    var tail := text[hi..];
    var j := k - hi;
    assert tail[j..j + |Keyword|] == text[k..k + |Keyword|];
    var r := text[..lo] + tail;
    assert r[lo + j..lo + j + |Keyword|] == tail[j..j + |Keyword|];
  }

  /** Every `animejs` after the removed line is still there, shifted left by the
      length of what was removed: later import lines are not touched. */
  lemma SanitizeKeepsLaterKeywords(text: string, k: nat)
    requires FirstMatch(text, 0).Some?
    requires FirstMatch(text, 0).value.end <= k
    requires OccursAt(text, k)
    ensures var m := FirstMatch(text, 0).value;
      OccursAt(Sanitize(text), k - (m.end - m.start))
  {
    var m := FirstMatch(text, 0).value;
    SanitizeSplices(text);
    CutShiftsLaterKeyword(text, m.start, m.end, k);
  }

  /** Any result that meets `exec`'s meaning for a search from index 0 gives the
      splice `Sanitize` computes: the output depends on the text alone. */
  lemma SanitizeFromAnyExecResult(text: string, r: Option<Match>)
    requires IsExecResult(text, 0, r)
    ensures r.None? ==> Sanitize(text) == text
    ensures r.Some? ==> Sanitize(text) == text[..r.value.start] + text[r.value.end..]
  {
    ExecResultIsFirstMatch(text, 0, r);
    if r.Some? {
      SanitizeSplices(text);
    }
  }
}
