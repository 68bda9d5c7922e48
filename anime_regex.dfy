/** The module-level regular expression `.*animejs.*` (flag `g`) of src/extension.ts and
    what `RegExp.prototype.exec` returns for it, written as a direct scan and
    proved against the regex's leftmost-longest meaning. */
module AnimeRegex {
  import opened Js

  /** The literal between the two `.*` of the pattern. */
  const Keyword: string := "animejs"

  /** A match as `exec` reports it: `index` is `start`, `index + [0].length` is `end`. */
  datatype Match = Match(start: nat, end: nat)

  /** The keyword occurs in `s` at index `k`. */
  predicate OccursAt(s: string, k: int) {
    0 <= k && k + |Keyword| <= |s| && s[k..k + |Keyword|] == Keyword
  }

  ghost predicate ContainsKeyword(s: string) {
    exists k :: OccursAt(s, k)
  }

  /** No line terminator among `s[lo..hi]`. */
  predicate NoTerminatorIn(s: string, lo: int, hi: int)
    requires 0 <= lo <= hi <= |s|
  {
    forall i :: lo <= i < hi ==> !IsLineTerminator(s[i])
  }

  /** `s[p..e]` is matched by `.*animejs.*`: every `.` stands for a non-terminator,
      and the keyword lies inside the span. */
  ghost predicate Matches(s: string, p: int, e: int) {
    0 <= p <= e <= |s| && NoTerminatorIn(s, p, e) &&
    exists k :: p <= k && k + |Keyword| <= e && OccursAt(s, k)
  }

  /** What `exec` on this global regex returns when its `lastIndex` is `from`: the
      match at the least start position `>= from`, and there the one the
      backtracking engine tries first, which for greedy `.*` is the longest. */
  ghost predicate IsExecResult(s: string, from: nat, r: Option<Match>) {
    match r
    case None =>
      forall p, e :: from <= p ==> !Matches(s, p, e)
    case Some(m) =>
      from <= m.start && Matches(s, m.start, m.end) &&
      (forall p, e :: from <= p < m.start ==> !Matches(s, p, e)) &&
      (forall e :: m.end < e ==> !Matches(s, m.start, e))
  }

  /** The first occurrence of the keyword at or after `from`. */
  function FindKeyword(s: string, from: nat): (r: Option<nat>)
    decreases |s| - from
    ensures r.Some? ==> from <= r.value && OccursAt(s, r.value)
    ensures r.Some? ==> forall k :: from <= k < r.value ==> !OccursAt(s, k)
    ensures r.None? ==> forall k :: from <= k ==> !OccursAt(s, k)
  {
    if from + |Keyword| > |s| then None
    else if s[from..from + |Keyword|] == Keyword then Some(from)
    else FindKeyword(s, from + 1)
  }

  /** Walking left from `k`, the first index that follows a line terminator, or
      `lo` if there is none in `s[lo..k]`. */
  function SegmentStart(s: string, lo: nat, k: nat): (r: nat)
    requires lo <= k <= |s|
    decreases k - lo
    ensures lo <= r <= k
    ensures r == lo || IsLineTerminator(s[r - 1])
    ensures NoTerminatorIn(s, r, k)
  {
    if k == lo || IsLineTerminator(s[k - 1]) then k
    else SegmentStart(s, lo, k - 1)
  }

  /** Walking right from `k`, the index of the next line terminator, or `|s|`. */
  function LineEnd(s: string, k: nat): (r: nat)
    requires k <= |s|
    decreases |s| - k
    ensures k <= r <= |s|
    ensures r == |s| || IsLineTerminator(s[r])
    ensures NoTerminatorIn(s, k, r)
  {
    if k == |s| || IsLineTerminator(s[k]) then k
    else LineEnd(s, k + 1)
  }

  /** The scan: the terminator-free stretch around the first keyword at or after
      `from`, cut off on the left at `from`. A `from` past the end finds nothing. */
  function FirstMatch(s: string, from: nat): (r: Option<Match>)
    ensures r.Some? ==> from <= r.value.start && r.value.start + |Keyword| <= r.value.end <= |s|
  {
    if from > |s| then None
    else
      var found := FindKeyword(s, from);
      if found.None? then None
      else
        var k := found.value;
        Some(Match(SegmentStart(s, from, k), LineEnd(s, k + |Keyword|)))
  }

  lemma KeywordHasNoTerminator(s: string, k: int)
    requires OccursAt(s, k)
    ensures NoTerminatorIn(s, k, k + |Keyword|)
  {
    forall i | k <= i < k + |Keyword|
      ensures !IsLineTerminator(s[i])
    {
      assert s[i] == s[k..k + |Keyword|][i - k] == Keyword[i - k];
    }
  }

  /** The scan computes what `exec` returns. */
  lemma FirstMatchIsExecResult(s: string, from: nat)
    ensures IsExecResult(s, from, FirstMatch(s, from))
  {
    if from <= |s| && FindKeyword(s, from).Some? {
      var k := FindKeyword(s, from).value;
      var m := FirstMatch(s, from).value;
      assert m.start == SegmentStart(s, from, k) && m.end == LineEnd(s, k + |Keyword|);
      KeywordHasNoTerminator(s, k);
      assert NoTerminatorIn(s, m.start, m.end) by {
        forall i | m.start <= i < m.end
          ensures !IsLineTerminator(s[i])
        {
          if i < k {
          } else if i < k + |Keyword| {
          } else {
          }
        }
      }
      assert Matches(s, m.start, m.end);
      // A span starting left of m.start either stops before the terminator at
      // m.start - 1, and then holds no keyword, or it is not terminator-free.
      forall p, e | from <= p < m.start
        ensures !Matches(s, p, e)
      {
        if p <= e <= |s| && NoTerminatorIn(s, p, e) {
          assert IsLineTerminator(s[m.start - 1]);
          assert e <= m.start - 1;
        }
      }
      // A span reaching past m.end covers the terminator at m.end.
      forall e | m.end < e
        ensures !Matches(s, m.start, e)
      {
        if e <= |s| {
          assert IsLineTerminator(s[m.end]);
        }
      }
    }
  }

  /** Conversely, any result that fits the regex's meaning is the scan's result:
      `exec` has exactly one possible answer, and the scan gives it. */
  lemma ExecResultIsFirstMatch(s: string, from: nat, r: Option<Match>)
    requires IsExecResult(s, from, r)
    ensures r == FirstMatch(s, from)
  {
    var f := FirstMatch(s, from);
    FirstMatchIsExecResult(s, from);
    if r.Some? {
      assert Matches(s, r.value.start, r.value.end);
    }
    if f.Some? {
      assert Matches(s, f.value.start, f.value.end);
    }
  }

  /** A match exists from index 0 exactly when the text holds the keyword. */
  lemma FirstMatchFoundIff(s: string)
    ensures FirstMatch(s, 0).Some? <==> ContainsKeyword(s)
  {
    if ContainsKeyword(s) {
      var k :| OccursAt(s, k);
      assert FindKeyword(s, 0).Some?;
    }
    if FirstMatch(s, 0).Some? {
      assert OccursAt(s, FindKeyword(s, 0).value);
    }
  }

  /** `s[p..e]` is the whole first line of `s` that holds the keyword: it begins at
      index 0 or after a terminator, ends at a terminator or the end of `s`, holds
      no terminator and the keyword, and no keyword occurs before it. */
  ghost predicate IsFirstKeywordLine(s: string, p: int, e: int) {
    && 0 <= p <= e <= |s|
    && (p == 0 || IsLineTerminator(s[p - 1]))
    && (e == |s| || IsLineTerminator(s[e]))
    && Matches(s, p, e)
    && (forall k :: 0 <= k < p ==> !OccursAt(s, k))
  }

  /** The span `exec` matches from index 0 is the first line holding `animejs`. */
  lemma FirstMatchIsFirstKeywordLine(s: string)
    requires FirstMatch(s, 0).Some?
    ensures IsFirstKeywordLine(s, FirstMatch(s, 0).value.start, FirstMatch(s, 0).value.end)
  {
    var m := FirstMatch(s, 0).value;
    FirstMatchIsExecResult(s, 0);
    assert Matches(s, m.start, m.end);
    var k := FindKeyword(s, 0).value;
    assert m.start <= k;
  }

  /** Conversely, the first line holding `animejs` is what the scan finds. */
  lemma FirstKeywordLineIsFirstMatch(s: string, p: int, e: int)
    requires IsFirstKeywordLine(s, p, e)
    ensures FirstMatch(s, 0) == Some(Match(p, e))
  {
    forall p', e' | 0 <= p' < p
      ensures !Matches(s, p', e')
    {
      if p' <= e' <= |s| && NoTerminatorIn(s, p', e') {
        assert IsLineTerminator(s[p - 1]);
        assert e' <= p - 1;
      }
    }
    forall e' | e < e'
      ensures !Matches(s, p, e')
    {
      if e' <= |s| {
        assert IsLineTerminator(s[e]);
      }
    }
    ExecResultIsFirstMatch(s, 0, Some(Match(p, e)));
  }

  /** The regex object `animeRegex`: one global RegExp whose `lastIndex` survives
      between calls, as the `g` flag makes it. */
  class GlobalRegex {
    var lastIndex: nat

    constructor ()
      ensures lastIndex == 0
    {
      lastIndex := 0;
    }

    /** `RegExp.prototype.exec`: search from `lastIndex`; on success move
        `lastIndex` to the end of the match, on failure reset it to 0. */
    method Exec(s: string) returns (r: Option<Match>)
      modifies this
      ensures IsExecResult(s, old(lastIndex), r)
      ensures r == FirstMatch(s, old(lastIndex))
      ensures lastIndex == if r.Some? then r.value.end else 0
    {
      if lastIndex > |s| {
        r := None;
      } else {
        r := FirstMatch(s, lastIndex);
      }
      FirstMatchIsExecResult(s, lastIndex);
      lastIndex := if r.Some? then r.value.end else 0;
    }
  }

  /** Without the reset of `lastIndex`, a second `exec` on the same text never
      reports the first match again: it moves on to a later line or finds nothing. */
  lemma SecondExecMovesOn(s: string)
    requires FirstMatch(s, 0).Some?
    ensures var m := FirstMatch(s, 0).value;
      FirstMatch(s, m.end) != Some(m) &&
      (FirstMatch(s, m.end).Some? ==> m.end <= FirstMatch(s, m.end).value.start)
  {
  }

  /** A concrete witness of that statefulness: on the text `animejs` the first call
      matches it all and a second call without the reset matches nothing. */
  lemma SecondExecWithoutReset()
    ensures FirstMatch(Keyword, 0) == Some(Match(0, 7))
    ensures FirstMatch(Keyword, 7) == None
  {
    assert FindKeyword(Keyword, 0) == Some(0);
    assert LineEnd(Keyword, 7) == 7;
  }
}
