/** The few JavaScript built-ins the preview provider relies on, with their
    ECMAScript semantics written out over strings of characters (indices count
    characters, not UTF-16 code units). */
module Js {

  /** A value that may be absent (`undefined`/`null` in JavaScript). */
  datatype Option<+T> = None | Some(value: T)

  function Min(a: int, b: int): int { if a <= b then a else b }

  function Max(a: int, b: int): int { if a <= b then b else a }

  /** ECMAScript LineTerminator: LF, CR, LINE SEPARATOR and PARAGRAPH SEPARATOR.
      Without the `s` flag, the regular-expression `.` matches every other character. */
  predicate IsLineTerminator(c: char) {
    c == '\n' || c == '\r' || c == '\U{2028}' || c == '\U{2029}'
  }

  /** `String.prototype.substr(start, length)` (Annex B of ECMAScript): a negative
      start counts from the end, and the length is clamped to what is left. */
  function Substr(s: string, start: int, length: int): (r: string)
    ensures |r| <= |s|
    ensures 0 <= start <= |s| ==> start + |r| <= |s| && r == s[start..start + |r|]
  {
    var size := |s|;
    var from := if start < 0 then Max(size + start, 0) else Min(start, size);
    var count := Min(Max(length, 0), size);
    var to := Min(from + count, size);
    s[from..to]
  }

  /** `s.substr(0, n)` is the prefix of length `n`. */
  lemma SubstrPrefix(s: string, n: int)
    requires 0 <= n <= |s|
    ensures Substr(s, 0, n) == s[..n]
  {
  }

  /** `s.substr(i, s.length)` is the whole remainder from `i`: the length argument
      is clamped, so it never cuts the tail short. */
  lemma SubstrRemainder(s: string, i: int)
    requires 0 <= i <= |s|
    ensures Substr(s, i, |s|) == s[i..]
  {
  }

  /** Number of line terminators in `s`, which fixes its number of lines. */
  function CountTerminators(s: string): (n: nat)
    ensures n <= |s|
  {
    if s == [] then 0
    else (if IsLineTerminator(s[0]) then 1 else 0) + CountTerminators(s[1..])
  }

  lemma {:induction false} CountTerminatorsConcat(a: string, b: string)
    ensures CountTerminators(a + b) == CountTerminators(a) + CountTerminators(b)
  {
    if a == [] {
      assert a + b == b;
    } else {
      assert (a + b)[1..] == a[1..] + b;
      CountTerminatorsConcat(a[1..], b);
    }
  }

  lemma {:induction false} CountTerminatorsNone(s: string)
    requires forall i :: 0 <= i < |s| ==> !IsLineTerminator(s[i])
    ensures CountTerminators(s) == 0
  {
    if s != [] {
      CountTerminatorsNone(s[1..]);
    }
  }
}
