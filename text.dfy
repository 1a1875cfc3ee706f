/**
 * Characters, substrings and the scanning engine behind the result parser.
 *
 * Python's `re.search` tries every start position from the left and keeps the
 * first one at which the pattern matches; a lazy `.*?` (no DOTALL flag) tries
 * every end position from the left but may not step over a newline.
 * `FirstMatch` is both of these, parameterised by what "matches here" means.
 */
module Text {

  datatype Option<T> = None | Some(value: T)

  /** `\d`, restricted to the ASCII digits */
  predicate IsDigit(c: char) {
    '0' <= c <= '9'
  }

  /**
   * `\s` of Python's `re` on a str pattern: the characters `str.isspace`
   * accepts (ASCII 9-13, 28-32 and the Unicode separators).
   */
  predicate IsSpace(c: char): (space: bool)
    ensures c == ' ' || c == '\t' || c == '\n' || c == '\r' ==> space
    ensures IsDigit(c) || c == ':' || c == '"' ==> !space
  {
    '\t' <= c <= '\r' || '\U{1C}' <= c <= ' ' || c == '\U{85}' || c == '\U{A0}'
    || c == '\U{1680}' || '\U{2000}' <= c <= '\U{200A}' || c == '\U{2028}' || c == '\U{2029}'
    || c == '\U{202F}' || c == '\U{205F}' || c == '\U{3000}'
  }

  /** s[lo..hi] consists of digits */
  ghost predicate AllDigits(s: string, lo: nat, hi: nat) {
    lo <= hi <= |s| && forall k :: lo <= k < hi ==> IsDigit(s[k])
  }

  /** s[lo..hi] contains no digit */
  ghost predicate NoDigits(s: string, lo: nat, hi: nat) {
    lo <= hi <= |s| && forall k :: lo <= k < hi ==> !IsDigit(s[k])
  }

  /** s[lo..hi] consists of whitespace */
  ghost predicate AllSpaces(s: string, lo: nat, hi: nat) {
    lo <= hi <= |s| && forall k :: lo <= k < hi ==> IsSpace(s[k])
  }

  /** s[lo..hi] holds no newline: a `.*` without DOTALL can cross it */
  ghost predicate OnOneLine(s: string, lo: nat, hi: nat) {
    lo <= hi <= |s| && forall k :: lo <= k < hi ==> s[k] != '\n'
  }

  /** A digit run ending at e cannot be extended: the greedy `\d+` stops at e */
  ghost predicate DigitsStop(s: string, e: nat) {
    e >= |s| || !IsDigit(s[e])
  }

  /** The whitespace run ending at e cannot be extended */
  ghost predicate SpacesStop(s: string, e: nat) {
    e >= |s| || !IsSpace(s[e])
  }

  /** `w` occurs in `s` starting at index i */
  predicate StartsAt(s: string, i: int, w: string) {
    0 <= i && i + |w| <= |s| && s[i..i + |w|] == w
  }

  /** Python's `w in s` for strings */
  predicate Contains(s: string, w: string) {
    exists i | 0 <= i <= |s| - |w| :: StartsAt(s, i, w)
  }

  /** End of the greedy `\d*` that starts at i */
  function DigitsEnd(s: string, i: nat): (e: nat)
    requires i <= |s|
    ensures i <= e && AllDigits(s, i, e) && DigitsStop(s, e)
    decreases |s| - i
  {
    if i < |s| && IsDigit(s[i]) then DigitsEnd(s, i + 1) else i
  }

  /** End of the greedy `\s*` that starts at i */
  function SpacesEnd(s: string, i: nat): (e: nat)
    requires i <= |s|
    ensures i <= e && AllSpaces(s, i, e) && SpacesStop(s, e)
    decreases |s| - i
  {
    if i < |s| && IsSpace(s[i]) then SpacesEnd(s, i + 1) else i
  }

  /** A digit run that stops at e is the one `DigitsEnd` finds */
  lemma DigitsEndUnique(s: string, i: nat, e: nat)
    requires AllDigits(s, i, e) && DigitsStop(s, e)
    ensures DigitsEnd(s, i) == e
  {
  }

  /** A whitespace run that stops at e is the one `SpacesEnd` finds */
  lemma SpacesEndUnique(s: string, i: nat, e: nat)
    requires AllSpaces(s, i, e) && SpacesStop(s, e)
    ensures SpacesEnd(s, i) == e
  {
  }

  /** `int()` of a string of ASCII digits */
  function DecimalValue(d: string): (v: nat)
    ensures d == [] ==> v == 0
    ensures |d| == 1 && IsDigit(d[0]) ==> v == d[0] as int - '0' as int
  {
    if d == [] then 0
    else DecimalValue(d[..|d| - 1]) * 10 + ((d[|d| - 1] as int - '0' as int) % 10)
  }

  /** `int()` ignores leading zeros */
  lemma {:induction false} DecimalValueLeadingZero(d: string)
    ensures DecimalValue(['0'] + d) == DecimalValue(d)
  {
    if d != [] {
      assert (['0'] + d)[..|['0'] + d| - 1] == ['0'] + d[..|d| - 1];
      DecimalValueLeadingZero(d[..|d| - 1]);
    } else {
      assert ['0'][..0] == [];
    }
  }

  /**
   * The first position k >= from at which `at` reports a match, with what it
   * reported. With `oneLine`, k may not lie past a newline of s[from..]
   * (a lazy `.*?`); without it every position up to |s| is tried
   * (`re.search`).
   */
  function FirstMatch<T>(s: string, from: nat, at: nat -> Option<T>, oneLine: bool): (r: Option<(nat, T)>)
    requires from <= |s|
    ensures r.Some? ==> from <= r.value.0 <= |s| && at(r.value.0) == Some(r.value.1)
    ensures r.Some? && oneLine ==> OnOneLine(s, from, r.value.0)
    ensures r.Some? ==> forall k :: from <= k < r.value.0 ==> at(k).None?
    ensures r.None? ==>
      forall k :: from <= k <= |s| && (oneLine ==> OnOneLine(s, from, k)) ==> at(k).None?
    decreases |s| - from
  {
    if at(from).Some? then Some((from, at(from).value))
    else if from == |s| || (oneLine && s[from] == '\n') then None
    else FirstMatch(s, from + 1, at, oneLine)
  }
}
