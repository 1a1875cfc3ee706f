/**
 * The result parser of the check-in flow: `_parse_text`, whose three rules are
 * tried in a fixed order, and `_extract_serial_days`.
 *
 * Every regular expression appears twice. A scanner (a function built on
 * `FirstMatch`) reads the text the way Python's backtracking engine does, and
 * a ghost predicate says what a match of the pattern is. The lemmas show that
 * the scanner returns exactly the leftmost match, with greedy `\s*` and `\d+`
 * and lazy `.*?`.
 */
module Parser {
  import opened Text

  /** `CheckinResult`: -1 in a field means "not reported" */
  datatype CheckinResult = CheckinResult(checkinsCount: int, serialCheckins: int)

  /** `CheckinResult()`: success acknowledged, both counts unknown */
  const Unreported := CheckinResult(-1, -1)

  const CountKey := "\"checkins_count\""
  const SerialKey := "\"serial_checkins\""
  const SuccessMarker := "签到成功"
  const StreakDaysKey := "连续签到"

  /** A capture group: the digits s[start..end] */
  datatype Group = Group(start: nat, end: nat)

  /** `int(m.group(k))` */
  function GroupValue(s: string, g: Group): nat
    requires g.start <= g.end <= |s|
  {
    DecimalValue(s[g.start..g.end])
  }

  // ----- `key\s*:\s*(\d+)` at a given position -----

  /** After `key` at i: optional whitespace, a colon at `colon`, optional whitespace up to hi */
  ghost predicate ColonAfterKey(s: string, i: nat, key: string, colon: nat, hi: nat) {
    i + |key| <= colon < hi <= |s| && AllSpaces(s, i + |key|, colon) && s[colon] == ':'
    && AllSpaces(s, colon + 1, hi)
  }

  /** `key\s*:\s*(\d+)` matches at i, its group being g */
  ghost predicate NumberAfterKey(s: string, i: nat, key: string, g: Group) {
    StartsAt(s, i, key) && i + |key| < g.start < g.end
    && (exists colon: nat :: ColonAfterKey(s, i, key, colon, g.start))
    && AllDigits(s, g.start, g.end) && DigitsStop(s, g.end)
  }

  function KeyNumber(s: string, i: nat, key: string): (r: Option<Group>)
    ensures r.Some? ==> NumberAfterKey(s, i, key, r.value)
  {
    if StartsAt(s, i, key) then
      var colon := SpacesEnd(s, i + |key|);
      if colon < |s| && s[colon] == ':' then
        var b := SpacesEnd(s, colon + 1);
        var e := DigitsEnd(s, b);
        if b < e then
          assert ColonAfterKey(s, i, key, colon, b);
          Some(Group(b, e))
        else None
      else None
    else None
  }

  /** The scanner finds every `key\s*:\s*(\d+)` match, and the group is unique */
  lemma KeyNumberComplete(s: string, i: nat, key: string, g: Group)
    requires NumberAfterKey(s, i, key, g)
    ensures KeyNumber(s, i, key) == Some(g)
  {
    var colon: nat :| ColonAfterKey(s, i, key, colon, g.start);
    SpacesEndUnique(s, i + |key|, colon);
    SpacesEndUnique(s, colon + 1, g.start);
    DigitsEndUnique(s, g.start, g.end);
  }

  // ----- Rule 1: `"checkins_count"\s*:\s*(\d+).*?"serial_checkins"\s*:\s*(\d+)` -----

  datatype JsonMatch = JsonMatch(at: nat, count: Group, serialAt: nat, serial: Group)

  /** The rule-1 pattern matches at m.at, with `.*?` ending at m.serialAt */
  ghost predicate IsJsonMatch(s: string, m: JsonMatch) {
    NumberAfterKey(s, m.at, CountKey, m.count)
    && OnOneLine(s, m.count.end, m.serialAt)
    && NumberAfterKey(s, m.serialAt, SerialKey, m.serial)
  }

  /** The match `re.search` reports: leftmost start, then shortest `.*?` */
  ghost predicate IsFirstJsonMatch(s: string, m: JsonMatch) {
    IsJsonMatch(s, m)
    && forall m' :: IsJsonMatch(s, m') ==>
         m.at < m'.at || (m.at == m'.at && m.serialAt <= m'.serialAt)
  }

  ghost predicate HasJsonMatch(s: string) {
    exists m :: IsJsonMatch(s, m)
  }

  /** The lazy `.*?"serial_checkins"\s*:\s*(\d+)` from position `from` */
  function SerialAfter(s: string, from: nat): (r: Option<(nat, Group)>)
    requires from <= |s|
    ensures r.Some? ==> from <= r.value.0 && OnOneLine(s, from, r.value.0)
    ensures r.Some? ==> KeyNumber(s, r.value.0, SerialKey) == Some(r.value.1)
    ensures r.Some? ==> forall j :: from <= j < r.value.0 ==> KeyNumber(s, j, SerialKey).None?
    ensures r.None? ==>
      forall j :: from <= j <= |s| && OnOneLine(s, from, j) ==> KeyNumber(s, j, SerialKey).None?
  {
    var at := (j: nat) => KeyNumber(s, j, SerialKey);
    assert forall j: nat {:trigger KeyNumber(s, j, SerialKey)} :: at(j) == KeyNumber(s, j, SerialKey);
    FirstMatch(s, from, at, true)
  }

  /** The rule-1 pattern tried at start position i */
  function JsonAt(s: string, i: nat): (r: Option<JsonMatch>)
    ensures r.Some? ==> r.value.at == i && IsJsonMatch(s, r.value)
  {
    match KeyNumber(s, i, CountKey)
    case None => None
    case Some(count) =>
      match SerialAfter(s, count.end)
      case None => None
      case Some((j, serial)) => Some(JsonMatch(i, count, j, serial))
  }

  /** `re.search` with the rule-1 pattern */
  function JsonSearch(s: string): (r: Option<JsonMatch>)
    ensures r.Some? ==> JsonAt(s, r.value.at) == r
    ensures r.Some? ==> forall i :: 0 <= i < r.value.at ==> JsonAt(s, i).None?
    ensures r.None? ==> forall i :: 0 <= i <= |s| ==> JsonAt(s, i).None?
  {
    var at := (i: nat) => JsonAt(s, i);
    assert forall i: nat {:trigger JsonAt(s, i)} :: at(i) == JsonAt(s, i);
    match FirstMatch(s, 0, at, false)
    case None => None
    case Some((_, m)) => Some(m)
  }

  /** Trying the pattern at a match's start succeeds, with the same count and a `.*?` no longer */
  lemma JsonAtComplete(s: string, m: JsonMatch)
    requires IsJsonMatch(s, m)
    ensures JsonAt(s, m.at).Some?
    ensures JsonAt(s, m.at).value.count == m.count
    ensures JsonAt(s, m.at).value.serialAt <= m.serialAt
  {
    KeyNumberComplete(s, m.at, CountKey, m.count);
    KeyNumberComplete(s, m.serialAt, SerialKey, m.serial);
  }

  /** The rule-1 scanner returns the match `re.search` reports */
  lemma JsonSearchFirst(s: string)
    ensures JsonSearch(s).Some? ==> IsFirstJsonMatch(s, JsonSearch(s).value)
    ensures JsonSearch(s).None? <==> !HasJsonMatch(s)
  {
    if JsonSearch(s).Some? {
      var m := JsonSearch(s).value;
      forall m' | IsJsonMatch(s, m')
        ensures m.at < m'.at || (m.at == m'.at && m.serialAt <= m'.serialAt)
      {
        JsonAtComplete(s, m');
      }
    } else {
      forall m | IsJsonMatch(s, m) ensures JsonAt(s, m.at).Some? {
        JsonAtComplete(s, m);
      }
    }
  }

  /** Conversely, the match `re.search` reports is the one the scanner returns */
  lemma JsonFirstIsFound(s: string, m: JsonMatch)
    requires IsFirstJsonMatch(s, m)
    ensures JsonSearch(s) == Some(m)
  {
    JsonSearchFirst(s);
    assert HasJsonMatch(s);
    var m0 := JsonSearch(s).value;
    assert IsFirstJsonMatch(s, m0);
    assert m0.at == m.at && m0.serialAt == m.serialAt;
    KeyNumberComplete(s, m.at, CountKey, m.count);
    KeyNumberComplete(s, m0.at, CountKey, m0.count);
    KeyNumberComplete(s, m.serialAt, SerialKey, m.serial);
    KeyNumberComplete(s, m0.serialAt, SerialKey, m0.serial);
  }

  // ----- Rule 2: `累[计積].*?(\d+)` and `连[续續].*?(\d+)` -----

  /** A two-character keyword: a fixed first character, a class for the second */
  datatype Keyword = Keyword(first: char, second: string)

  /** `累[计積]` */
  const Cumulative := Keyword('累', "计積")
  /** `连[续續]` */
  const Streak := Keyword('连', "续續")

  predicate KeywordAt(s: string, i: nat, kw: Keyword) {
    i + 2 <= |s| && s[i] == kw.first && s[i + 1] in kw.second
  }

  datatype KeywordMatch = KeywordMatch(at: nat, digits: Group)

  /**
   * `kw.*?(\d+)` matches at m.at: the group starts at the first digit after
   * the keyword, on the keyword's line, and takes the whole digit run.
   */
  ghost predicate IsKeywordMatch(s: string, kw: Keyword, m: KeywordMatch) {
    KeywordAt(s, m.at, kw) && m.at + 2 <= m.digits.start < m.digits.end
    && OnOneLine(s, m.at + 2, m.digits.start) && NoDigits(s, m.at + 2, m.digits.start)
    && AllDigits(s, m.digits.start, m.digits.end) && DigitsStop(s, m.digits.end)
  }

  /** The match `re.search` reports: the leftmost one */
  ghost predicate IsFirstKeywordMatch(s: string, kw: Keyword, m: KeywordMatch) {
    IsKeywordMatch(s, kw, m) && forall m' :: IsKeywordMatch(s, kw, m') ==> m.at <= m'.at
  }

  ghost predicate HasKeywordMatch(s: string, kw: Keyword) {
    exists m :: IsKeywordMatch(s, kw, m)
  }

  /** `(\d+)` tried at j: the end of the digit run there */
  function DigitRunAt(s: string, j: nat): Option<nat> {
    if j < |s| && IsDigit(s[j]) then Some(DigitsEnd(s, j)) else None
  }

  /** The lazy `.*?(\d+)` from position `from` */
  function FirstDigitRun(s: string, from: nat): (r: Option<(nat, nat)>)
    requires from <= |s|
    ensures r.Some? ==> from <= r.value.0 && OnOneLine(s, from, r.value.0)
    ensures r.Some? ==> DigitRunAt(s, r.value.0) == Some(r.value.1)
    ensures r.Some? ==> forall j :: from <= j < r.value.0 ==> DigitRunAt(s, j).None?
    ensures r.None? ==>
      forall j :: from <= j <= |s| && OnOneLine(s, from, j) ==> DigitRunAt(s, j).None?
  {
    var at := (j: nat) => DigitRunAt(s, j);
    assert forall j: nat {:trigger DigitRunAt(s, j)} :: at(j) == DigitRunAt(s, j);
    FirstMatch(s, from, at, true)
  }

  /** The keyword pattern tried at start position i */
  function KeywordNumberAt(s: string, i: nat, kw: Keyword): (r: Option<KeywordMatch>)
    ensures r.Some? ==> r.value.at == i && IsKeywordMatch(s, kw, r.value)
  {
    if KeywordAt(s, i, kw) then
      match FirstDigitRun(s, i + 2)
      case None => None
      case Some((b, e)) =>
        assert NoDigits(s, i + 2, b) by {
          forall j | i + 2 <= j < b ensures !IsDigit(s[j]) {
            assert DigitRunAt(s, j).None?;
          }
        }
        Some(KeywordMatch(i, Group(b, e)))
    else None
  }

  /** `re.search` with a keyword pattern */
  function KeywordSearch(s: string, kw: Keyword): (r: Option<KeywordMatch>)
    ensures r.Some? ==> KeywordNumberAt(s, r.value.at, kw) == r
    ensures r.Some? ==> forall i :: 0 <= i < r.value.at ==> KeywordNumberAt(s, i, kw).None?
    ensures r.None? ==> forall i :: 0 <= i <= |s| ==> KeywordNumberAt(s, i, kw).None?
  {
    var at := (i: nat) => KeywordNumberAt(s, i, kw);
    assert forall i: nat {:trigger KeywordNumberAt(s, i, kw)} :: at(i) == KeywordNumberAt(s, i, kw);
    match FirstMatch(s, 0, at, false)
    case None => None
    case Some((_, m)) => Some(m)
  }

  /** Trying the keyword pattern at a match's start yields that very match */
  lemma KeywordNumberComplete(s: string, kw: Keyword, m: KeywordMatch)
    requires IsKeywordMatch(s, kw, m)
    ensures KeywordNumberAt(s, m.at, kw) == Some(m)
  {
    var b := m.digits.start;
    assert DigitRunAt(s, b).Some?;
    var r := FirstDigitRun(s, m.at + 2);
    var b0 := r.value.0;
    assert DigitRunAt(s, b0).Some?;
    assert b0 == b;
    DigitsEndUnique(s, b, m.digits.end);
  }

  /** The keyword scanner returns the match `re.search` reports */
  lemma KeywordSearchFirst(s: string, kw: Keyword)
    ensures KeywordSearch(s, kw).Some? ==> IsFirstKeywordMatch(s, kw, KeywordSearch(s, kw).value)
    ensures KeywordSearch(s, kw).None? <==> !HasKeywordMatch(s, kw)
  {
    forall m | IsKeywordMatch(s, kw, m) ensures KeywordNumberAt(s, m.at, kw) == Some(m) {
      KeywordNumberComplete(s, kw, m);
    }
  }

  /** Conversely, the leftmost keyword match is the one the scanner returns */
  lemma KeywordFirstIsFound(s: string, kw: Keyword, m: KeywordMatch)
    requires IsFirstKeywordMatch(s, kw, m)
    ensures KeywordSearch(s, kw) == Some(m)
  {
    KeywordSearchFirst(s, kw);
    KeywordNumberComplete(s, kw, m);
  }

  // ----- `_parse_text` -----

  /** The three rules in their fixed order; empty text gives nothing */
  function ParseText(s: string): (r: Option<CheckinResult>)
    ensures s == [] ==> r == None
    ensures r.Some? ==>
      r.value == Unreported || (r.value.checkinsCount >= 0 && r.value.serialCheckins >= 0)
  {
    if s == [] then None
    else match JsonSearch(s)
      case Some(m) => Some(CheckinResult(GroupValue(s, m.count), GroupValue(s, m.serial)))
      case None =>
        match (KeywordSearch(s, Cumulative), KeywordSearch(s, Streak))
        case (Some(c), Some(t)) => Some(CheckinResult(GroupValue(s, c.digits), GroupValue(s, t.digits)))
        case _ => if Contains(s, SuccessMarker) then Some(Unreported) else None
  }

  /** Rule 1 wins whenever its pattern matches, and reads the match `re.search` reports */
  lemma ParseTextJsonRule(s: string, m: JsonMatch)
    requires IsFirstJsonMatch(s, m)
    ensures ParseText(s) == Some(CheckinResult(GroupValue(s, m.count), GroupValue(s, m.serial)))
  {
    JsonFirstIsFound(s, m);
  }

  /**
   * The JSON-shaped fragment `"checkins_count": N ... "serial_checkins": M`
   * on one line is read as exactly (N, M), provided no count key starts
   * earlier and no serial key starts between N and the chosen one.
   */
  lemma ParseTextFragment(s: string, m: JsonMatch)
    requires IsJsonMatch(s, m)
    requires forall i :: 0 <= i < m.at ==> !StartsAt(s, i, CountKey)
    requires forall j :: m.count.end <= j < m.serialAt ==> !StartsAt(s, j, SerialKey)
    ensures ParseText(s) == Some(CheckinResult(GroupValue(s, m.count), GroupValue(s, m.serial)))
  {
    forall m' | IsJsonMatch(s, m')
      ensures m.at < m'.at || (m.at == m'.at && m.serialAt <= m'.serialAt)
    {
      KeyNumberComplete(s, m.at, CountKey, m.count);
      KeyNumberComplete(s, m'.at, CountKey, m'.count);
    }
    ParseTextJsonRule(s, m);
  }

  /** A check-in response body, `{"checkins_count": 5, "serial_checkins": 3}` */
  const SampleBody := "{" + CountKey + ": 5, " + SerialKey + ": 3}"
  /** Where its rule-1 match lies */
  const SampleMatch := JsonMatch(1, Group(19, 20), 22, Group(41, 42))

  lemma SampleBodyMatches()
    ensures IsJsonMatch(SampleBody, SampleMatch)
    ensures GroupValue(SampleBody, SampleMatch.count) == 5
    ensures GroupValue(SampleBody, SampleMatch.serial) == 3
  {
    var s := SampleBody;
    assert s[1..17] == CountKey;
    assert s[22..39] == SerialKey;
    assert s[19..20] == "5" && s[41..42] == "3";
    assert "5"[..0] == [] && "3"[..0] == [];
    assert ColonAfterKey(s, 1, CountKey, 17, 19);
    assert ColonAfterKey(s, 22, SerialKey, 39, 41);
  }

  lemma SampleBodyHasNoEarlierKeys()
    ensures forall i :: 0 <= i < SampleMatch.at ==> !StartsAt(SampleBody, i, CountKey)
    ensures forall j :: SampleMatch.count.end <= j < SampleMatch.serialAt ==> !StartsAt(SampleBody, j, SerialKey)
  {
    var s := SampleBody;
    assert s[0..16][0] == s[0];
    assert s[20..37][0] == s[20];
    assert s[21..38][0] == s[21];
  }

  /** The body of a successful check-in response reads as its two counts */
  lemma SampleBodyParses()
    ensures ParseText(SampleBody) == Some(CheckinResult(5, 3))
  {
    SampleBodyMatches();
    SampleBodyHasNoEarlierKeys();
    ParseTextFragment(SampleBody, SampleMatch);
  }

  /** Rule 2 applies only when rule 1 does not, and needs both keywords */
  lemma ParseTextKeywordRule(s: string, c: KeywordMatch, t: KeywordMatch)
    requires !HasJsonMatch(s)
    requires IsFirstKeywordMatch(s, Cumulative, c) && IsFirstKeywordMatch(s, Streak, t)
    ensures ParseText(s) == Some(CheckinResult(GroupValue(s, c.digits), GroupValue(s, t.digits)))
  {
    JsonSearchFirst(s);
    KeywordFirstIsFound(s, Cumulative, c);
    KeywordFirstIsFound(s, Streak, t);
  }

  /** The sentinel result comes only from the bare success marker, after both other rules failed */
  lemma ParseTextUnreported(s: string)
    ensures ParseText(s) == Some(Unreported) <==>
      !HasJsonMatch(s) && !(HasKeywordMatch(s, Cumulative) && HasKeywordMatch(s, Streak))
      && Contains(s, SuccessMarker)
  {
    JsonSearchFirst(s);
    KeywordSearchFirst(s, Cumulative);
    KeywordSearchFirst(s, Streak);
  }

  /** Text that matches no rule, the empty text included, gives nothing */
  lemma ParseTextNone(s: string)
    ensures ParseText(s) == None <==>
      !HasJsonMatch(s) && !(HasKeywordMatch(s, Cumulative) && HasKeywordMatch(s, Streak))
      && !Contains(s, SuccessMarker)
  {
    JsonSearchFirst(s);
    KeywordSearchFirst(s, Cumulative);
    KeywordSearchFirst(s, Streak);
  }

  // ----- `_extract_serial_days`: `连续签到\s*(\d+)` -----

  /** `连续签到\s*(\d+)` matches at m.at with group m.digits */
  ghost predicate IsStreakDaysMatch(s: string, m: KeywordMatch) {
    StartsAt(s, m.at, StreakDaysKey) && m.at + |StreakDaysKey| <= m.digits.start < m.digits.end
    && AllSpaces(s, m.at + |StreakDaysKey|, m.digits.start)
    && AllDigits(s, m.digits.start, m.digits.end) && DigitsStop(s, m.digits.end)
  }

  function StreakDaysAt(s: string, i: nat): (r: Option<KeywordMatch>)
    ensures r.Some? ==> r.value.at == i && IsStreakDaysMatch(s, r.value)
  {
    if StartsAt(s, i, StreakDaysKey) then
      var b := SpacesEnd(s, i + |StreakDaysKey|);
      var e := DigitsEnd(s, b);
      if b < e then Some(KeywordMatch(i, Group(b, e))) else None
    else None
  }

  /** `re.search` with the streak-days pattern */
  function StreakDaysSearch(s: string): (r: Option<KeywordMatch>)
    ensures r.Some? ==> StreakDaysAt(s, r.value.at) == r
    ensures r.Some? ==> forall i :: 0 <= i < r.value.at ==> StreakDaysAt(s, i).None?
    ensures r.None? ==> forall i :: 0 <= i <= |s| ==> StreakDaysAt(s, i).None?
  {
    var at := (i: nat) => StreakDaysAt(s, i);
    assert forall i: nat {:trigger StreakDaysAt(s, i)} :: at(i) == StreakDaysAt(s, i);
    match FirstMatch(s, 0, at, false)
    case None => None
    case Some((_, m)) => Some(m)
  }

  lemma StreakDaysComplete(s: string, m: KeywordMatch)
    requires IsStreakDaysMatch(s, m)
    ensures StreakDaysAt(s, m.at) == Some(m)
  {
    SpacesEndUnique(s, m.at + |StreakDaysKey|, m.digits.start);
    DigitsEndUnique(s, m.digits.start, m.digits.end);
  }

  /** `_extract_serial_days`: the streak count, or -1 when the pattern is absent */
  function ExtractSerialDays(s: string): (n: int)
    ensures n == -1 || n >= 0
  {
    match StreakDaysSearch(s)
    case None => -1
    case Some(m) => GroupValue(s, m.digits)
  }

  /**
   * -1 exactly when no `连续签到\s*(\d+)` occurs; otherwise the digits of the
   * leftmost occurrence.
   */
  lemma ExtractSerialDaysSpec(s: string)
    ensures ExtractSerialDays(s) == -1 <==> forall m :: !IsStreakDaysMatch(s, m)
    ensures forall m ::
      IsStreakDaysMatch(s, m) && (forall m' :: IsStreakDaysMatch(s, m') ==> m.at <= m'.at)
      ==> ExtractSerialDays(s) == GroupValue(s, m.digits)
  {
    forall m | IsStreakDaysMatch(s, m) ensures StreakDaysAt(s, m.at) == Some(m) {
      StreakDaysComplete(s, m);
    }
    if StreakDaysSearch(s).Some? {
      StreakDaysComplete(s, StreakDaysSearch(s).value);
    }
  }
}
