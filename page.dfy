/**
 * What the check-in flow reads from the page: the interstitial title test,
 * the check-in button and form, and the capture slot that the injected
 * interceptor script keeps in two page globals (`window.__checkinRaw` and
 * `window.__checkinJSON`).
 */
module Page {
  import opened Text
  import opened Parser

  // ----- interstitial detection -----

  /** Title markers of the bot-protection interstitial */
  const CfTitles: seq<string> := ["Just a moment", "请稍候"]

  /** One evaluation of `document.title`: a title, `null`, or a failed evaluation */
  datatype TitleRead = Title(title: Option<string>) | EvalFailed

  /** `title or ""` */
  function TitleText(r: TitleRead): (text: string)
    requires r.Title?
    ensures r.title.Some? ==> text == r.title.value
    ensures text == [] <==> r.title.None? || r.title.value == []
  {
    if r.title.Some? then r.title.value else ""
  }

  /** `any(kw in text for kw in kws)` */
  function AnyMarker(text: string, kws: seq<string>): (found: bool)
    ensures found <==> exists k :: 0 <= k < |kws| && Contains(text, kws[k])
  {
    if kws == [] then false
    else Contains(text, kws[0]) || AnyMarker(text, kws[1..])
  }

  /**
   * `_on_cf_challenge`: the interstitial is showing when the title carries one
   * of its markers; a failed evaluation counts as still challenged.
   */
  function OnCfChallenge(r: TitleRead): (challenged: bool)
    ensures challenged <==>
      r.EvalFailed? || Contains(TitleText(r), "Just a moment") || Contains(TitleText(r), "请稍候")
  {
    match r
    case EvalFailed => true
    case Title(_) =>
      var text := TitleText(r);
      assert Contains(text, CfTitles[0]) <==> Contains(text, "Just a moment");
      assert Contains(text, CfTitles[1]) <==> Contains(text, "请稍候");
      AnyMarker(text, CfTitles)
  }

  /** A missing title reads as the empty one, which is never the interstitial */
  lemma MissingTitleIsClear()
    ensures !OnCfChallenge(Title(None))
    ensures OnCfChallenge(Title(None)) == OnCfChallenge(Title(Some("")))
  {
  }

  // ----- the check-in button and form -----

  /** The `#do_checkin` snapshot: its text, `className` and `disabled` flag */
  datatype Button = Button(text: string, cls: string, disabled: bool)

  /** Checked at two places: the button is disabled or styled `btn-success` */
  predicate ButtonDone(b: Button): (done: bool)
    ensures b.disabled ==> done
    ensures Contains(b.cls, "btn-success") ==> done
    ensures !b.disabled && |b.cls| < |"btn-success"| ==> !done
  {
    b.disabled || Contains(b.cls, "btn-success")
  }

  const AlreadyDoneMarker := "已签到"

  /** `_check_already_done`: the `#checkin` form text says the day is done */
  predicate AlreadyDone(formText: string): (done: bool)
    ensures formText == [] ==> !done
    ensures Contains(formText, AlreadyDoneMarker) ==> done
  {
    Contains(formText, AlreadyDoneMarker)
  }

  // ----- the interceptor's capture slot -----

  /** A parsed JSON value: an object (with its integer fields) or anything else */
  datatype JsonValue = JsonObject(fields: map<string, int>) | JsonOther

  /** `JSON.parse` of a body: a value (`None` for `null`) or an exception */
  datatype BodyParse = Parsed(value: Option<JsonValue>) | NotJson

  /** One completed request the page made, as the hook sees it */
  datatype Response = Response(url: string, text: string, parse: BodyParse)

  /** The two page globals; `None` is JavaScript `null` (or never set) */
  datatype Capture = Capture(raw: Option<string>, json: Option<JsonValue>)

  /** Both globals null: the state the script's first two lines establish */
  const Cleared := Capture(None, None)

  const CheckinPath := "/checkins"

  /** The hook on one response: only `/checkins` requests are captured */
  function Record(c: Capture, r: Response): (next: Capture)
    ensures !Contains(r.url, CheckinPath) ==> next == c
    ensures Contains(r.url, CheckinPath) ==> next.raw == Some(r.text)
    ensures Contains(r.url, CheckinPath) && r.parse.NotJson? ==> next.json == c.json
    ensures Contains(r.url, CheckinPath) && r.parse.Parsed? ==> next.json == r.parse.value
  {
    if Contains(r.url, CheckinPath) then
      Capture(Some(r.text), if r.parse.Parsed? then r.parse.value else c.json)
    else c
  }

  /** The slot after the hook has seen the responses rs, in order */
  function Replay(c: Capture, rs: seq<Response>): (next: Capture)
    ensures next.raw.Some? <==>
      c.raw.Some? || exists k :: 0 <= k < |rs| && Contains(rs[k].url, CheckinPath)
  {
    if rs == [] then c else Record(Replay(c, rs[..|rs| - 1]), rs[|rs| - 1])
  }

  /** The bodies of the `/checkins` responses in rs */
  function CheckinTexts(rs: seq<Response>): seq<string> {
    if rs == [] then []
    else CheckinTexts(rs[..|rs| - 1])
         + (if Contains(rs[|rs| - 1].url, CheckinPath) then [rs[|rs| - 1].text] else [])
  }

  /** The parse results of the `/checkins` responses in rs whose body was JSON */
  function CheckinJsons(rs: seq<Response>): seq<Option<JsonValue>> {
    if rs == [] then []
    else CheckinJsons(rs[..|rs| - 1])
         + (if Contains(rs[|rs| - 1].url, CheckinPath) && rs[|rs| - 1].parse.Parsed?
            then [rs[|rs| - 1].parse.value] else [])
  }

  /**
   * The raw global holds the body of the last `/checkins` response; the JSON
   * global holds the parse of the last one whose body was JSON, and is left
   * as it was when there was none.
   */
  lemma {:induction false} ReplayLastWins(c: Capture, rs: seq<Response>)
    ensures Replay(c, rs).raw ==
      if CheckinTexts(rs) == [] then c.raw else Some(CheckinTexts(rs)[|CheckinTexts(rs)| - 1])
    ensures Replay(c, rs).json ==
      if CheckinJsons(rs) == [] then c.json else CheckinJsons(rs)[|CheckinJsons(rs)| - 1]
  {
    if rs != [] {
      ReplayLastWins(c, rs[..|rs| - 1]);
    }
  }

  /** Responses to other URLs never touch the slot */
  lemma {:induction false} ReplayIgnoresOtherUrls(c: Capture, rs: seq<Response>)
    requires forall k :: 0 <= k < |rs| ==> !Contains(rs[k].url, CheckinPath)
    ensures Replay(c, rs) == c
  {
    if rs != [] {
      ReplayIgnoresOtherUrls(c, rs[..|rs| - 1]);
    }
  }

  lemma {:induction false} ReplayAppend(c: Capture, rs: seq<Response>, ts: seq<Response>)
    ensures Replay(c, rs + ts) == Replay(Replay(c, rs), ts)
  {
    if ts != [] {
      var last := ts[|ts| - 1];
      assert (rs + ts)[..|rs + ts| - 1] == rs + ts[..|ts| - 1];
      assert (rs + ts)[|rs + ts| - 1] == last;
      ReplayAppend(c, rs, ts[..|ts| - 1]);
      assert Replay(c, rs + ts) == Record(Replay(c, rs + ts[..|ts| - 1]), last);
    } else {
      assert rs + ts == rs;
    }
  }

  /** A JSON object carrying `checkins_count` */
  predicate HasCount(j: Option<JsonValue>) {
    j.Some? && j.value.JsonObject? && "checkins_count" in j.value.fields
  }

  /** `CheckinResult(j["checkins_count"], j.get("serial_checkins", -1))` */
  function CountsOf(fields: map<string, int>): (r: CheckinResult)
    requires "checkins_count" in fields
    ensures r.checkinsCount == fields["checkins_count"]
    ensures r.serialCheckins == if "serial_checkins" in fields then fields["serial_checkins"] else -1
  {
    CheckinResult(fields["checkins_count"],
                  if "serial_checkins" in fields then fields["serial_checkins"] else -1)
  }

  /**
   * `_read_intercepted`: the JSON global when it is an object with
   * `checkins_count`, otherwise the raw global through the text parser.
   */
  function ReadIntercepted(c: Capture): (r: Option<CheckinResult>)
    ensures HasCount(c.json) ==> r == Some(CountsOf(c.json.value.fields))
    ensures !HasCount(c.json) && c.raw.None? ==> r == None
    ensures !HasCount(c.json) && c.raw.Some? ==> r == ParseText(c.raw.value)
  {
    if HasCount(c.json) then Some(CountsOf(c.json.value.fields))
    else if c.raw.Some? then ParseText(c.raw.value)
    else None
  }

  /** Nothing captured since the script was (re)installed reads as nothing */
  lemma ClearedReadsNothing()
    ensures ReadIntercepted(Cleared) == None
  {
  }

  /**
   * After the script is installed, only `/checkins` traffic decides what is
   * read: a later body that is not JSON cannot displace counts already parsed
   * from an earlier JSON body.
   */
  lemma ReadAfterInstall(rs: seq<Response>)
    ensures CheckinTexts(rs) == [] ==> ReadIntercepted(Replay(Cleared, rs)) == None
    ensures CheckinJsons(rs) != [] && HasCount(CheckinJsons(rs)[|CheckinJsons(rs)| - 1]) ==>
      ReadIntercepted(Replay(Cleared, rs))
        == Some(CountsOf(CheckinJsons(rs)[|CheckinJsons(rs)| - 1].value.fields))
  {
    ReplayLastWins(Cleared, rs);
    if CheckinTexts(rs) == [] {
      CheckinJsonsWithin(rs);
    }
  }

  /** Every JSON capture comes with a raw capture */
  lemma {:induction false} CheckinJsonsWithin(rs: seq<Response>)
    ensures |CheckinJsons(rs)| <= |CheckinTexts(rs)|
  {
    if rs != [] {
      CheckinJsonsWithin(rs[..|rs| - 1]);
    }
  }

  /**
   * The page globals as a mutable object. The interceptor script writes them
   * from the page's own request hooks; the check-in code reads them.
   */
  class CaptureSlot {
    var raw: Option<string>
    var json: Option<JsonValue>

    function State(): Capture
      reads this
    {
      Capture(raw, json)
    }

    /** A freshly loaded page: neither global has been set */
    constructor ()
      ensures State() == Cleared
    {
      raw := None;
      json := None;
    }

    /** Evaluating the interceptor script: both globals reset to null */
    method Install()
      modifies this
      ensures State() == Cleared
    {
      json := None;
      raw := None;
    }

    /** The XHR `load` listener or the fetch `then` callback for one response */
    method OnResponse(r: Response)
      modifies this
      ensures State() == Record(old(State()), r)
    {
      if Contains(r.url, CheckinPath) {
        raw := Some(r.text);
        if r.parse.Parsed? {
          json := r.parse.value;
        }
      }
    }

    /** The page's responses arriving one after another */
    method Deliver(rs: seq<Response>)
      modifies this
      ensures State() == Replay(old(State()), rs)
    {
      for k := 0 to |rs|
        invariant State() == Replay(old(State()), rs[..k])
      {
        assert rs[..k + 1][..k] == rs[..k];
        OnResponse(rs[k]);
      }
      assert rs[..|rs|] == rs;
    }

    /** `_read_intercepted` */
    method Read() returns (r: Option<CheckinResult>)
      ensures r == ReadIntercepted(State())
    {
      if HasCount(json) {
        r := Some(CountsOf(json.value.fields));
      } else if raw.Some? {
        r := ParseText(raw.value);
      } else {
        r := None;
      }
    }
  }
}
