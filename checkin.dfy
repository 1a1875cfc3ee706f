/**
 * The three submission tiers and the orchestrator `checkin`, run against an
 * abstract view of the browser tab: what each evaluation, query or request
 * returns at the moment the code makes it.
 */
module Checkin {
  import opened Text
  import opened Parser
  import opened Page
  import opened Pollers

  /** The two failures `checkin` raises */
  datatype CheckinError =
    | ControlNotFound    // ValueError: the check-in button is missing
    | ChallengeTimedOut  // RuntimeError: the interstitial did not clear in time

  /** What a call returns, or the exception it raises */
  datatype Outcome = Returned(result: Option<CheckinResult>) | Raised(error: CheckinError)

  /** The submission tiers, in the order `checkin` may run them */
  datatype Tier = NormalTier | FetchTier | NoCaptchaTier

  // ----- tier 1: `_submit_normal` -----

  /**
   * What tier 1 observes: whether `#do_checkin` is there to click, the
   * responses the page receives during the five-second wait, then the button
   * state, the form text and the whole page.
   */
  datatype NormalView = NormalView(
    buttonFound: bool,
    responses: seq<Response>,
    buttonAfter: Option<Button>,
    formText: string,
    pageHtml: string)

  /**
   * Tier 1's confirmations in their fixed order: the interceptor, then a
   * disabled or `btn-success` button, then a vanished button with the
   * already-done marker, then the whole page through the text parser.
   */
  function ConfirmNormal(captured: Capture, buttonAfter: Option<Button>, formText: string, pageHtml: string)
    : (r: Option<CheckinResult>)
    ensures ReadIntercepted(captured).Some? ==> r == ReadIntercepted(captured)
    ensures ReadIntercepted(captured).None? && buttonAfter.Some? && ButtonDone(buttonAfter.value) ==>
      r == Some(Unreported)
    ensures ReadIntercepted(captured).None? && buttonAfter.None? && AlreadyDone(formText) ==>
      r == Some(CheckinResult(-1, ExtractSerialDays(formText)))
    ensures ReadIntercepted(captured).None? && !(buttonAfter.Some? && ButtonDone(buttonAfter.value))
            && !(buttonAfter.None? && AlreadyDone(formText)) ==>
      r == ParseText(pageHtml)
    ensures r.None? <==>
      ReadIntercepted(captured).None?
      && !(buttonAfter.Some? && ButtonDone(buttonAfter.value))
      && !(buttonAfter.None? && AlreadyDone(formText))
      && ParseText(pageHtml).None?
  {
    var intercepted := ReadIntercepted(captured);
    if intercepted.Some? then intercepted
    else if buttonAfter.Some? && ButtonDone(buttonAfter.value) then Some(Unreported)
    else if buttonAfter.None? && AlreadyDone(formText) then
      Some(CheckinResult(-1, ExtractSerialDays(formText)))
    else ParseText(pageHtml)
  }

  /** What `_submit_normal` returns or raises */
  function NormalOutcome(v: NormalView): (out: Outcome)
    ensures out.Raised? <==> !v.buttonFound
    ensures out.Raised? ==> out.error == ControlNotFound
    ensures out.Returned? ==>
      out.result == ConfirmNormal(Replay(Cleared, v.responses), v.buttonAfter, v.formText, v.pageHtml)
  {
    if !v.buttonFound then Raised(ControlNotFound)
    else Returned(ConfirmNormal(Replay(Cleared, v.responses), v.buttonAfter, v.formText, v.pageHtml))
  }

  /**
   * When the button vanished and the form says the day is done, tier 1
   * reports no cumulative count and the streak from the form, -1 if absent.
   */
  lemma NormalAlreadyDone(captured: Capture, formText: string, pageHtml: string)
    requires ReadIntercepted(captured).None? && AlreadyDone(formText)
    ensures ConfirmNormal(captured, None, formText, pageHtml)
         == Some(CheckinResult(-1, ExtractSerialDays(formText)))
    ensures ConfirmNormal(captured, None, formText, pageHtml).value.serialCheckins == -1
         <==> forall m :: !IsStreakDaysMatch(formText, m)
  {
    ExtractSerialDaysSpec(formText);
  }

  /**
   * `_submit_normal`. The script is installed first, so what was captured
   * before has no influence on the outcome.
   */
  method SubmitNormal(slot: CaptureSlot, v: NormalView) returns (out: Outcome)
    modifies slot
    ensures out == NormalOutcome(v)
    ensures slot.State() == if v.buttonFound then Replay(Cleared, v.responses) else Cleared
  {
    slot.Install();
    if !v.buttonFound {
      return Raised(ControlNotFound);
    }
    // the click; the page's responses land while tier 1 waits
    slot.Deliver(v.responses);
    var r := slot.Read();
    if r.Some? {
      return Returned(r);
    }
    var bs := v.buttonAfter;
    if bs.Some? && ButtonDone(bs.value) {
      return Returned(Some(Unreported));
    }
    if bs.None? && AlreadyDone(v.formText) {
      return Returned(Some(CheckinResult(-1, ExtractSerialDays(v.formText))));
    }
    return Returned(ParseText(v.pageHtml));
  }

  // ----- tier 2: `_submit_fetch` -----

  /**
   * What the in-page POST script hands back: nothing, an error message, or
   * the status and body, with `json.loads` of the body.
   */
  datatype FetchReply =
    | NoReply
    | FetchFailed(message: string)
    | FetchDone(status: int, body: string, bodyParse: BodyParse)

  /** `_submit_fetch`: only a status-200 reply can confirm the check-in */
  function SubmitFetch(reply: FetchReply): (r: Option<CheckinResult>)
    ensures r.Some? ==> reply.FetchDone? && reply.status == 200
  {
    match reply
    case NoReply => None
    case FetchFailed(_) => None
    case FetchDone(status, body, parse) =>
      if status != 200 then None
      else if parse.Parsed? && HasCount(parse.value) then Some(CountsOf(parse.value.value.fields))
      else ParseText(body)
  }

  /**
   * A status-200 body is read exactly as the interceptor would read the same
   * body captured from a `/checkins` response.
   */
  lemma FetchReadsLikeInterceptor(url: string, body: string, parse: BodyParse)
    requires Contains(url, CheckinPath)
    ensures SubmitFetch(FetchDone(200, body, parse))
         == ReadIntercepted(Record(Cleared, Response(url, body, parse)))
  {
  }

  // ----- tier 3: `_submit_no_captcha` -----

  /** `_submit_no_captcha` reads the interceptor at most this many times */
  const NoCaptchaReads := 15

  /**
   * What tier 3 observes: whether `#do_checkin` is there to click, and the
   * responses that arrive before each read (arrivals[k] before read k).
   */
  datatype NoCaptchaView = NoCaptchaView(buttonFound: bool, arrivals: seq<seq<Response>>)

  /** All the responses of the batches, in arrival order */
  function Flatten(batches: seq<seq<Response>>): seq<Response> {
    if batches == [] then [] else Flatten(batches[..|batches| - 1]) + batches[|batches| - 1]
  }

  /** The slot at read k: everything that arrived since the script was installed */
  function CaptureAtRead(arrivals: seq<seq<Response>>, k: nat): (c: Capture)
    requires k < |arrivals|
    ensures c == Replay(Cleared, Flatten(arrivals[..k + 1]))
  {
    if k == 0 then
      assert arrivals[..1][..0] == [];
      assert Flatten(arrivals[..1]) == [] + arrivals[0] == arrivals[0];
      Replay(Cleared, arrivals[0])
    else
      assert arrivals[..k + 1][..k] == arrivals[..k];
      ReplayAppend(Cleared, Flatten(arrivals[..k]), arrivals[k]);
      Replay(CaptureAtRead(arrivals, k - 1), arrivals[k])
  }

  /** Read k sees every response that arrived up to it */
  function ReadAt(arrivals: seq<seq<Response>>, k: nat): (r: Option<CheckinResult>)
    requires k < |arrivals|
    ensures r == ReadIntercepted(Replay(Cleared, Flatten(arrivals[..k + 1])))
    ensures CheckinTexts(Flatten(arrivals[..k + 1])) == [] ==> r.None?
  {
    ReadAfterInstall(Flatten(arrivals[..k + 1]));
    ReadIntercepted(CaptureAtRead(arrivals, k))
  }

  /** The first result among reads k, k+1, ..., the last permitted read */
  function FirstRead(arrivals: seq<seq<Response>>, k: nat): (r: Option<CheckinResult>)
    requires k <= NoCaptchaReads <= |arrivals|
    ensures r.None? <==> forall j :: k <= j < NoCaptchaReads ==> ReadAt(arrivals, j).None?
    decreases NoCaptchaReads - k
  {
    if k == NoCaptchaReads then None
    else if ReadAt(arrivals, k).Some? then ReadAt(arrivals, k)
    else FirstRead(arrivals, k + 1)
  }

  /** A read that yields a result, or the last permitted read, after reads that yield none */
  lemma {:induction false} FirstReadAt(arrivals: seq<seq<Response>>, k: nat, j: nat)
    requires k <= j < NoCaptchaReads <= |arrivals|
    requires forall i :: k <= i < j ==> ReadAt(arrivals, i).None?
    requires ReadAt(arrivals, j).Some? || j == NoCaptchaReads - 1
    ensures FirstRead(arrivals, k) == ReadAt(arrivals, j)
    decreases j - k
  {
    if k < j {
      FirstReadAt(arrivals, k + 1, j);
    }
  }

  /** What `_submit_no_captcha` returns */
  function NoCaptchaResult(v: NoCaptchaView): (r: Option<CheckinResult>)
    requires NoCaptchaReads <= |v.arrivals|
    ensures r.None? <==>
      !v.buttonFound || forall k :: 0 <= k < NoCaptchaReads ==> ReadAt(v.arrivals, k).None?
  {
    if v.buttonFound then FirstRead(v.arrivals, 0) else None
  }

  /**
   * `_submit_no_captcha`: install the script, remove the CAPTCHA wrapper,
   * click, then read the interceptor once per second, at most 15 times,
   * returning the first result.
   */
  method SubmitNoCaptcha(slot: CaptureSlot, v: NoCaptchaView) returns (r: Option<CheckinResult>, readCount: nat)
    requires NoCaptchaReads <= |v.arrivals|
    modifies slot
    ensures r == NoCaptchaResult(v)
    ensures !v.buttonFound ==> readCount == 0 && slot.State() == Cleared
    ensures v.buttonFound ==> 1 <= readCount <= NoCaptchaReads
    ensures v.buttonFound ==> r == ReadAt(v.arrivals, readCount - 1)
    ensures v.buttonFound ==> forall k :: 0 <= k < readCount - 1 ==> ReadAt(v.arrivals, k).None?
    ensures v.buttonFound && r.None? ==> readCount == NoCaptchaReads
    ensures v.buttonFound ==> slot.State() == CaptureAtRead(v.arrivals, readCount - 1)
  {
    slot.Install();
    if !v.buttonFound {
      return None, 0;
    }
    readCount := 0;
    r := None;
    for k := 0 to NoCaptchaReads
      invariant readCount == k && r.None?
      invariant k == 0 ==> slot.State() == Cleared
      invariant k > 0 ==> slot.State() == CaptureAtRead(v.arrivals, k - 1)
      invariant forall i :: 0 <= i < k ==> ReadAt(v.arrivals, i).None?
    {
      slot.Deliver(v.arrivals[k]);
      assert slot.State() == CaptureAtRead(v.arrivals, k);
      readCount := readCount + 1;
      r := slot.Read();
      assert r == ReadAt(v.arrivals, k);
      if r.Some? {
        FirstReadAt(v.arrivals, 0, k);
        return;
      }
    }
    FirstReadAt(v.arrivals, 0, NoCaptchaReads - 1);
  }

  // ----- the orchestrator: `checkin` -----

  /**
   * The tab as `checkin` sees it: the title after navigation, the titles
   * polled while the interstitial shows, the button and form once the page
   * has settled, the CAPTCHA token polls, and what each tier would observe.
   */
  datatype Tab = Tab(
    firstTitle: TitleRead,
    challengeTitles: seq<TitleRead>,
    button: Option<Button>,
    formText: string,
    tokens: seq<bool>,
    normal: NormalView,
    fetch: FetchReply,
    noCaptcha: NoCaptchaView)

  /** The tab answers every poll `checkin` can make */
  predicate Answers(tab: Tab) {
    ChallengeTimeout <= |tab.challengeTitles| && TurnstileTimeout <= |tab.tokens|
    && NoCaptchaReads <= |tab.noCaptcha.arrivals|
  }

  /** No interstitial, or it cleared within the wait */
  ghost predicate PastChallenge(tab: Tab)
    requires Answers(tab)
  {
    !OnCfChallenge(tab.firstTitle) || ClearsWithin(tab.challengeTitles, ChallengeTimeout)
  }

  /** Past the interstitial, with a check-in button that is not yet done */
  ghost predicate ReadyToSubmit(tab: Tab)
    requires Answers(tab)
  {
    PastChallenge(tab) && tab.button.Some? && !ButtonDone(tab.button.value)
  }

  /**
   * `checkin` for one account, after the session cookie is set and the page
   * is opened. `tiers` lists the submission tiers in the order they ran.
   */
  method Checkin(tab: Tab) returns (out: Outcome, tiers: seq<Tier>)
    requires Answers(tab)
    ensures !PastChallenge(tab) ==> out == Raised(ChallengeTimedOut) && tiers == []
    ensures PastChallenge(tab) && tab.button.None? ==>
      tiers == [] && out == if AlreadyDone(tab.formText) then Returned(None) else Raised(ControlNotFound)
    ensures PastChallenge(tab) && tab.button.Some? && ButtonDone(tab.button.value) ==>
      tiers == [] && out == Returned(None)
    ensures ReadyToSubmit(tab) && SolvedWithin(tab.tokens, TurnstileTimeout) ==>
      tiers == [NormalTier] && out == NormalOutcome(tab.normal)
    ensures ReadyToSubmit(tab) && !SolvedWithin(tab.tokens, TurnstileTimeout) ==>
      if SubmitFetch(tab.fetch).Some?
      then tiers == [FetchTier] && out == Returned(SubmitFetch(tab.fetch))
      else tiers == [FetchTier, NoCaptchaTier] && out == Returned(NoCaptchaResult(tab.noCaptcha))
    ensures out.Raised? ==> tiers == [] || (tiers == [NormalTier] && out.error == ControlNotFound)
  {
    // opening the page gives a fresh window, whose capture globals are unset
    var slot := new CaptureSlot();
    tiers := [];
    if OnCfChallenge(tab.firstTitle) {
      // the assist hook runs here; its failures are only logged
      var passed, polls := PassCfChallenge(tab.challengeTitles, ChallengeTimeout);
      if !passed {
        return Raised(ChallengeTimedOut), [];
      }
    }
    var bs := tab.button;
    if bs.None? {
      if AlreadyDone(tab.formText) {
        return Returned(None), [];
      }
      return Raised(ControlNotFound), [];
    }
    if ButtonDone(bs.value) {
      return Returned(None), [];
    }
    var solved, tokenPolls, assists := WaitTurnstile(tab.tokens, TurnstileTimeout);
    if solved {
      out := SubmitNormal(slot, tab.normal);
      return out, [NormalTier];
    }
    var r := SubmitFetch(tab.fetch);
    tiers := [FetchTier];
    if r.Some? {
      return Returned(r), tiers;
    }
    var readCount;
    r, readCount := SubmitNoCaptcha(slot, tab.noCaptcha);
    tiers := tiers + [NoCaptchaTier];
    // when r is None the page is written to a diagnostic file
    return Returned(r), tiers;
  }
}
