/**
 * The two bounded waits of the check-in flow, each a loop with one
 * observation per second: waiting for the interstitial to clear and waiting
 * for the CAPTCHA widget to write its token. Sleeping and logging are not
 * modelled; observation k is what the k-th poll sees.
 */
module Pollers {
  import opened Page

  /** `_pass_cf_challenge`'s default timeout, in seconds */
  const ChallengeTimeout := 90
  /** `_wait_turnstile`'s default timeout, in seconds */
  const TurnstileTimeout := 20
  /** The second at which `_wait_turnstile` calls the assist hook again */
  const AssistAgainAt := 10

  /** Some title among the first `timeout` polls shows a clear page */
  ghost predicate ClearsWithin(titles: seq<TitleRead>, timeout: nat)
    requires timeout <= |titles|
  {
    exists k :: 0 <= k < timeout && !OnCfChallenge(titles[k])
  }

  /**
   * `_pass_cf_challenge`: poll the title once per second; succeed at the
   * first clear title, fail after `timeout` challenged ones.
   */
  method PassCfChallenge(titles: seq<TitleRead>, timeout: nat) returns (passed: bool, polls: nat)
    requires timeout <= |titles|
    ensures passed <==> ClearsWithin(titles, timeout)
    ensures polls <= timeout
    ensures passed ==> 1 <= polls && !OnCfChallenge(titles[polls - 1])
    ensures !passed ==> polls == timeout
    ensures forall k :: 0 <= k < polls - 1 ==> OnCfChallenge(titles[k])
  {
    polls := 0;
    for sec := 0 to timeout
      invariant polls == sec
      invariant forall k :: 0 <= k < sec ==> OnCfChallenge(titles[k])
    {
      polls := polls + 1;
      if !OnCfChallenge(titles[sec]) {
        return true, polls;
      }
    }
    passed := false;
  }

  /** Some poll among the first `timeout` sees the CAPTCHA token */
  ghost predicate SolvedWithin(tokens: seq<bool>, timeout: nat)
    requires timeout <= |tokens|
  {
    exists k :: 0 <= k < timeout && tokens[k]
  }

  /**
   * `_wait_turnstile`: the assist hook runs before the first poll (recorded
   * as second 0) and once more after an unsuccessful poll at second 10; each
   * poll checks for the widget's token. `assists` lists the seconds at which
   * the hook ran; its failures are swallowed, so it has no other effect here.
   */
  method WaitTurnstile(tokens: seq<bool>, timeout: nat) returns (solved: bool, polls: nat, assists: seq<nat>)
    requires timeout <= |tokens|
    ensures solved <==> SolvedWithin(tokens, timeout)
    ensures polls <= timeout
    ensures solved ==> 1 <= polls && tokens[polls - 1]
    ensures !solved ==> polls == timeout
    ensures forall k :: 0 <= k < polls - 1 ==> !tokens[k]
    ensures assists ==
      if AssistAgainAt < timeout && forall k :: 0 <= k <= AssistAgainAt ==> !tokens[k]
      then [0, AssistAgainAt] else [0]
  {
    assists := [0];
    polls := 0;
    for sec := 0 to timeout
      invariant polls == sec
      invariant forall k :: 0 <= k < sec ==> !tokens[k]
      invariant assists == if AssistAgainAt < sec then [0, AssistAgainAt] else [0]
    {
      polls := polls + 1;
      if tokens[sec] {
        return true, polls, assists;
      }
      if sec == AssistAgainAt {
        assists := assists + [AssistAgainAt];
      }
    }
    solved := false;
  }
}
