/**
 The command grammar: which command a transcript addresses, the query a
 launch command carries, and the first alias that query names.
 */
module Matcher {
  import opened Wrappers
  import opened Text
  import opened Grammar

  datatype Intent = WakeUp | Relax | Exit | Launch(query: string) | NoCommand

  /** `any(word + trigger in text for word in words)`. */
  function AnyAppeal(words: seq<string>, trigger: string, text: string): bool {
    if |words| == 0 then false
    else Contains(text, words[0] + trigger) || AnyAppeal(words[1..], trigger, text)
  }

  /** The `or` chain over the wake words holds exactly when one of them, followed by the trigger, occurs. */
  lemma {:induction false} AnyAppealIff(words: seq<string>, trigger: string, text: string)
    ensures AnyAppeal(words, trigger, text) <==> exists i :: 0 <= i < |words| && Contains(text, words[i] + trigger)
  {
    if |words| > 0 {
      AnyAppealIff(words[1..], trigger, text);
      assert forall i :: 1 <= i < |words| ==> words[i] == words[1..][i - 1];
    }
  }

  /** Some wake word of the locale, followed by `trigger`, occurs in the transcript. */
  ghost predicate Addressed(loc: Locale, trigger: string, text: string) {
    exists i :: 0 <= i < |loc.appealWords| && Contains(text, loc.appealWords[i] + trigger)
  }

  /** The launch query: the transcript with every copy of the launch literal deleted, then stripped. */
  function LaunchQuery(loc: Locale, text: string): string {
    Strip(RemoveAll(text, loc.launchLiteral))
  }

  /**
   The `if/elif` chain of the recognition loop: wake-up is tested first, then
   relax, exit and launch; the first command addressed is the only one taken.
   */
  function Classify(loc: Locale, text: string): (r: Intent)
    ensures r == WakeUp <==> Addressed(loc, loc.wakeTrigger, text)
    ensures r == Relax <==>
              !Addressed(loc, loc.wakeTrigger, text) && Addressed(loc, loc.relaxTrigger, text)
    ensures r == Exit <==>
              && !Addressed(loc, loc.wakeTrigger, text) && !Addressed(loc, loc.relaxTrigger, text)
              && Addressed(loc, loc.exitTrigger, text)
    ensures r.Launch? <==>
              && !Addressed(loc, loc.wakeTrigger, text) && !Addressed(loc, loc.relaxTrigger, text)
              && !Addressed(loc, loc.exitTrigger, text) && Addressed(loc, loc.launchTrigger, text)
    ensures r.Launch? ==> r.query == LaunchQuery(loc, text)
    ensures r == NoCommand <==>
              && !Addressed(loc, loc.wakeTrigger, text) && !Addressed(loc, loc.relaxTrigger, text)
              && !Addressed(loc, loc.exitTrigger, text) && !Addressed(loc, loc.launchTrigger, text)
  {
    AnyAppealIff(loc.appealWords, loc.wakeTrigger, text);
    AnyAppealIff(loc.appealWords, loc.relaxTrigger, text);
    AnyAppealIff(loc.appealWords, loc.exitTrigger, text);
    AnyAppealIff(loc.appealWords, loc.launchTrigger, text);
    if AnyAppeal(loc.appealWords, loc.wakeTrigger, text) then WakeUp
    else if AnyAppeal(loc.appealWords, loc.relaxTrigger, text) then Relax
    else if AnyAppeal(loc.appealWords, loc.exitTrigger, text) then Exit
    else if AnyAppeal(loc.appealWords, loc.launchTrigger, text) then Launch(LaunchQuery(loc, text))
    else NoCommand
  }

  /**
   For a command spoken as the launch literal, a separator and a query that
   does not itself repeat the literal, the launch query is the stripped query.
   */
  lemma LaunchQueryOfCommand(loc: Locale, sep: char, q: string)
    requires |loc.launchLiteral| > 0 && !IsSpace(loc.launchLiteral[0]) && IsSpace(sep)
    requires !Contains(q, loc.launchLiteral)
    ensures LaunchQuery(loc, loc.launchLiteral + [sep] + q) == Strip(q)
  {
    var lit := loc.launchLiteral;
    var t := [sep] + q;
    assert lit + [sep] + q == lit + t;
    ContainsPastHead(sep, q, lit);
    RemoveAllLeading(lit, t);
    StripSkipsSpace(sep, q);
  }

  /** `apps[i]` is the first alias, in table order, whose key occurs in the query. */
  ghost predicate FirstMatch(apps: seq<(string, Target)>, query: string, i: int) {
    && 0 <= i < |apps|
    && Contains(query, apps[i].0)
    && forall j :: 0 <= j < i ==> !Contains(query, apps[j].0)
  }

  /** The loop of `launch_some_program` over the alias table, from entry `from` on. */
  function FindApp(apps: seq<(string, Target)>, query: string, from: nat): Option<nat>
    decreases |apps| - from
  {
    if from >= |apps| then None
    else if Contains(query, apps[from].0) then Some(from)
    else FindApp(apps, query, from + 1)
  }

  /** The scan from entry `from` stops at the first key that occurs in the query. */
  lemma {:induction false} FindAppSpec(apps: seq<(string, Target)>, query: string, from: nat)
    ensures var r := FindApp(apps, query, from);
            && (r.Some? ==> from <= r.value < |apps| && Contains(query, apps[r.value].0))
            && (r.Some? ==> forall j :: from <= j < r.value ==> !Contains(query, apps[j].0))
            && (r.None? ==> forall j :: from <= j < |apps| ==> !Contains(query, apps[j].0))
    decreases |apps| - from
  {
    if from < |apps| && !Contains(query, apps[from].0) {
      FindAppSpec(apps, query, from + 1);
    }
  }

  /** Lookup from the start finds the first match, and fails only when no key matches. */
  lemma FindAppIsFirstMatch(apps: seq<(string, Target)>, query: string)
    ensures FindApp(apps, query, 0).Some? ==> FirstMatch(apps, query, FindApp(apps, query, 0).value)
    ensures FindApp(apps, query, 0).None? <==> forall j :: 0 <= j < |apps| ==> !Contains(query, apps[j].0)
    ensures forall i :: FirstMatch(apps, query, i) ==> FindApp(apps, query, 0) == Some(i)
  {
    FindAppSpec(apps, query, 0);
  }

  /**
   An alias whose key contains the key of an earlier alias can never be
   reported: the earlier one matches first on every query.
   */
  lemma ShadowedAlias(apps: seq<(string, Target)>, query: string, j: nat, k: nat)
    requires j < k < |apps| && Contains(apps[k].0, apps[j].0)
    ensures FindApp(apps, query, 0) != Some(k)
  {
    FindAppSpec(apps, query, 0);
    if Contains(query, apps[k].0) {
      ContainsTransitive(query, apps[k].0, apps[j].0);
    }
  }
}
