/**
 Concrete transcripts run through the two locale tables: the end-to-end
 behaviour the scripts show for a few representative commands.

 Each transcript is taken apart in small steps: which triggers it addresses,
 what launch query it leaves, and what the resulting intent does.
 */
module Scenarios {
  import opened Wrappers
  import opened Text
  import opened Grammar
  import opened Matcher
  import opened Dispatch
  import Speech

  /** A transcript lacking one character of a trigger addresses it with no wake word. */
  lemma TriggerCharAbsent(loc: Locale, trigger: string, text: string, m: nat)
    requires m < |trigger| && trigger[m] !in text
    ensures !Addressed(loc, trigger, text)
  {
    forall i | 0 <= i < |loc.appealWords|
      ensures !Contains(text, loc.appealWords[i] + trigger)
    {
      var w := loc.appealWords[i];
      CharAbsent(text, w + trigger, |w| + m);
      assert (w + trigger)[|w| + m] == trigger[m];
    }
  }

  /** A transcript lacking two adjacent characters of a trigger addresses it with no wake word. */
  lemma TriggerPairAbsent(loc: Locale, trigger: string, text: string, m: nat)
    requires m + 1 < |trigger|
    requires !exists j :: 0 <= j < |text| - 1 && text[j] == trigger[m] && text[j + 1] == trigger[m + 1]
    ensures !Addressed(loc, trigger, text)
  {
    forall i | 0 <= i < |loc.appealWords|
      ensures !Contains(text, loc.appealWords[i] + trigger)
    {
      var w := loc.appealWords[i];
      PairAbsent(text, w + trigger, |w| + m);
      assert (w + trigger)[|w| + m] == trigger[m] && (w + trigger)[|w| + m + 1] == trigger[m + 1];
    }
  }

  /** A wake word followed by the trigger, found at index `i`, addresses the trigger. */
  lemma TriggerSpoken(loc: Locale, trigger: string, text: string, w: nat, i: nat)
    requires w < |loc.appealWords| && OccursAt(text, loc.appealWords[w] + trigger, i)
    ensures Addressed(loc, trigger, text)
  {
    ContainsWitness(text, loc.appealWords[w] + trigger, i);
  }

  /** A launch intent whose query first matches alias `i` starts that alias and confirms it by name. */
  lemma LaunchDispatch(loc: Locale, env: Env, q: string, i: nat)
    requires FirstMatch(loc.apps, q, i)
    ensures Dispatch.Dispatch(loc, env, Launch(q)) ==
              [LauncherFor(env, PathOf(env, loc.apps[i].1)), Speak(loc.apps[i].0 + loc.launchedSuffix)]
  {
    FindAppIsFirstMatch(loc.apps, q);
  }

  /** A transcript addressing only the launch trigger is classified as a launch of its launch query. */
  lemma ClassifiedLaunch(loc: Locale, text: string, q: string)
    requires !Addressed(loc, loc.wakeTrigger, text) && !Addressed(loc, loc.relaxTrigger, text)
    requires !Addressed(loc, loc.exitTrigger, text) && Addressed(loc, loc.launchTrigger, text)
    requires LaunchQuery(loc, text) == q
    ensures Classify(loc, text) == Launch(q)
  {
  }

  /** With distinct paths, a query whose first alias names Steam starts Steam and confirms that alias. */
  lemma SteamAliasDispatch(loc: Locale, env: Env, q: string, i: nat)
    requires DistinctPaths(env) && FirstMatch(loc.apps, q, i) && loc.apps[i].1 == Steam
    ensures Dispatch.Dispatch(loc, env, Launch(q)) == [StartFile(env.steamPath), Speak(loc.apps[i].0 + loc.launchedSuffix)]
  {
    LaunchDispatch(loc, env, q, i);
    LauncherMatchesTarget(env, Steam);
  }

  /** Whatever else it says, a transcript containing "andromeda wake up" runs the full wake-up sequence. */
  lemma EnglishWakeUpWins(env: Env, text: string)
    requires Contains(text, "andromeda wake up")
    ensures Handle(English, env, text) ==
              [Speak("Welcome back, commander."), StartFile(env.steamPath), System(env.discordPath),
               OpenEdge("https://www.bing.com")]
  {
    assert English.appealWords[0] + English.wakeTrigger == "andromeda wake up";
    assert text != "" by {
      CharAbsent(text, "andromeda wake up", 0);
    }
  }

  /** Relax outranks exit: a transcript with both, and no wake-up, only opens the relax site. */
  lemma EnglishRelaxBeatsExit(env: Env, text: string)
    requires Contains(text, "andromeda relax") && Contains(text, "andromeda exit")
    requires !Contains(text, "andromeda wake up")
    ensures Handle(English, env, text) == [Speak("Relax mode activated."), OpenEdge(env.relaxSite)]
  {
    assert English.appealWords[0] + English.wakeTrigger == "andromeda wake up";
    assert English.appealWords[0] + English.relaxTrigger == "andromeda relax";
    assert text != "" by {
      CharAbsent(text, "andromeda relax", 0);
    }
  }

  /** In English, a transcript spelling "andromeda exit" at its start, with no 'w' and no 'l', addresses only exit. */
  lemma EnglishExitAddressed(text: string)
    requires 'w' !in text && 'l' !in text && OccursAt(text, "andromeda exit", 0)
    ensures !Addressed(English, English.wakeTrigger, text) && !Addressed(English, English.relaxTrigger, text)
    ensures Addressed(English, English.exitTrigger, text)
  {
    assert English.wakeTrigger[1] == 'w' && English.relaxTrigger[3] == 'l';
    assert English.appealWords[0] + English.exitTrigger == "andromeda exit";
    TriggerCharAbsent(English, English.wakeTrigger, text, 1);
    TriggerCharAbsent(English, English.relaxTrigger, text, 3);
    TriggerSpoken(English, English.exitTrigger, text, 0, 0);
  }

  /** Character facts about the literal transcript, kept apart from the locale constants so the two are never unrolled together. */
  lemma EnglishExitShape(text: string)
    requires text == "andromeda exit"
    ensures 'w' !in text && 'l' !in text && OccursAt(text, "andromeda exit", 0)
  {
  }

  /** "andromeda exit" says goodbye, stops the speech engine and exits with status 0. */
  lemma EnglishExit(env: Env, text: string)
    requires text == "andromeda exit"
    ensures Handle(English, env, text) == [Speak("Goodbye, commander."), StopEngine, SysExit(0)]
  {
    EnglishExitShape(text);
    EnglishExitAddressed(text);
  }

  /**
   In English, a transcript opening with "andromeda launch" and holding no 'w'
   and no 'x' addresses the launch trigger and no trigger that outranks it.
   */
  lemma EnglishLaunchOnly(text: string)
    requires 'w' !in text && 'x' !in text && OccursAt(text, "andromeda launch", 0)
    ensures !Addressed(English, English.wakeTrigger, text) && !Addressed(English, English.relaxTrigger, text)
    ensures !Addressed(English, English.exitTrigger, text) && Addressed(English, English.launchTrigger, text)
  {
    assert English.wakeTrigger[1] == 'w' && English.relaxTrigger[5] == 'x' && English.exitTrigger[2] == 'x';
    assert English.appealWords[0] + English.launchTrigger == "andromeda launch";
    TriggerCharAbsent(English, English.wakeTrigger, text, 1);
    TriggerCharAbsent(English, English.relaxTrigger, text, 5);
    TriggerCharAbsent(English, English.exitTrigger, text, 2);
    TriggerSpoken(English, English.launchTrigger, text, 0, 0);
  }

  /** The same, when the transcript holds an 'x' but never "re" or " e". */
  lemma EnglishLaunchOnlyByPairs(text: string)
    requires 'w' !in text && OccursAt(text, "andromeda launch", 0)
    requires !exists j :: 0 <= j < |text| - 1 && text[j] == 'r' && text[j + 1] == 'e'
    requires !exists j :: 0 <= j < |text| - 1 && text[j] == ' ' && text[j + 1] == 'e'
    ensures !Addressed(English, English.wakeTrigger, text) && !Addressed(English, English.relaxTrigger, text)
    ensures !Addressed(English, English.exitTrigger, text) && Addressed(English, English.launchTrigger, text)
  {
    assert English.wakeTrigger[1] == 'w';
    assert English.relaxTrigger[1] == 'r' && English.relaxTrigger[2] == 'e';
    assert English.exitTrigger[0] == ' ' && English.exitTrigger[1] == 'e';
    assert English.appealWords[0] + English.launchTrigger == "andromeda launch";
    TriggerCharAbsent(English, English.wakeTrigger, text, 1);
    TriggerPairAbsent(English, English.relaxTrigger, text, 1);
    TriggerPairAbsent(English, English.exitTrigger, text, 0);
    TriggerSpoken(English, English.launchTrigger, text, 0, 0);
  }

  /**
   A command spoken as the launch literal, one space and a query that misses a
   character of the literal and has no surrounding blanks leaves that query.
   */
  lemma LaunchQueryIs(loc: Locale, text: string, q: string, k: nat)
    requires |loc.launchLiteral| > 0 && !IsSpace(loc.launchLiteral[0])
    requires text == loc.launchLiteral + [' '] + q
    requires k < |loc.launchLiteral| && loc.launchLiteral[k] !in q
    requires |q| > 0 ==> !IsSpace(q[0]) && !IsSpace(q[|q| - 1])
    ensures LaunchQuery(loc, text) == q
  {
    CharAbsent(q, loc.launchLiteral, k);
    LaunchQueryOfCommand(loc, ' ', q);
    StripUnchanged(q);
  }

  /** Character facts about the literal transcript, kept apart from the locale constants so the two are never unrolled together. */
  lemma EnglishSteamShape(text: string)
    requires text == "andromeda launch steam"
    ensures 'w' !in text && 'x' !in text && OccursAt(text, "andromeda launch", 0)
    ensures text == "andromeda launch" + [' '] + "steam"
  {
  }

  /** "andromeda launch steam" is a launch command whose query is "steam". */
  lemma EnglishSteamIntent(text: string)
    requires text == "andromeda launch steam"
    ensures Classify(English, text) == Launch("steam")
  {
    EnglishSteamShape(text);
    EnglishLaunchOnly(text);
    assert English.launchLiteral == "andromeda launch";
    LaunchQueryIs(English, text, "steam", 1);
    ClassifiedLaunch(English, text, "steam");
  }

  /** The query "steam" matches the first alias, so Steam is started and confirmed. */
  lemma EnglishSteamEffects(env: Env, q: string)
    requires DistinctPaths(env) && q == "steam"
    ensures Dispatch.Dispatch(English, env, Launch(q)) == [StartFile(env.steamPath), Speak("steam launched.")]
  {
    ContainsWitness(q, English.apps[0].0, 0);
    SteamAliasDispatch(English, env, q, 0);
    assert English.apps[0].0 + English.launchedSuffix == "steam launched.";
  }

  /** "andromeda launch steam" starts Steam once and confirms it; nothing else is launched. */
  lemma EnglishLaunchSteam(env: Env, text: string)
    requires DistinctPaths(env) && text == "andromeda launch steam"
    ensures Handle(English, env, text) == [StartFile(env.steamPath), Speak("steam launched.")]
  {
    EnglishSteamIntent(text);
    EnglishSteamEffects(env, "steam");
  }

  /** Character facts about the literal transcript, kept apart from the locale constants so the two are never unrolled together. */
  lemma EnglishUnknownShape(text: string)
    requires text == "andromeda launch nonexistent"
    ensures 'w' !in text && OccursAt(text, "andromeda launch", 0)
    ensures !exists j :: 0 <= j < |text| - 1 && text[j] == 'r' && text[j + 1] == 'e'
    ensures !exists j :: 0 <= j < |text| - 1 && text[j] == ' ' && text[j + 1] == 'e'
    ensures text == "andromeda launch" + [' '] + "nonexistent"
  {
  }

  /** "andromeda launch nonexistent" is a launch command whose query is "nonexistent". */
  lemma EnglishUnknownIntent(text: string)
    requires text == "andromeda launch nonexistent"
    ensures Classify(English, text) == Launch("nonexistent")
  {
    EnglishUnknownShape(text);
    EnglishLaunchOnlyByPairs(text);
    assert English.launchLiteral == "andromeda launch";
    LaunchQueryIs(English, text, "nonexistent", 0);
    ClassifiedLaunch(English, text, "nonexistent");
  }

  /** The query "nonexistent" holds no English alias key, so only the not-found reply is spoken. */
  lemma EnglishUnknownEffects(env: Env, q: string)
    requires q == "nonexistent"
    ensures Dispatch.Dispatch(English, env, Launch(q)) == [Speak("Cannot find an application with that name.")]
  {
    CharAbsent(q, English.apps[0].0, 3);
    CharAbsent(q, English.apps[1].0, 0);
    CharAbsent(q, English.apps[2].0, 1);
    FindAppIsFirstMatch(English.apps, q);
  }

  /** A launch naming no known application only speaks the not-found reply. */
  lemma EnglishLaunchUnknown(env: Env, text: string)
    requires text == "andromeda launch nonexistent"
    ensures Handle(English, env, text) == [Speak("Cannot find an application with that name.")]
  {
    EnglishUnknownIntent(text);
    EnglishUnknownEffects(env, "nonexistent");
  }

  /** Every inflection of the Russian wake word, followed by "пробуждение", wakes the assistant. */
  lemma RussianInflectionsWake(env: Env, i: nat)
    requires i < 3
    ensures Handle(Russian, env, Russian.appealWords[i] + " пробуждение") ==
              [Speak("С возвращением, командир."), StartFile(env.steamPath), System(env.discordPath),
               OpenEdge("https://www.bing.com")]
  {
    var text := Russian.appealWords[i] + " пробуждение";
    ContainsWitness(text, Russian.appealWords[i] + Russian.wakeTrigger, 0);
  }

  /** In Russian, a transcript spelling "андромеда пока" at its start, with no 'б' and no 'л', addresses only exit. */
  lemma RussianExitAddressed(text: string)
    requires 'б' !in text && 'л' !in text && OccursAt(text, "андромеда пока", 0)
    ensures !Addressed(Russian, Russian.wakeTrigger, text) && !Addressed(Russian, Russian.relaxTrigger, text)
    ensures Addressed(Russian, Russian.exitTrigger, text)
  {
    assert Russian.wakeTrigger[4] == 'б' && Russian.relaxTrigger[3] == 'л';
    assert Russian.appealWords[0] + Russian.exitTrigger == "андромеда пока";
    TriggerCharAbsent(Russian, Russian.wakeTrigger, text, 4);
    TriggerCharAbsent(Russian, Russian.relaxTrigger, text, 3);
    TriggerSpoken(Russian, Russian.exitTrigger, text, 0, 0);
  }

  /** Character facts about the literal transcript, kept apart from the locale constants so the two are never unrolled together. */
  lemma RussianExitShape(text: string)
    requires text == "андромеда пока"
    ensures 'б' !in text && 'л' !in text && OccursAt(text, "андромеда пока", 0)
  {
  }

  /** "андромеда пока" says goodbye, stops the speech engine and exits with status 0. */
  lemma RussianExit(env: Env, text: string)
    requires text == "андромеда пока"
    ensures Handle(Russian, env, text) == [Speak("До свидания, командир."), StopEngine, SysExit(0)]
  {
    RussianExitShape(text);
    RussianExitAddressed(text);
  }

  /**
   In Russian, a transcript opening with the first or second wake word and
   "запусти", and holding no 'б', 'л' or 'к', addresses only the launch trigger.
   */
  lemma RussianLaunchOnly(text: string)
    requires 'б' !in text && 'л' !in text && 'к' !in text
    requires OccursAt(text, "андромеда запусти", 0) || OccursAt(text, "андромеду запусти", 0)
    ensures !Addressed(Russian, Russian.wakeTrigger, text) && !Addressed(Russian, Russian.relaxTrigger, text)
    ensures !Addressed(Russian, Russian.exitTrigger, text) && Addressed(Russian, Russian.launchTrigger, text)
  {
    assert Russian.wakeTrigger[4] == 'б' && Russian.relaxTrigger[3] == 'л' && Russian.exitTrigger[3] == 'к';
    TriggerCharAbsent(Russian, Russian.wakeTrigger, text, 4);
    TriggerCharAbsent(Russian, Russian.relaxTrigger, text, 3);
    TriggerCharAbsent(Russian, Russian.exitTrigger, text, 3);
    if OccursAt(text, "андромеда запусти", 0) {
      assert Russian.appealWords[0] + Russian.launchTrigger == "андромеда запусти";
      TriggerSpoken(Russian, Russian.launchTrigger, text, 0, 0);
    } else {
      assert Russian.appealWords[1] + Russian.launchTrigger == "андромеду запусти";
      TriggerSpoken(Russian, Russian.launchTrigger, text, 1, 0);
    }
  }

  /** A Russian transcript that never shows "да" holds no launch literal, so its launch query is itself. */
  lemma RussianQueryWhole(text: string)
    requires !exists j :: 0 <= j < |text| - 1 && text[j] == 'д' && text[j + 1] == 'а'
    requires |text| > 0 ==> !IsSpace(text[0]) && !IsSpace(text[|text| - 1])
    ensures LaunchQuery(Russian, text) == text
  {
    assert Russian.launchLiteral[7] == 'д' && Russian.launchLiteral[8] == 'а';
    PairAbsent(text, Russian.launchLiteral, 7);
    RemoveAllAbsent(text, Russian.launchLiteral);
    StripUnchanged(text);
  }

  /** Character facts about the literal transcript, kept apart from the locale constants so the two are never unrolled together. */
  lemma RussianPrefixShape(text: string)
    requires text == "андромеду запусти стим"
    ensures 'б' !in text && 'л' !in text && 'к' !in text && OccursAt(text, "андромеду запусти", 0)
    ensures !exists j :: 0 <= j < |text| - 1 && text[j] == 'д' && text[j + 1] == 'а'
    ensures !IsSpace(text[0]) && !IsSpace(text[|text| - 1])
  {
  }

  /** "андромеду запусти стим" is a launch command, and nothing is deleted from its query. */
  lemma RussianPrefixIntent(text: string)
    requires text == "андромеду запусти стим"
    ensures Classify(Russian, text) == Launch(text)
  {
    RussianPrefixShape(text);
    RussianLaunchOnly(text);
    RussianQueryWhole(text);
    ClassifiedLaunch(Russian, text, text);
  }

  /** A query with no "с " and no 'ч' that shows "тим" reaches the fourth alias first. */
  lemma RussianTimFirst(q: string, i: nat)
    requires 'ч' !in q && OccursAt(q, "тим", i)
    requires !exists j :: 0 <= j < |q| - 1 && q[j] == 'с' && q[j + 1] == ' '
    ensures FirstMatch(Russian.apps, q, 3)
  {
    assert Russian.apps[0].0 == "с тем" && Russian.apps[1].0 == "с тим";
    assert Russian.apps[2].0 == "чтим" && Russian.apps[3].0 == "тим";
    PairAbsent(q, Russian.apps[0].0, 0);
    PairAbsent(q, Russian.apps[1].0, 0);
    CharAbsent(q, Russian.apps[2].0, 0);
    ContainsWitness(q, Russian.apps[3].0, i);
  }

  /** Character facts about the launch query, kept apart from the alias table so the two are never unrolled together. */
  lemma RussianPrefixMatchShape(q: string)
    requires q == "андромеду запусти стим"
    ensures 'ч' !in q && OccursAt(q, "тим", 19)
    ensures !exists j :: 0 <= j < |q| - 1 && q[j] == 'с' && q[j + 1] == ' '
  {
  }

  /** The whole transcript, used as the query, first matches the alias "тим". */
  lemma RussianPrefixEffects(env: Env, q: string)
    requires DistinctPaths(env) && q == "андромеду запусти стим"
    ensures Dispatch.Dispatch(Russian, env, Launch(q)) == [StartFile(env.steamPath), Speak("тим запущен.")]
  {
    RussianPrefixMatchShape(q);
    RussianTimFirst(q, 19);
    SteamAliasDispatch(Russian, env, q, 3);
    assert Russian.apps[3].0 + Russian.launchedSuffix == "тим запущен.";
  }

  /**
   Only "андромеда запусти" is deleted: for "андромеду запусти стим" the launch
   branch is taken with the whole transcript as the query, and the alias "тим"
   inside "стим" is what starts Steam.
   */
  lemma RussianLaunchKeepsPrefix(env: Env, text: string)
    requires DistinctPaths(env) && text == "андромеду запусти стим"
    ensures Classify(Russian, text) == Launch(text)
    ensures Handle(Russian, env, text) == [StartFile(env.steamPath), Speak("тим запущен.")]
  {
    RussianPrefixIntent(text);
    RussianPrefixEffects(env, text);
  }

  /** Character facts about the literal transcript, kept apart from the locale constants so the two are never unrolled together. */
  lemma RussianSystemShape(text: string)
    requires text == "андромеда запусти систем"
    ensures 'б' !in text && 'л' !in text && 'к' !in text && OccursAt(text, "андромеда запусти", 0)
    ensures text == "андромеда запусти" + [' '] + "систем"
  {
  }

  /** "андромеда запусти систем" is a launch command whose query is "систем". */
  lemma RussianSystemIntent(text: string)
    requires text == "андромеда запусти систем"
    ensures Classify(Russian, text) == Launch("систем")
  {
    RussianSystemShape(text);
    RussianLaunchOnly(text);
    assert Russian.launchLiteral == "андромеда запусти";
    LaunchQueryIs(Russian, text, "систем", 0);
    ClassifiedLaunch(Russian, text, "систем");
  }

  /** A query with no blank, no 'ч' and no "ти" that shows "тем" reaches the fifth alias first. */
  lemma RussianTemFirst(q: string, i: nat)
    requires ' ' !in q && 'ч' !in q && OccursAt(q, "тем", i)
    requires !exists j :: 0 <= j < |q| - 1 && q[j] == 'т' && q[j + 1] == 'и'
    ensures FirstMatch(Russian.apps, q, 4)
  {
    assert Russian.apps[0].0 == "с тем" && Russian.apps[1].0 == "с тим";
    assert Russian.apps[2].0 == "чтим" && Russian.apps[3].0 == "тим" && Russian.apps[4].0 == "тем";
    CharAbsent(q, Russian.apps[0].0, 1);
    CharAbsent(q, Russian.apps[1].0, 1);
    CharAbsent(q, Russian.apps[2].0, 0);
    PairAbsent(q, Russian.apps[3].0, 0);
    ContainsWitness(q, Russian.apps[4].0, i);
  }

  /** Character facts about the launch query, kept apart from the alias table so the two are never unrolled together. */
  lemma RussianSystemMatchShape(q: string)
    requires q == "систем"
    ensures ' ' !in q && 'ч' !in q && OccursAt(q, "тем", 3)
    ensures !exists j :: 0 <= j < |q| - 1 && q[j] == 'т' && q[j + 1] == 'и'
  {
  }

  /** The query "систем" first matches the alias "тем", which names Steam. */
  lemma RussianSystemEffects(env: Env, q: string)
    requires DistinctPaths(env) && q == "систем"
    ensures Dispatch.Dispatch(Russian, env, Launch(q)) == [StartFile(env.steamPath), Speak("тем запущен.")]
  {
    RussianSystemMatchShape(q);
    RussianTemFirst(q, 3);
    SteamAliasDispatch(Russian, env, q, 4);
    assert Russian.apps[4].0 + Russian.launchedSuffix == "тем запущен.";
  }

  /**
   "систем" comes after "тем" in the alias table and contains it, so it is never
   reported: "андромеда запусти систем" confirms "тем запущен.".
   */
  lemma RussianSystemShadowed(env: Env, query: string, text: string)
    requires DistinctPaths(env) && text == "андромеда запусти систем"
    ensures FindApp(Russian.apps, query, 0) != Some(5)
    ensures Handle(Russian, env, text) == [StartFile(env.steamPath), Speak("тем запущен.")]
  {
    ContainsWitness(Russian.apps[5].0, Russian.apps[4].0, 3);
    ShadowedAlias(Russian.apps, query, 4, 5);
    RussianSystemIntent(text);
    RussianSystemEffects(env, "систем");
  }

  /** Replies queued as "one", "two", "three" are spoken as "one", "two", "three". */
  lemma SpeechKeepsOrder()
    ensures Speech.Drain(Speech.Enqueue(Speech.Enqueue(Speech.Enqueue([], "one"), "two"), "three"))
            == (["one", "two", "three"], false)
  {
    Speech.DrainDetermined(Speech.Enqueue(Speech.Enqueue(Speech.Enqueue([], "one"), "two"), "three"),
                           ["one", "two", "three"]);
  }
}
