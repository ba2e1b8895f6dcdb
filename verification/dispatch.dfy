/**
 What each command does, as an ordered list of effects instead of calls into
 the operating system and the speech engine.
 */
module Dispatch {
  import opened Wrappers
  import opened Text
  import opened Grammar
  import opened Matcher

  /** The configuration read from the environment at start-up. */
  datatype Env = Env(steamPath: string, discordPath: string, edgePath: string, relaxSite: string)

  /** The page `launch_edge` opens when no URL is given. */
  const DefaultUrl := "https://www.bing.com"

  datatype Effect =
    | Speak(text: string)        // `speak`: the reply is put on the speech queue
    | StartFile(path: string)    // `os.startfile`
    | System(command: string)    // `os.system`
    | OpenEdge(url: string)      // `launch_edge`, which falls back to the default browser itself
    | StopEngine                 // `engine.stop()`
    | SysExit(code: int)         // `sys.exit`

  /** The configured path each application is registered under in the alias table. */
  function PathOf(env: Env, t: Target): string {
    match t
    case Steam => env.steamPath
    case Discord => env.discordPath
    case Edge => env.edgePath
  }

  /** How `launch_programs` starts each application. */
  function LaunchEffect(env: Env, t: Target): Effect {
    match t
    case Steam => StartFile(env.steamPath)
    case Discord => System(env.discordPath)
    case Edge => OpenEdge(DefaultUrl)
  }

  /** How `launch_some_program` starts an alias's path: it compares it with the Edge, then the Discord path. */
  function LauncherFor(env: Env, path: string): Effect {
    if path == env.edgePath then OpenEdge(DefaultUrl)
    else if path == env.discordPath then System(env.discordPath)
    else StartFile(path)
  }

  predicate DistinctPaths(env: Env) {
    env.steamPath != env.discordPath && env.steamPath != env.edgePath && env.discordPath != env.edgePath
  }

  predicate IsLauncher(e: Effect) {
    e.StartFile? || e.System? || e.OpenEdge?
  }

  /**
   With pairwise distinct paths, comparing paths picks the launcher the alias's
   application is meant to get; when two paths coincide, the comparison order decides.
   */
  lemma LauncherMatchesTarget(env: Env, t: Target)
    ensures DistinctPaths(env) ==> LauncherFor(env, PathOf(env, t)) == LaunchEffect(env, t)
    ensures env.steamPath == env.edgePath ==> LauncherFor(env, PathOf(env, Steam)) == OpenEdge(DefaultUrl)
  {
  }

  /**
   `launch_some_program`: the first alias whose key occurs in the query is
   launched and confirmed by name; the flag says whether any alias matched.
   */
  function LaunchSomeProgram(loc: Locale, env: Env, query: string): (r: (bool, seq<Effect>))
    ensures r.0 <==> exists j :: 0 <= j < |loc.apps| && Contains(query, loc.apps[j].0)
    ensures !r.0 ==> r.1 == []
    ensures r.0 ==> exists i :: FirstMatch(loc.apps, query, i) && r.1 ==
                       [LauncherFor(env, PathOf(env, loc.apps[i].1)), Speak(loc.apps[i].0 + loc.launchedSuffix)]
  {
    FindAppIsFirstMatch(loc.apps, query);
    match FindApp(loc.apps, query, 0)
    case None => (false, [])
    case Some(i) =>
      var (key, target) := loc.apps[i];
      (true, [LauncherFor(env, PathOf(env, target)), Speak(key + loc.launchedSuffix)])
  }

  /** The number of replies put on the speech queue. */
  function SpeakCount(effs: seq<Effect>): nat {
    if |effs| == 0 then 0 else (if effs[0].Speak? then 1 else 0) + SpeakCount(effs[1..])
  }

  /** The number of application launches. */
  function LauncherCount(effs: seq<Effect>): nat {
    if |effs| == 0 then 0 else (if IsLauncher(effs[0]) then 1 else 0) + LauncherCount(effs[1..])
  }

  lemma CountsCons(e: Effect, rest: seq<Effect>)
    ensures SpeakCount([e] + rest) == (if e.Speak? then 1 else 0) + SpeakCount(rest)
    ensures LauncherCount([e] + rest) == (if IsLauncher(e) then 1 else 0) + LauncherCount(rest)
  {
    assert ([e] + rest)[1..] == rest;
  }

  /** An exit, if there is one, is the last effect, and the only exit status is 0. */
  predicate ExitLast(effs: seq<Effect>) {
    && (forall i :: 0 <= i < |effs| - 1 ==> !effs[i].SysExit?)
    && (forall i :: 0 <= i < |effs| && effs[i].SysExit? ==> effs[i].code == 0)
  }

  /** Every effect list a command produces: one reply, and an exit only at the very end. */
  ghost predicate OneReply(effs: seq<Effect>) {
    SpeakCount(effs) == 1 && ExitLast(effs)
  }

  /** The wake-up branch: greet, then `launch_programs` starts Steam, Discord and Edge in that order. */
  function WakeUpEffects(loc: Locale, env: Env): (effs: seq<Effect>)
    ensures OneReply(effs) && SysExit(0) !in effs && LauncherCount(effs) == 3
  {
    CountsCons(LaunchEffect(env, Edge), []);
    CountsCons(LaunchEffect(env, Discord), [LaunchEffect(env, Edge)]);
    CountsCons(LaunchEffect(env, Steam), [LaunchEffect(env, Discord), LaunchEffect(env, Edge)]);
    CountsCons(Speak(loc.welcome), [LaunchEffect(env, Steam), LaunchEffect(env, Discord), LaunchEffect(env, Edge)]);
    [Speak(loc.welcome), LaunchEffect(env, Steam), LaunchEffect(env, Discord), LaunchEffect(env, Edge)]
  }

  /** The relax branch: reply, then open Edge at the configured relax site. */
  function RelaxEffects(loc: Locale, env: Env): (effs: seq<Effect>)
    ensures OneReply(effs) && SysExit(0) !in effs && LauncherCount(effs) == 1
  {
    CountsCons(OpenEdge(env.relaxSite), []);
    CountsCons(Speak(loc.relaxReply), [OpenEdge(env.relaxSite)]);
    [Speak(loc.relaxReply), OpenEdge(env.relaxSite)]
  }

  /** The exit branch: say goodbye, stop the speech engine, leave with status 0. */
  function ExitEffects(loc: Locale): (effs: seq<Effect>)
    ensures OneReply(effs) && effs[|effs| - 1] == SysExit(0) && LauncherCount(effs) == 0
  {
    CountsCons(SysExit(0), []);
    CountsCons(StopEngine, [SysExit(0)]);
    CountsCons(Speak(loc.goodbye), [StopEngine, SysExit(0)]);
    [Speak(loc.goodbye), StopEngine, SysExit(0)]
  }

  /** The launch branch: the launched alias is confirmed by name, a miss gets the not-found reply. */
  function LaunchEffects(loc: Locale, env: Env, query: string): (effs: seq<Effect>)
    ensures OneReply(effs) && SysExit(0) !in effs && LauncherCount(effs) <= 1
  {
    var (found, effs) := LaunchSomeProgram(loc, env, query);
    if found then
      CountsCons(effs[1], []);
      CountsCons(effs[0], [effs[1]]);
      assert effs == [effs[0], effs[1]];
      effs
    else
      CountsCons(Speak(loc.notFound), []);
      [Speak(loc.notFound)]
  }

  /**
   The branch bodies of the recognition loop. Every command puts exactly one
   reply on the speech queue, at most one launch follows a launch command, and
   only the exit command ends the process, as its last effect.
   */
  function Dispatch(loc: Locale, env: Env, intent: Intent): (effs: seq<Effect>)
    ensures SpeakCount(effs) == (if intent == NoCommand then 0 else 1)
    ensures intent.Launch? ==> LauncherCount(effs) <= 1
    ensures ExitLast(effs)
    ensures SysExit(0) in effs <==> intent == Exit
    ensures intent == Exit ==> effs[|effs| - 1] == SysExit(0)
  {
    match intent
    case WakeUp => WakeUpEffects(loc, env)
    case Relax => RelaxEffects(loc, env)
    case Exit => ExitEffects(loc)
    case Launch(query) => LaunchEffects(loc, env, query)
    case NoCommand => []
  }

  /**
   One final transcript handled by the loop. An empty transcript is skipped;
   otherwise the highest-priority command addressed decides the effects,
   whatever other commands the transcript also contains.
   */
  function Handle(loc: Locale, env: Env, text: string): (effs: seq<Effect>)
    ensures text == "" ==> effs == []
    ensures text != "" && Addressed(loc, loc.wakeTrigger, text) ==>
              effs == [Speak(loc.welcome), StartFile(env.steamPath), System(env.discordPath), OpenEdge(DefaultUrl)]
    ensures text != "" && !Addressed(loc, loc.wakeTrigger, text) && Addressed(loc, loc.relaxTrigger, text) ==>
              effs == [Speak(loc.relaxReply), OpenEdge(env.relaxSite)]
    ensures && text != "" && !Addressed(loc, loc.wakeTrigger, text) && !Addressed(loc, loc.relaxTrigger, text)
            && Addressed(loc, loc.exitTrigger, text) ==>
              effs == [Speak(loc.goodbye), StopEngine, SysExit(0)]
    ensures && text != "" && !Addressed(loc, loc.wakeTrigger, text) && !Addressed(loc, loc.relaxTrigger, text)
            && !Addressed(loc, loc.exitTrigger, text) && !Addressed(loc, loc.launchTrigger, text) ==>
              effs == []
    ensures ExitLast(effs)
    ensures SysExit(0) in effs ==> effs[|effs| - 1] == SysExit(0)
  {
    if text == "" then [] else Dispatch(loc, env, Classify(loc, text))
  }

  /**
   A launch command: the first alias whose key occurs in the launch query is
   started and named in the confirmation; if none occurs, only the not-found
   reply is spoken and nothing is launched.
   */
  lemma HandleLaunch(loc: Locale, env: Env, text: string)
    requires text != ""
    requires !Addressed(loc, loc.wakeTrigger, text) && !Addressed(loc, loc.relaxTrigger, text)
    requires !Addressed(loc, loc.exitTrigger, text) && Addressed(loc, loc.launchTrigger, text)
    ensures forall i :: FirstMatch(loc.apps, LaunchQuery(loc, text), i) ==>
              Handle(loc, env, text) ==
                [LauncherFor(env, PathOf(env, loc.apps[i].1)), Speak(loc.apps[i].0 + loc.launchedSuffix)]
    ensures (forall j :: 0 <= j < |loc.apps| ==> !Contains(LaunchQuery(loc, text), loc.apps[j].0)) ==>
              Handle(loc, env, text) == [Speak(loc.notFound)] && LauncherCount(Handle(loc, env, text)) == 0
  {
    var q := LaunchQuery(loc, text);
    assert Classify(loc, text) == Launch(q);
    FindAppIsFirstMatch(loc.apps, q);
    forall i | FirstMatch(loc.apps, q, i)
      ensures Handle(loc, env, text) ==
                [LauncherFor(env, PathOf(env, loc.apps[i].1)), Speak(loc.apps[i].0 + loc.launchedSuffix)]
    {
      var i' :| FirstMatch(loc.apps, q, i') && LaunchSomeProgram(loc, env, q).1 ==
                  [LauncherFor(env, PathOf(env, loc.apps[i'].1)), Speak(loc.apps[i'].0 + loc.launchedSuffix)];
      assert i' == i;
    }
  }
}
