# Andromeda voice launcher, modelled in Dafny

Andromeda is a small desktop assistant in two scripts, one English and one
Russian. It listens to the microphone and drops silent blocks. It hands the
rest to an offline speech recognizer. When a transcript addresses the
assistant by its wake word plus a command word, it does one of four things:

- it wakes up and starts Steam, Discord and Edge;
- it opens a relax site;
- it says goodbye and exits;
- it launches the application whose alias occurs in the rest of the sentence.

Every reply goes through a speech queue that one worker thread speaks in order.

The two scripts share one recognition loop and differ only in their word
tables. The model is therefore one core with two locale values,
`Grammar.English` and `Grammar.Russian`. Each locale value holds:

- the wake words;
- the four trigger words;
- the literal deleted before alias lookup;
- the alias table in insertion order;
- the replies;
- the way the silence gate is written.

The modules follow the pipeline:

- `Text`: Python's `in`, `str.find`, `str.replace(lit, "")` and `str.strip()`.
- `Gate`: the silence gate over the raw bytes of a captured block.
- `Grammar`: the locale tables.
- `Matcher`: the `if/elif` priority chain, the launch query and first-match alias lookup.
- `Dispatch`: each branch as an ordered list of effect tokens (`Speak`, `StartFile`, `System`, `OpenEdge`, `StopEngine`, `SysExit`).
- `Speech`: the FIFO speech queue with its `None` sentinel, and the worker loop.
- `Session`: `listen_forever` as a fold over the captured frames.
- `Scenarios`: concrete transcripts run through both tables.

Points where the code's behaviour is easy to misread:

- The gate tests the `bytes` values 0..255 of a block, not its 16-bit sample values.
  `Gate.ByteGateIgnoresAmplitude` shows two consequences:
  - a block holding the sample -1 is forwarded;
  - a block holding the sample 256 is dropped.
- A transcript is skipped only when it is exactly empty (`not text`). A transcript of blanks is handled like any other.
- The exit command stops the speech engine and exits with status 0 at once. Nothing waits for the speech queue to drain.
- A missing speech model makes `listen_forever` return normally, so the process ends with status 0.
- Only the fixed launch literal is deleted from a launch command, never the wake word that actually matched.

## Model

| member | source | states |
|---|---|---|
| Text.FindFromSpec | en-version/andromeda.py:157 | the search used by `str.replace` returns the first occurrence at or after the start index, and nothing only when there is no occurrence from there on |
| Text.FindDecidesContains | en-version/andromeda.py:86 | the search succeeds exactly when Python's `key in text` holds |
| Text.ContainsTransitive | ru-version/andromeda.py:83 | a text containing an alias key also contains every substring of that key |
| Text.RemoveAllAgrees | en-version/andromeda.py:157 | the left-to-right scanning deletion of the launch literal equals CPython's find-and-skip loop on every input |
| Text.RemoveAllAbsent | en-version/andromeda.py:157 | `replace` leaves a text that lacks the literal unchanged |
| Text.RemoveAllLeading | en-version/andromeda.py:157 | a leading copy of the literal is deleted, and a rest free of the literal is kept as it is |
| Text.StripTrims | en-version/andromeda.py:157 | `strip` keeps a substring with only whitespace before and after it, whose first and last characters are not whitespace |
| Text.TrimsUnique | en-version/andromeda.py:157 | at most one string has that property, so it pins down `strip`'s result |
| Text.StripSkipsSpace | en-version/andromeda.py:157 | a leading whitespace character does not change what `strip` keeps |
| Text.StripUnchanged | en-version/andromeda.py:157 | a string without whitespace at either end is its own strip |
| Gate.Max | en-version/andromeda.py:125 | `max(data)` of a non-empty block is one of its bytes and at least every byte |
| Gate.DropsIffQuiet | en-version/andromeda.py:125 | both the English single test and the Russian two tests drop a block exactly when no byte reaches 100; the all-zero test adds nothing |
| Gate.SilentFrameDropped | ru-version/andromeda.py:122-123 | an all-zero block, including an empty one, never reaches the recognizer |
| Gate.Sample | en-version/andromeda.py:116 | two little-endian bytes decode to a signed 16-bit sample congruent to their unsigned value |
| Gate.ByteGateIgnoresAmplitude | en-version/andromeda.py:102 | because the gate reads bytes, the sample -1 passes it and the sample 256 does not |
| Matcher.AnyAppealIff | en-version/andromeda.py:137 | the `any(...)` over the wake words holds exactly when some wake word followed by the trigger occurs in the text |
| Matcher.Classify | en-version/andromeda.py:136-157 | wake-up, relax, exit and launch are tested in that order; each outcome holds exactly when its trigger is addressed and no earlier one is; a launch carries the stripped text with the literal deleted |
| Matcher.LaunchQueryOfCommand | en-version/andromeda.py:157 | for the literal, a whitespace separator and a query that does not repeat the literal, the launch query is the stripped query |
| Matcher.FindAppSpec | en-version/andromeda.py:85-86 | the alias loop from any entry stops at the first key occurring in the query, or at the end when none does |
| Matcher.FindAppIsFirstMatch | en-version/andromeda.py:85-96 | the lookup reports the first alias in table order whose key occurs; it fails exactly when no key occurs |
| Matcher.ShadowedAlias | ru-version/andromeda.py:82-92 | an alias whose key contains the key of an earlier alias is never reported, whatever the query |
| Dispatch.LauncherMatchesTarget | en-version/andromeda.py:87-92 | with pairwise distinct paths, comparing paths gives each application the launcher `launch_programs` uses for it; when the Steam and Edge paths coincide, Steam opens Edge |
| Dispatch.LaunchSomeProgram | en-version/andromeda.py:83-96 | the flag holds exactly when some key occurs; on a hit the effects are the first matching alias's launcher, then its confirmation by key; on a miss there are no effects |
| Dispatch.WakeUpEffects | en-version/andromeda.py:137-139 | the wake-up branch speaks once, starts three applications and does not exit |
| Dispatch.RelaxEffects | en-version/andromeda.py:143-145 | the relax branch speaks once, opens one page and does not exit |
| Dispatch.ExitEffects | en-version/andromeda.py:149-153 | the exit branch speaks once, launches nothing and ends with exit status 0 |
| Dispatch.LaunchEffects | en-version/andromeda.py:156-160 | the launch branch speaks once, launches at most one application and does not exit |
| Dispatch.Dispatch | en-version/andromeda.py:136-160 | every command speaks exactly one reply and a transcript addressing none speaks nothing; only the exit command exits, and its exit is the last effect |
| Dispatch.Handle | en-version/andromeda.py:128-160 | an empty transcript has no effects; otherwise the highest-priority command addressed fixes the exact effect list, whatever else the text contains |
| Dispatch.HandleLaunch | en-version/andromeda.py:156-160 | a launch command starts the first alias matching its launch query and confirms it; with no match it only speaks the not-found reply and launches nothing |
| Speech.Enqueue | en-version/andromeda.py:65-67 | `speak` keeps the queue as it was and adds the reply at the back |
| Speech.QueueOf | en-version/andromeda.py:65-67 | after a series of `speak` calls, the queue holds the replies in call order |
| Speech.Drain | en-version/andromeda.py:52-60 | the worker speaks a prefix of the queue, item by item; it stops exactly when it meets a sentinel, which sits right after what it spoke |
| Speech.TtsWorker | en-version/andromeda.py:52-60 | the loop version of the worker has the same outcome |
| Speech.DrainDetermined | en-version/andromeda.py:52-60 | any run of replies ending at the sentinel or at the end of the queue is exactly what the worker speaks |
| Speech.SpokenInEnqueueOrder | en-version/andromeda.py:52-67 | replies are spoken in the order `speak` queued them; nothing queued after the sentinel is spoken |
| Speech.DrainAppend | en-version/andromeda.py:54-58 | a queue without a sentinel is spoken in full, and what is queued later follows it |
| Session.Forwarded | en-version/andromeda.py:122-128 | no block the gate drops is fed to the recognizer |
| Session.ForwardedAppend | en-version/andromeda.py:122-128 | blocks reach the recognizer in arrival order: forwarding two runs forwards the first, then the second |
| Session.ForwardedExactly | ru-version/andromeda.py:118-127 | a block is forwarded exactly when it arrived and passes the gate |
| Session.StepValid | en-version/andromeda.py:122-160 | one pass of the loop keeps the invariant that an exit, if issued, is the last effect and marks the session as ended |
| Session.Run | en-version/andromeda.py:122-160 | the loop never takes back an effect and keeps the exit last; after an exit it ignores every block; until then the recognizer has seen exactly the forwarded blocks, in order |
| Session.ListenForever | en-version/andromeda.py:104-121 | without the speech model nothing happens; otherwise the first effect is the ready greeting |
| Session.NothingAfterExit | en-version/andromeda.py:149-153 | blocks arriving after the exit command change nothing |
| Session.SessionSpokenPrefix | en-version/andromeda.py:121-150 | however far the worker gets before the process ends, it has spoken exactly the first replies the session issued, in issue order, and has not met a sentinel |
| Session.SessionSpokenInOrder | en-version/andromeda.py:121-150 | a session that has not exited has all its replies spoken in issue order, given time to drain |
| Scenarios.EnglishWakeUpWins | en-version/andromeda.py:137-139 | any transcript containing "andromeda wake up" greets, then starts Steam, Discord and Edge (Edge at the default page), whatever else it says |
| Scenarios.EnglishRelaxBeatsExit | en-version/andromeda.py:137-146 | a transcript with both "andromeda relax" and "andromeda exit" and no wake-up only replies and opens the relax site |
| Scenarios.EnglishExit | en-version/andromeda.py:149-153 | "andromeda exit" says goodbye, stops the engine and exits with status 0 |
| Scenarios.EnglishLaunchSteam | en-version/andromeda.py:156-158 | "andromeda launch steam" starts Steam and speaks "steam launched." |
| Scenarios.EnglishLaunchUnknown | en-version/andromeda.py:158-160 | "andromeda launch nonexistent" only speaks the not-found reply |
| Scenarios.RussianInflectionsWake | ru-version/andromeda.py:135-137 | each of the three wake-word inflections followed by " пробуждение" runs the wake-up sequence |
| Scenarios.RussianExit | ru-version/andromeda.py:145-149 | "андромеда пока" says goodbye, stops the engine and exits with status 0 |
| Scenarios.RussianLaunchKeepsPrefix | ru-version/andromeda.py:151-153 | "андромеду запусти стим" takes the launch branch with the whole transcript as its query; the alias "тим" inside "стим" starts Steam |
| Scenarios.RussianSystemShadowed | ru-version/andromeda.py:21-34 | the alias "систем" is never reported, and "андромеда запусти систем" confirms "тем запущен." |
| Scenarios.SpeechKeepsOrder | en-version/andromeda.py:52-67 | three replies queued in turn are spoken in that order |

## Left out

- Audio capture: `sounddevice.RawInputStream` and the capture callback are device I/O. The model takes the resulting sequence of byte blocks as input.
- The Vosk recognizer: `Model`, `KaldiRecognizer`, `AcceptWaveform` and the JSON parsing of `Result()` are foreign calls. They are modelled as an oracle that maps the blocks fed so far to an optional final transcript.
- Lower-casing: `str.lower()` applies Unicode case mapping, Cyrillic included. Transcripts are taken as already lower-case.
- The speech engine: `pyttsx3` setup, voice choice, rate and float volume are not modelled. `engine.say`/`runAndWait` appear only as the texts the worker speaks. `engine.stop()` is an effect token.
- Launchers: `os.startfile`, `os.system` and `webbrowser` are OS calls and appear as effect tokens. Inside `launch_edge`, both outcomes of the `os.path.exists` test open the same URL, so they share one token. The Russian fallback message is printed only.
- The environment: `dotenv` loading becomes an `Env` record of strings. An unset variable (`None` in Python) is not modelled. The model-path existence check becomes the boolean `modelReady`.
- Concurrency: the worker thread, daemon-thread lifetime, `main` and its `KeyboardInterrupt` handler are left out. The queues are sequential FIFOs. As a result, a reply queued just before `sys.exit` counts as issued, not as spoken, because the daemon worker may die first.
- Launcher failures: the model assumes every launcher call returns. In the source, `os.startfile` raises on a missing path, and on any system other than Windows it does not exist. Nothing in `listen_forever` catches that exception, and `main` catches only `KeyboardInterrupt`. So a bad Steam path on wake-up ends the program after the greeting and before Discord and Edge start. A failed alias launch ends it before the confirmation is queued. `Dispatch.Dispatch` and `Session.Run` therefore treat the exit command as the only way the loop ends.
- Console output: every `print` is left out.
- Session.SessionSpokenInOrder: applies only to a session that has not exited, and assumes the worker has time to drain the queue. How many replies the worker speaks before `sys.exit` depends on thread timing and is not modelled. For an exited session, `Session.SessionSpokenPrefix` states only that what was spoken is the first replies, in order.
- Dispatch.LaunchEffects: states only the reply count, that there is at most one launch, and that there is no exit. The exact effect list of a launch is stated by `Dispatch.LaunchSomeProgram` and `Dispatch.HandleLaunch`.
