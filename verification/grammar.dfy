/**
 The locale tables. Both scripts run the same recognition loop; they differ
 only in the words below, so each script becomes one `Locale` value.
 */
module Grammar {
  import opened Gate

  /** The three applications the launcher knows, independent of their configured paths. */
  datatype Target = Steam | Discord | Edge

  datatype Locale = Locale(
    /** The wake words; a command is any of them followed by a trigger. */
    appealWords: seq<string>,
    /** The text appended to a wake word for each command, space included, in priority order. */
    wakeTrigger: string,
    relaxTrigger: string,
    exitTrigger: string,
    launchTrigger: string,
    /** The one literal deleted from the transcript before alias lookup. */
    launchLiteral: string,
    /** The alias table in insertion order: a surface form and the application it names. */
    apps: seq<(string, Target)>,
    /** The replies spoken through the speech queue. */
    ready: string,
    welcome: string,
    relaxReply: string,
    goodbye: string,
    notFound: string,
    /** Appended to the matched alias key to confirm a launch. */
    launchedSuffix: string,
    /** How this script writes the silence gate. */
    gate: GateStyle
  )

  const English := Locale(
    ["andromeda"],
    " wake up", " relax", " exit", " launch",
    "andromeda launch",
    [("steam", Steam), ("discord", Discord), ("edge", Edge)],
    "Hello boss, I am ready.",
    "Welcome back, commander.",
    "Relax mode activated.",
    "Goodbye, commander.",
    "Cannot find an application with that name.",
    " launched.",
    Combined
  )

  const Russian := Locale(
    ["андромеда", "андромеду", "андромеды"],
    " пробуждение", " релакс", " пока", " запусти",
    "андромеда запусти",
    [ ("с тем", Steam), ("с тим", Steam), ("чтим", Steam), ("тим", Steam),
      ("тем", Steam), ("систем", Steam),
      ("дискомфорт", Discord), ("эскорт", Discord), ("ди скоро", Discord), ("диск орт", Discord),
      ("эдж", Edge), ("этаж", Edge) ],
    "Привет босс.",
    "С возвращением, командир.",
    "Сегодня как обычно?",
    "До свидания, командир.",
    "Не могу найти программу с таким названием.",
    " запущен.",
    TwoStep
  )
}
