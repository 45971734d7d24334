/**
 * What the hook promises, stated over `Decide` (one run once the preferences
 * are loaded) and `RunHook` (a whole run from the parsed preferences file).
 */
module HookProperties {
  import opened Wrappers
  import opened Json
  import opened Text
  import opened AudioNotificationHook

  /** Standard input holds a JSON object whose event name is exactly "Notification". */
  predicate IsNotification(stdin: Option<Json>) {
    && stdin.Some?
    && stdin.value.JObj?
    && Get(stdin.value.fields, "hook_event_name") == Some(JStr("Notification"))
  }

  /** The message of a notification event, when it is a string. */
  function MessageOf(stdin: Option<Json>): Option<string>
    requires IsNotification(stdin)
  {
    var m := Get(stdin.value.fields, "message");
    if m.Some? && m.value.JStr? then Some(m.value.str) else None
  }

  /** Audio switched off: exit 0 and launch nothing, whatever standard input holds. */
  lemma AudioOffIgnoresStdin(config: UserConfig, stdin: Option<Json>, host: Host)
    requires config.audioOff == Some(true)
    ensures Decide(config, stdin, host) == Exit(ExitOk, [])
  {
  }

  /** The same for a whole run whose preferences file sets `audio_off` to `true`. */
  lemma AudioOffInFileIgnoresStdin(fields: map<string, Json>, stdin: Option<Json>, host: Host)
    requires Get(fields, "audio_off") == Some(JBool(true))
    ensures RunHook(Some(JObj(fields)), stdin, host) == Exit(ExitOk, [])
  {
  }

  /** An unreadable, unparsable or non-object preferences file leaves every setting at its default. */
  lemma UnusableConfigFileIsDefaults(configFile: Option<Json>, stdin: Option<Json>, host: Host)
    requires configFile.None? || !configFile.value.JObj?
    ensures RunHook(configFile, stdin, host) == Decide(Defaults, stdin, host)
  {
  }

  /** Unless audio is off, unparsable input or a non-object value is fatal. */
  lemma MalformedStdinIsFatal(config: UserConfig, stdin: Option<Json>, host: Host)
    requires config.audioOff != Some(true)
    requires stdin.None? || !stdin.value.JObj?
    ensures Decide(config, stdin, host) == Exit(ExitFatal, [])
  {
  }

  /**
   * Any other event, or none, is a silent success, whatever the `message`
   * field holds: the event name is checked first.
   */
  lemma OtherEventsAreIgnored(config: UserConfig, fields: map<string, Json>, host: Host)
    requires config.audioOff != Some(true)
    requires Get(fields, "hook_event_name") != Some(JStr("Notification"))
    ensures Decide(config, Some(JObj(fields)), host) == Exit(ExitOk, [])
  {
  }

  /** A notification whose `message` is missing or not a string is fatal. */
  lemma BadMessageIsFatal(config: UserConfig, stdin: Option<Json>, host: Host)
    requires config.audioOff != Some(true)
    requires IsNotification(stdin) && MessageOf(stdin).None?
    ensures Decide(config, stdin, host) == Exit(ExitFatal, [])
  {
  }

  /** No configured command and none of the candidates on the search path: fatal, nothing launched. */
  lemma NoCommandIsFatal(config: UserConfig, stdin: Option<Json>, host: Host)
    requires config.audioOff != Some(true)
    requires IsNotification(stdin) && MessageOf(stdin).Some?
    requires config.speechCommand.None? || config.speechCommand.value == ""
    requires "say" !in host.available && "spd-say" !in host.available && "espeak" !in host.available
    ensures Decide(config, stdin, host) == Exit(ExitFatal, [])
  {
  }

  /**
   * A notification with a string message and a resolved command launches
   * exactly one process: the command's words followed by the stripped message.
   * The run succeeds exactly when that process exits with status 0; a launch
   * failure, a non-zero status or the timeout is fatal.
   */
  lemma NotificationIsSpoken(config: UserConfig, stdin: Option<Json>, host: Host, command: string, words: seq<string>)
    requires config.audioOff != Some(true)
    requires IsNotification(stdin) && MessageOf(stdin).Some?
    requires ResolveCommand(config, host.available) == Some(command)
    requires host.tokenize(command) == Some(words)
    ensures var argv := words + [Strip(MessageOf(stdin).value)];
      Decide(config, stdin, host) == Exit(if host.run(argv) == Exited(0) then ExitOk else ExitFatal, [argv])
  {
  }

  /** A process is launched exactly when every guard passes and the command line splits. */
  lemma LaunchesExactlyWhen(config: UserConfig, stdin: Option<Json>, host: Host)
    ensures var out := Decide(config, stdin, host);
      (out.Exit? && out.invoked != []) <==>
        && config.audioOff != Some(true)
        && IsNotification(stdin) && MessageOf(stdin).Some?
        && ResolveCommand(config, host.available).Some?
        && host.tokenize(ResolveCommand(config, host.available).value).Some?
  {
  }

  /** Exit status 0 means audio was off, the event was not a notification, or the speech process succeeded. */
  lemma SucceedsExactlyWhen(config: UserConfig, stdin: Option<Json>, host: Host)
    ensures var out := Decide(config, stdin, host);
      (out.Exit? && out.code == ExitOk) <==>
        || config.audioOff == Some(true)
        || (stdin.Some? && stdin.value.JObj? && !IsNotification(stdin))
        || (out.Exit? && out.invoked != [] && host.run(out.invoked[0]) == Exited(0))
  {
  }

  /** The only exception that escapes is the tokenizer's, on a notification that would otherwise be spoken. */
  lemma RaisesExactlyWhen(config: UserConfig, stdin: Option<Json>, host: Host)
    ensures Decide(config, stdin, host).Raised? <==>
      && config.audioOff != Some(true)
      && IsNotification(stdin) && MessageOf(stdin).Some?
      && ResolveCommand(config, host.available).Some?
      && host.tokenize(ResolveCommand(config, host.available).value).None?
  {
  }

  /** A configured command that is only whitespace counts as unset: the search path decides. */
  lemma BlankCommandFallsBack(fields: map<string, Json>, s: string, available: set<string>)
    requires Get(fields, "speech_command") == Some(JStr(s))
    requires SpaceBetween(s, 0, |s|)
    ensures ResolveCommand(ConfigOf(Some(JObj(fields))), available) == DefaultCommand(available)
  {
    StripEmptyIff(s);
  }

  /** A configured command with something in it wins over the search path. */
  lemma ConfiguredCommandWins(fields: map<string, Json>, s: string, available: set<string>)
    requires Get(fields, "speech_command") == Some(JStr(s))
    requires !SpaceBetween(s, 0, |s|)
    ensures ResolveCommand(ConfigOf(Some(JObj(fields))), available) == Some(Strip(s))
  {
  }

  lemma StripBuildFinished()
    ensures Strip("  Build finished  ") == "Build finished"
  {
    var message := "  Build finished  ";
    assert message[2] == 'B' && message[15] == 'd';
    assert SpaceBetween(message, 0, 2) && SpaceBetween(message, 16, 18);
    StripUnique(message, 2, 16);
    assert message[2..16] == "Build finished";
  }

  lemma SplitFlagsCommand()
    ensures PlainSplit("say --rate=200") == Some(["say", "--rate=200"])
  {
    assert JoinWords(["say", "--rate=200"]) == "say --rate=200";
    SplitJoin(["say", "--rate=200"]);
  }

  lemma StripHi()
    ensures Strip("Hi") == "Hi"
  {
  }

  lemma SplitEspeak()
    ensures PlainSplit("espeak") == Some(["espeak"])
  {
    assert JoinWords(["espeak"]) == "espeak";
    SplitJoin(["espeak"]);
  }

  lemma FlagsScenarioInputs(configFile: Option<Json>, stdin: Option<Json>)
    requires configFile == Some(JObj(map["speech_command" := JStr("say --rate=200")]))
    requires stdin == Some(JObj(map["hook_event_name" := JStr("Notification"),
                                    "message" := JStr("  Build finished  ")]))
    ensures ConfigOf(configFile) == UserConfig(None, Some("say --rate=200"))
    ensures IsNotification(stdin) && MessageOf(stdin) == Some("  Build finished  ")
  {
  }

  /**
   * Whatever command is resolved from a preferences file, splitting it on
   * whitespace yields at least one word, so the launched argument vector names
   * a program before the message.
   */
  lemma ResolvedCommandHasProgram(configFile: Option<Json>, available: set<string>)
    requires ResolveCommand(ConfigOf(configFile), available).Some?
    ensures SplitWords(ResolveCommand(ConfigOf(configFile), available).value) != []
  {
  }

  /**
   * Preferences `{"speech_command": "say --rate=200"}` and the event
   * `{"hook_event_name": "Notification", "message": "  Build finished  "}`
   * launch `say --rate=200 "Build finished"`.
   */
  lemma CommandWithFlagsScenario(configFile: Option<Json>, stdin: Option<Json>, host: Host)
    requires configFile == Some(JObj(map["speech_command" := JStr("say --rate=200")]))
    requires stdin == Some(JObj(map["hook_event_name" := JStr("Notification"),
                                    "message" := JStr("  Build finished  ")]))
    requires host.tokenize == PlainSplit
    ensures var argv := ["say", "--rate=200", "Build finished"];
      RunHook(configFile, stdin, host) == Exit(if host.run(argv) == Exited(0) then ExitOk else ExitFatal, [argv])
  {
    FlagsScenarioInputs(configFile, stdin);
    var config := ConfigOf(configFile);
    var words := ["say", "--rate=200"];
    SplitFlagsCommand();
    NotificationIsSpoken(config, stdin, host, "say --rate=200", words);
    StripBuildFinished();
    assert words + [Strip("  Build finished  ")] == ["say", "--rate=200", "Build finished"];
  }

  /**
   * Empty preferences `{}`, only `espeak` on the search path and the event
   * `{"hook_event_name": "Notification", "message": "Hi"}`: `espeak Hi` is launched.
   */
  lemma DefaultCommandScenario(configFile: Option<Json>, stdin: Option<Json>, host: Host)
    requires configFile == Some(JObj(map[]))
    requires stdin == Some(JObj(map["hook_event_name" := JStr("Notification"), "message" := JStr("Hi")]))
    requires host.available == {"espeak"} && host.tokenize == PlainSplit
    ensures RunHook(configFile, stdin, host)
      == Exit(if host.run(["espeak", "Hi"]) == Exited(0) then ExitOk else ExitFatal, [["espeak", "Hi"]])
  {
    SplitEspeak();
    StripHi();
    assert ["espeak"] + [Strip("Hi")] == ["espeak", "Hi"];
  }
}
