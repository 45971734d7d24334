/**
 * The audio-notification hook: a one-shot program that reads an optional
 * preferences file and one JSON event from standard input, and speaks the
 * message of a `Notification` event through a text-to-speech command.
 *
 * Everything the hook does outside its own logic is a parameter here: the
 * preferences file and standard input arrive already parsed (`None` when
 * reading or parsing failed), and a `Host` stands for the executable search
 * path, the command-line tokenizer and the launching of the speech process.
 */
module AudioNotificationHook {
  import opened Wrappers
  import opened Json
  import opened Text

  /** Speech programs tried, in this order, when no command is configured. */
  const Candidates: seq<string> := ["say", "spd-say", "espeak"]

  /** The hook's two exit statuses: success or no-op, and any fatal condition. */
  const ExitOk := 0
  const ExitFatal := 2

  // ---------------------------------------------------------------------------
  // Command resolver

  /** Index `i` holds the first name of `names` that is available. */
  predicate FirstAvailableAt(names: seq<string>, available: set<string>, i: int) {
    && 0 <= i < |names|
    && names[i] in available
    && forall k :: 0 <= k < i ==> names[k] !in available
  }

  /** The first name of `names` that is available, searching in order. */
  function FirstAvailable(names: seq<string>, available: set<string>): (r: Option<string>)
    ensures r.None? <==> forall k :: 0 <= k < |names| ==> names[k] !in available
    ensures r.Some? ==> exists i :: FirstAvailableAt(names, available, i) && names[i] == r.value
  {
    if names == [] then None
    else if names[0] in available then
      assert FirstAvailableAt(names, available, 0);
      Some(names[0])
    else
      var r := FirstAvailable(names[1..], available);
      if r.Some? then
        var i :| FirstAvailableAt(names[1..], available, i) && names[1..][i] == r.value;
        assert FirstAvailableAt(names, available, i + 1);
        r
      else
        r
  }

  /** The speech program found on the search path when none is configured. */
  function DefaultCommand(available: set<string>): (r: Option<string>)
    ensures "say" in available ==> r == Some("say")
    ensures "say" !in available && "spd-say" in available ==> r == Some("spd-say")
    ensures "say" !in available && "spd-say" !in available && "espeak" in available ==> r == Some("espeak")
    ensures r.None? <==> "say" !in available && "spd-say" !in available && "espeak" !in available
  {
    var r := FirstAvailable(Candidates, available);
    assert Candidates[0] == "say" && Candidates[1] == "spd-say" && Candidates[2] == "espeak";
    if r.Some? then
      var i :| FirstAvailableAt(Candidates, available, i) && Candidates[i] == r.value;
      assert i == 0 || Candidates[0] !in available;
      assert i <= 1 || Candidates[1] !in available;
      r
    else
      r
  }

  /** `detect_default_command`: probe each candidate in turn and return the first found. */
  method DetectDefaultCommand(available: set<string>) returns (cmd: Option<string>)
    ensures cmd == DefaultCommand(available)
  {
    var i := 0;
    while i < |Candidates|
      invariant 0 <= i <= |Candidates|
      invariant FirstAvailable(Candidates[i..], available) == DefaultCommand(available)
    {
      if Candidates[i] in available {
        return Some(Candidates[i]);
      }
      assert Candidates[i..][1..] == Candidates[i + 1..];
      i := i + 1;
    }
    return None;
  }

  // ---------------------------------------------------------------------------
  // Config loader

  /** The user's preferences; `None` is a field left unset. */
  datatype UserConfig = UserConfig(audioOff: Option<bool>, speechCommand: Option<string>)

  const Defaults := UserConfig(None, None)

  /** The value of a boolean field, unset when absent or of another JSON type. */
  function BoolField(fields: map<string, Json>, key: string): Option<bool> {
    var v := Get(fields, key);
    if v.Some? && v.value.JBool? then Some(v.value.b) else None
  }

  /** The stripped value of a string field, unset when absent or of another JSON type. */
  function StrippedStringField(fields: map<string, Json>, key: string): Option<string> {
    var v := Get(fields, key);
    if v.Some? && v.value.JStr? then Some(Strip(v.value.str)) else None
  }

  /**
   * The preferences read from a parsed preferences file, as one expression:
   * defaults unless the file holds an object, and each field set exactly when
   * its value there has the right JSON type.
   */
  function ConfigOf(parsed: Option<Json>): (config: UserConfig)
    ensures (parsed.None? || !parsed.value.JObj?) ==> config == Defaults
    ensures parsed.Some? && parsed.value.JObj? ==>
      var fields := parsed.value.fields;
      && (config.audioOff.Some? <==> "audio_off" in fields && fields["audio_off"].JBool?)
      && (config.audioOff.Some? ==> fields["audio_off"] == JBool(config.audioOff.value))
      && (config.speechCommand.Some? <==> "speech_command" in fields && fields["speech_command"].JStr?)
      && (config.speechCommand.Some? ==> config.speechCommand.value == Strip(fields["speech_command"].str))
  {
    if parsed.Some? && parsed.value.JObj? then
      UserConfig(BoolField(parsed.value.fields, "audio_off"),
                 StrippedStringField(parsed.value.fields, "speech_command"))
    else Defaults
  }

  /**
   * `get_user_config`: start from the defaults and overwrite each field whose
   * value in the file has the right JSON type.
   */
  method GetUserConfig(parsed: Option<Json>) returns (config: UserConfig)
    ensures config == ConfigOf(parsed)
  {
    config := Defaults;
    if parsed.None? {
      return;  // the file is missing, unreadable or not JSON
    }
    var json := parsed.value;
    if !json.JObj? {
      return;
    }
    var audioOff := Get(json.fields, "audio_off");
    if audioOff.Some? && audioOff.value.JBool? {
      config := config.(audioOff := Some(audioOff.value.b));
    }
    var speechCommand := Get(json.fields, "speech_command");
    if speechCommand.Some? && speechCommand.value.JStr? {
      config := config.(speechCommand := Some(Strip(speechCommand.value.str)));
    }
  }

  /**
   * `speech_command or detect_default_command()`: a configured command wins
   * unless it is empty, in which case the search path decides.
   */
  function ResolveCommand(config: UserConfig, available: set<string>): (r: Option<string>)
    ensures r.None? <==>
      (config.speechCommand.None? || config.speechCommand.value == "") &&
      forall k :: 0 <= k < |Candidates| ==> Candidates[k] !in available
    ensures r.Some? ==> r.value != ""
    ensures config.speechCommand.Some? && config.speechCommand.value != "" ==> r == config.speechCommand
    ensures config.speechCommand.None? || config.speechCommand.value == "" ==> r == DefaultCommand(available)
  {
    if config.speechCommand.Some? && config.speechCommand.value != "" then config.speechCommand
    else DefaultCommand(available)
  }

  // ---------------------------------------------------------------------------
  // Event validation and dispatch

  /** How one launch of the speech process ended. */
  datatype DispatchResult =
    | Exited(status: int)  // ran to completion with this exit status
    | LaunchFailed         // could not be started
    | TimedOut             // killed after the 10-second limit

  /**
   * The environment of one run: the executable names on the search path, the
   * command-line tokenizer (`None` when it raises `ValueError`: an unbalanced
   * quote or a trailing backslash) and
   * the outcome of launching a given argument vector.
   */
  datatype Host = Host(
    available: set<string>,
    tokenize: string -> Option<seq<string>>,
    run: seq<string> -> DispatchResult)

  /**
   * The end of a run: an exit status with the argument vectors launched, or
   * an exception that escapes the hook (the tokenizer's, which nothing catches).
   */
  datatype Outcome = Exit(code: int, invoked: seq<seq<string>>) | Raised

  /** The tokenizer of command lines without quotes or backslashes. */
  function PlainSplit(command: string): Option<seq<string>> {
    Some(SplitWords(command))
  }

  /** `main` after the preferences are loaded: the guards in order, each with its early exit. */
  function Decide(config: UserConfig, stdin: Option<Json>, host: Host): (out: Outcome)
    ensures out.Exit? ==> (out.code == ExitOk || out.code == ExitFatal) && |out.invoked| <= 1
    ensures out.Exit? && |out.invoked| == 1 ==>
      out.code == (if host.run(out.invoked[0]) == Exited(0) then ExitOk else ExitFatal)
    ensures out.Raised? ==>
      var cmd := ResolveCommand(config, host.available);
      cmd.Some? && host.tokenize(cmd.value).None?
  {
    if config.audioOff == Some(true) then Exit(ExitOk, [])
    else match stdin
      case Some(JObj(event)) =>
        if Get(event, "hook_event_name") != Some(JStr("Notification")) then Exit(ExitOk, [])
        else
          (match Get(event, "message")
           case Some(JStr(message)) =>
             (match ResolveCommand(config, host.available)
              case None => Exit(ExitFatal, [])
              case Some(command) =>
                (match host.tokenize(command)
                 case None => Raised
                 case Some(words) =>
                   var argv := words + [Strip(message)];
                   Exit(if host.run(argv) == Exited(0) then ExitOk else ExitFatal, [argv])))
           case _ => Exit(ExitFatal, []))
      case _ => Exit(ExitFatal, [])
  }

  /**
   * A whole run: preferences file, then standard input. A file that switches
   * audio off ends the run before standard input matters.
   */
  function RunHook(configFile: Option<Json>, stdin: Option<Json>, host: Host): (out: Outcome)
    ensures (configFile.Some? && configFile.value.JObj? &&
             Get(configFile.value.fields, "audio_off") == Some(JBool(true))) ==> out == Exit(ExitOk, [])
    ensures out.Exit? ==> (out.code == ExitOk || out.code == ExitFatal) && |out.invoked| <= 1
    ensures out.Exit? && out.invoked != [] && host.tokenize == PlainSplit ==>
      |out.invoked[0]| >= 2 && IsWord(out.invoked[0][0])
  {
    Decide(ConfigOf(configFile), stdin, host)
  }
}
