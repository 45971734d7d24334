# Audio-notification hook, modelled in Dafny

The audio-notifications plugin ships one hook,
`plugins/audio-notifications/hooks/audio_notification_hook.py`. The host
application runs it once per lifecycle event, passing a JSON event on standard
input. The hook reads an optional preferences file
(`~/.claude/audio_notifications.json`) into a `UserConfig` with two optional
fields, `audio_off` and `speech_command`. For a `Notification` event it speaks
the event's message through a text-to-speech program and reports the result
through its exit status. That program is either the configured command or the
first of `say`, `spd-say`, `espeak` found on the search path. Exit status 0
means success or a deliberate no-op. Exit status 2 means any fatal condition.

The model keeps the hook's own logic and turns its environment into inputs:

- `json.dfy`: JSON values as `json.loads` returns them (module `Json`).
- `text.dfy`: Python's `str.strip()` and a whitespace tokenizer for command
  lines (module `Text`).
- `hook.dfy`: `detect_default_command`, `UserConfig` / `get_user_config` and the
  decision logic of `main` (module `AudioNotificationHook`).
- `properties.dfy`: what a run promises, one lemma per guard of `main`, and
  two complete example runs (module `HookProperties`).
- `wrappers.dfy`: the `Option` type.

The preferences file and standard input arrive already parsed, as
`Option<Json>`. `None` stands for a read or parse failure. A `Host` value
supplies the rest of the environment:

- the set of executable names on the search path;
- the command-line tokenizer, where `None` means it raised;
- the result of launching an argument vector: exited with a status, failed to
  launch, or timed out.

`get_user_config` and `detect_default_command` are methods because the source
builds its result step by step. `GetUserConfig` starts from the defaults and
overwrites one field at a time. `DetectDefaultCommand` is a loop with an early
return. Each is proved equal to a function (`ConfigOf`, `DefaultCommand`), and
the rest of the model reasons with those functions. `UserConfig` is a
datatype, not a class: the source changes its fields only while building it
inside `get_user_config`, and never after.

`main` is straight-line guards with early exits. It is the pure function
`Decide`, which returns an `Outcome`. An `Exit` outcome carries the exit status
and the argument vectors launched. `Raised` is an exception that escapes the
hook.

Every failure the hook anticipates ends in exit status 2. `shlex.split` at
line 74, however, is outside any `try`: a configured command it cannot
tokenize (an unbalanced quote, a trailing backslash) raises out of the hook
instead. In the model this is the `Raised` outcome, and `RaisesExactlyWhen`
states when it happens.

## Model

| member | source | states |
|---|---|---|
| AudioNotificationHook.FirstAvailable | plugins/audio-notifications/hooks/audio_notification_hook.py:15-18 | the result is absent exactly when no listed name is available; otherwise it is the available name with no available name before it |
| AudioNotificationHook.DefaultCommand | plugins/audio-notifications/hooks/audio_notification_hook.py:14-18 | `say` if available, else `spd-say` if available, else `espeak` if available; absent exactly when none of the three is available |
| AudioNotificationHook.DetectDefaultCommand | plugins/audio-notifications/hooks/audio_notification_hook.py:14-18 | the probing loop with its early return finds the same command as `DefaultCommand` |
| AudioNotificationHook.GetUserConfig | plugins/audio-notifications/hooks/audio_notification_hook.py:27-46 | starting from the defaults and overwriting one field at a time builds the same preferences as `ConfigOf`, whose contract gives defaults for an unusable file and sets each field exactly when its JSON type checks |
| AudioNotificationHook.ConfigOf | plugins/audio-notifications/hooks/audio_notification_hook.py:27-46 | an unreadable, unparsable or non-object file gives all defaults; `audio_off` is set exactly when the file holds a boolean there, and to that boolean; `speech_command` is set exactly when the file holds a string there, and to that string stripped |
| AudioNotificationHook.ResolveCommand | plugins/audio-notifications/hooks/audio_notification_hook.py:71-73 | a non-empty configured command wins; with none configured, or an empty one, the result is exactly `DefaultCommand` (the first available of `say`, `spd-say`, `espeak`); no command exactly when none is configured (or it is empty) and no candidate is available; a resolved command is never empty |
| AudioNotificationHook.Decide | plugins/audio-notifications/hooks/audio_notification_hook.py:49-79 | every exit status is 0 or 2; at most one process is launched; when one is, the status is 0 exactly when it exited with status 0; an exception escapes only when a command was resolved and the tokenizer rejected it |
| AudioNotificationHook.RunHook | plugins/audio-notifications/hooks/audio_notification_hook.py:49-79 | a whole run: a preferences file with `"audio_off": true` gives exit 0 with nothing launched; every exit status is 0 or 2 with at most one launch; with the whitespace tokenizer, a launched vector has a program word before the message |
| HookProperties.AudioOffIgnoresStdin | plugins/audio-notifications/hooks/audio_notification_hook.py:50-52 | with `audio_off` true the run exits 0 and launches nothing, whatever standard input holds |
| HookProperties.AudioOffInFileIgnoresStdin | plugins/audio-notifications/hooks/audio_notification_hook.py:38-52 | a preferences file with `"audio_off": true` makes a whole run exit 0 with nothing launched, for any standard input |
| HookProperties.UnusableConfigFileIsDefaults | plugins/audio-notifications/hooks/audio_notification_hook.py:30-36 | a run with an unreadable, unparsable or non-object preferences file behaves as a run with the default preferences |
| HookProperties.MalformedStdinIsFatal | plugins/audio-notifications/hooks/audio_notification_hook.py:54-59 | unless audio is off, unparsable input or a non-object value exits 2 with nothing launched |
| HookProperties.OtherEventsAreIgnored | plugins/audio-notifications/hooks/audio_notification_hook.py:62-63 | an object whose `hook_event_name` is absent or not exactly the string `Notification` exits 0 with nothing launched, whatever its `message` holds |
| HookProperties.BadMessageIsFatal | plugins/audio-notifications/hooks/audio_notification_hook.py:65-67 | a notification whose `message` is missing or not a string exits 2 with nothing launched |
| HookProperties.NoCommandIsFatal | plugins/audio-notifications/hooks/audio_notification_hook.py:71-73 | with no usable configured command and none of `say`, `spd-say`, `espeak` available, a notification exits 2 with nothing launched |
| HookProperties.NotificationIsSpoken | plugins/audio-notifications/hooks/audio_notification_hook.py:65-79 | a valid notification launches exactly one process, the command's words followed by the stripped message; it exits 0 if that process exits 0, and 2 on a non-zero status, a launch failure or a timeout |
| HookProperties.LaunchesExactlyWhen | plugins/audio-notifications/hooks/audio_notification_hook.py:50-77 | a process is launched if and only if audio is not off, the input is a notification with a string message, a command is resolved and the tokenizer accepts it |
| HookProperties.SucceedsExactlyWhen | plugins/audio-notifications/hooks/audio_notification_hook.py:50-79 | the run exits 0 if and only if audio is off, or the input is an object that is not a notification, or the launched process exited 0 |
| HookProperties.RaisesExactlyWhen | plugins/audio-notifications/hooks/audio_notification_hook.py:71-74 | an exception escapes if and only if every guard passes and the tokenizer rejects the resolved command |
| HookProperties.BlankCommandFallsBack | plugins/audio-notifications/hooks/audio_notification_hook.py:42-44 | a configured command made only of whitespace is stripped to empty, and the search path decides |
| HookProperties.ConfiguredCommandWins | plugins/audio-notifications/hooks/audio_notification_hook.py:71 | a configured command with a non-whitespace character is used, stripped, whatever is on the search path |
| HookProperties.ResolvedCommandHasProgram | plugins/audio-notifications/hooks/audio_notification_hook.py:71-77 | any command resolved from a preferences file splits on whitespace into at least one word |
| HookProperties.CommandWithFlagsScenario | plugins/audio-notifications/hooks/audio_notification_hook.py:65-77 | preferences `{"speech_command": "say --rate=200"}` and message `"  Build finished  "` launch `["say", "--rate=200", "Build finished"]` |
| HookProperties.DefaultCommandScenario | plugins/audio-notifications/hooks/audio_notification_hook.py:50-77 | empty preferences, only `espeak` available and message `"Hi"` launch `["espeak", "Hi"]` |
| Text.Strip | plugins/audio-notifications/hooks/audio_notification_hook.py:44 | the result is no longer than the input and neither starts nor ends with whitespace |
| Text.StripCut | plugins/audio-notifications/hooks/audio_notification_hook.py:44 | the result is a slice of the input with only whitespace cut off before and after it |
| Text.StripUnique | plugins/audio-notifications/hooks/audio_notification_hook.py:68 | only one cut has that shape, so `Strip` is determined by it |
| Text.StripEmptyIff | plugins/audio-notifications/hooks/audio_notification_hook.py:44 | stripping gives the empty string if and only if the input is all whitespace |
| Text.StripIdempotent | plugins/audio-notifications/hooks/audio_notification_hook.py:68 | stripping a stripped string changes nothing |
| Text.SplitWords | plugins/audio-notifications/hooks/audio_notification_hook.py:74 | every word produced is non-empty and contains no space, tab, carriage return or newline |
| Text.SplitWordsNonEmpty | plugins/audio-notifications/hooks/audio_notification_hook.py:74 | a command line starting with a non-separator yields at least one word, and the first word is its leading run of non-separators |
| Text.SplitJoin | plugins/audio-notifications/hooks/audio_notification_hook.py:74 | splitting words joined by single spaces gives the same words back |

## Left out

- Reading the preferences file and standard input, and `Path.home()` at line 11. These are I/O. Each document is an `Option<Json>`, with `None` for any read or parse failure.
- `json.loads`. It is a library parser. JSON values are the `Json` datatype. Numbers are `real`. An object is a map, so duplicate keys keep only one value.
- `shutil.which`. It depends on the environment. A name is found exactly when it is in `Host.available`.
- `shlex.split`. Its POSIX quoting and escaping rules are not modelled. The tokenizer is the `Host.tokenize` parameter, and `None` stands for the `ValueError` it raises (an unbalanced quote or a trailing backslash). `PlainSplit` splits on space, tab, carriage return and newline. This agrees with `shlex.split` only on command lines without quotes or backslashes. The two example runs use it on such lines.
- `subprocess.run` with its 10-second timeout. Process execution and wall-clock time are left out. The result of launching an argument vector is the `Host.run` parameter: `Exited(status)`, `LaunchFailed` or `TimedOut`.
- Decide: `Raised` does not say which exit status the interpreter reports for an uncaught exception, because that is the Python runtime's behaviour, not the hook's.
