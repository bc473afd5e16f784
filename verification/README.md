# ESP8266 command skill and the `LOG` façade, in Dafny

This project models two small pieces of Mycroft Core.

- **The ESP8266 skill's command handler** (`Esp8266Skill`, in `esp8266.dfy`).
  It reads the module, command and action keywords of a matched intent. It builds
  the device path `module?cmd=command[_action]`, with spaces in the module replaced
  by underscores. It requests `http://esp8266.local/<path>` once and answers with
  exactly one dialog: `cmd.sent` when the request returns, and `not.found` with the
  original keywords when it raises. After that dialog, a failure also writes one
  error log line. The handler's effects form one ordered trace. The request's
  outcome is an input (`NetResult`).
- **The `LOG` class** (`Logger`, in `log.dfy`). `LOG(name)` stores `name` in a
  one-shot, class-level name slot, and `LOG(None)` empties it. Each log call consumes that slot if it is set. Otherwise
  it names the backend logger after its caller, `module:function:line`, with an
  empty module segment when the module cannot be resolved. The caller is an input
  record (`Caller`) in place of stack inspection. `Run` replays a sequence of
  constructions and log calls, so that properties spanning several calls can be
  stated. `init` looks up the level name (`ConfigLevel`) and resolves it to a
  numeric level (`LevelValue`). An unknown name makes `init` raise.
- `Decimal` (in `decimal.dfy`) renders the line number the way `str()` does and
  provides a parser that inverts it. `Wrappers` provides `Option` and the
  dictionary `get`.

The network call, dialog rendering and the logging backend are outside the model.
A missing module or command keyword is not excluded by a precondition. The
handler reads both keywords before its `try`, so it raises, and the model returns
`Crashed` with no request and no dialog. The intent registration requires both
keywords, so `OneRequestOneDialog` shows that a registered match never takes
that path.

The `not.found` dialog's `action` parameter is the raw keyword lookup. It is
therefore `None` when the utterance had no action. This follows the code, which
passes `act_name` unchanged.

## Model

| member | source | states |
|---|---|---|
| Esp8266Skill.ReplaceSpaces | mycroft/skills/esp8266/__init__.py:48 | same length as the input; each space becomes `_` and every other character is kept; the result has no spaces |
| Esp8266Skill.ReplaceSpacesIdempotent | mycroft/skills/esp8266/__init__.py:48 | a module keyword without spaces is used as is |
| Esp8266Skill.BuildPath | mycroft/skills/esp8266/__init__.py:48-52 | computes `ReplaceSpaces(module) + "?cmd=" + command`, plus `"_" + action` when the action is truthy; its contract is stated by PathPrefix, ActionSuffix, BuildPathShape and PathSplitsBack |
| Esp8266Skill.PathPrefix | mycroft/skills/esp8266/__init__.py:48-50 | the path starts with the module keyword with underscores (same length, no spaces), then `?cmd=`, then the command keyword |
| Esp8266Skill.ActionSuffix | mycroft/skills/esp8266/__init__.py:50-52 | the path extends past the command exactly when the action is truthy, and then has exactly one `_` and the action more and ends with them; otherwise its length is module + `?cmd=` + command and it ends with the command |
| Esp8266Skill.PathSplitsBack | mycroft/skills/esp8266/__init__.py:48-52 | for a module keyword without `?`, the text before the first `?` is the underscored module, and the query is the command plus `_action` exactly when the action is truthy |
| Esp8266Skill.HandleSingleCommand | mycroft/skills/esp8266/__init__.py:44-59 | fails before any effect exactly when the module or command keyword is missing, with the module checked first. Otherwise the effects happen in this order: a request to `http://esp8266.local/` plus the path, then `cmd.sent` without data if the request returned. If it raised, the request is followed by `not.found` carrying the unmodified command, action and module, and then one `Error: <exception>` log line |
| Esp8266Skill.OneRequestOneDialog | mycroft/skills/esp8266/__init__.py:41-58 | a message with both required keywords never fails before the guarded block. It requests exactly one URL and speaks exactly one dialog: `cmd.sent` iff the request returned, `not.found` iff it raised |
| Esp8266Skill.FailureKeepsOriginalModule | mycroft/skills/esp8266/__init__.py:48-58 | on failure the dialog, second in the trace, carries the module keyword with its spaces, while the module segment of the URL requested first has none |
| Esp8266Skill.OutcomeFollowsRequest | mycroft/skills/esp8266/__init__.py:53-59 | for one message, both outcomes first request the same URL. Success then only says `cmd.sent`; failure says `not.found` and then logs `Error: <exception>` |
| Esp8266Skill.ExampleLed0TurnOn | mycroft/skills/esp8266/__init__.py:54-55 | `led0`, `turn`, `on` requests `http://esp8266.local/led0?cmd=turn_on` |
| Esp8266Skill.ExampleSpacedModule | mycroft/skills/esp8266/__init__.py:48-52 | `led 0`, `turn`, `on` gives `led_0?cmd=turn_on` |
| Esp8266Skill.ExampleNoAction | mycroft/skills/esp8266/__init__.py:50-51 | an absent or empty action gives `fan?cmd=toggle` for `fan`, `toggle` |
| Decimal.Show | mycroft/util/log.py:107 | the line number renders as a non-empty digit string without leading zeros |
| Decimal.ParseShow | mycroft/util/log.py:107 | reading the rendered line number back gives the number |
| Decimal.ShowParse | mycroft/util/log.py:107 | every canonical digit string is the rendering of its value |
| Decimal.ShowInjective | mycroft/util/log.py:107 | distinct line numbers render differently |
| Logger.ConfigLevel | mycroft/util/log.py:64-66 | the threshold name is the config's `log_level` when present, and `DEBUG` when the key or the whole config file is missing |
| Logger.LevelValue | mycroft/util/log.py:66 | the `getLevelName` lookup of a level name in Python 2.7's standard table (CRITICAL 50, ERROR 40, WARNING and WARN 30, INFO 20, DEBUG 10, NOTSET 0); no level for any other name; its contract is stated by Init and InitDefaults |
| Logger.CreateLogger | mycroft/util/log.py:76-81 | the logger for a key: propagation off, at the shared threshold; its contract is stated by Init, LogCall and RunKeepsSharedSetup |
| Logger.Init | mycroft/util/log.py:62-80 | `init` succeeds exactly when the configured level name is a standard one. It then leaves the name slot alone, sets the shared threshold to that name's numeric level, and creates the logger for key `""` (the backend's root logger, which reports its name as `root`) without propagation at that threshold. Otherwise it raises on that name |
| Logger.InitDefaults | mycroft/util/log.py:64-66 | with no config file the threshold is DEBUG (10); `INFO` gives 20; a lower-case `debug` makes `init` raise |
| Logger.SetCustomName | mycroft/util/log.py:83-84 | `LOG(name)` stores the given optional name in the slot, replacing what it held; its contract is stated by OverrideConsumedOnce and LatestOverrideWins |
| Logger.DerivedIdentity | mycroft/util/log.py:104-107 | computes `module + ":" + function + ":" + str(line)`, with "" for an unresolved module; its contract is stated by DistinctLinesDistinctIdentities and IdentitySplitsBack |
| Logger.LogCall | mycroft/util/log.py:86-108 | a log call leaves the slot empty. It uses the slot's name when one was set and the caller-derived identity otherwise. It makes one backend call with the requested severity and the positional and keyword arguments unchanged, on a non-propagating logger at the shared threshold |
| Logger.Run | mycroft/util/log.py:83-108 | the number of backend calls a sequence of uses makes equals the number of its log calls, and the threshold never changes |
| Logger.RunFollowsLogOps | mycroft/util/log.py:87-108 | a sequence of uses makes exactly one backend call per log call. The k-th backend call has the k-th log call's severity, positional arguments and keyword arguments |
| Logger.RunKeepsSharedSetup | mycroft/util/log.py:75-81 | every logger that any sequence of uses reaches is non-propagating and set to the shared threshold |
| Logger.SlotEmptyAfterLog | mycroft/util/log.py:88-91 | after any sequence of uses ending in a log call, the slot is empty |
| Logger.OverrideConsumedOnce | mycroft/util/log.py:83-107 | within any sequence of uses, `LOG(name)` followed by two log calls names the first call `name` and the second after its caller: the override does not persist |
| Logger.LatestOverrideWins | mycroft/util/log.py:83-90 | of two constructions with no log call between, the later decides the next call's name: its name if it has one, or the caller-derived identity after `LOG(None)`, which cancels the earlier override |
| Logger.DistinctLinesDistinctIdentities | mycroft/util/log.py:104-107 | the same module and function at different lines give distinct identities, equal up to the final line segment |
| Logger.NoOverrideDistinctLines | mycroft/util/log.py:88-107 | with the slot empty, two consecutive log calls from different lines of one function use loggers with different names |
| Logger.IdentitySplitsBack | mycroft/util/log.py:104-107 | when the module and function contain no colon, a derived identity splits at its colons back into module segment, function and line number |

## Left out

- The HTTP request (`urlopen`) is not modelled. Its outcome is the `NetResult` input: it either returned or raised with some exception text. The response body and status are ignored by the source too.
- `speak_dialog` is assumed not to raise. In the source, an exception from the `cmd.sent` dialog would also fall into the `except`. The model does not cover that case.
- Intent registration, `load_data_files`, `initialize`, `stop` and `create_skill` are not modelled. They are host-framework calls. Only the requirement that an intent match carries both the command and the module keyword is kept, as `IntentMatched`.
- The error line goes to the deprecated module-level `getLogger` logger. It is recorded only as its text, `Error: <exception>`.
- Stack inspection (`inspect.stack`, `inspect.getmodule`) is replaced by the `Caller` record. Line numbers are `nat`.
- The logging backend is not modelled. This covers handler and formatter construction, the output line format, `addHandler`, and printf-style message formatting. A backend call is recorded as its severity, its logger and its arguments.
- Level names: `init` resolves only the standard names of Python 2.7's logging module (`CRITICAL`, `ERROR`, `WARNING`, `WARN`, `INFO`, `DEBUG`, `NOTSET`). Levels registered at run time with `addLevelName` are not modelled. When `init` raises on an unknown name, the model records only that it raised. It does not record the half-set class attributes or the failed import.
- Reading `/etc/mycroft/mycroft.conf` is modelled only as an optional string map, where a missing file is `None`. File I/O and JSON-with-comments parsing are outside the model, and so are non-string config values such as a numeric `log_level`.
- Log arguments are modelled as strings and keyword arguments as a string-to-string map. In the source they can be any Python objects. `LOG(name)` is modelled with an optional string name; other objects are not modelled.
- The deprecated `getLogger(name)` function and the `_make_log_method` wrappers are not modelled. The wrappers are represented by the `Severity` argument.
- The class-level slot is modelled sequentially. The unsynchronised read-then-clear under concurrent threads is not modelled.
