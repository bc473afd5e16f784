/**
 The ESP8266 skill's single-command handler: it turns the matched keywords
 into a request path for the device, asks for that path once, and answers
 with exactly one dialog. The HTTP request is an input (`NetResult`): what
 matters here is whether it raised.
 */
module Esp8266Skill {
  import opened Wrappers

  const DeviceRoot: string := "http://esp8266.local/"
  const CommandQuery: string := "?cmd="

  const CommandKey: string := "CommandKeyword"
  const ModuleKey: string := "ModuleKeyword"
  const ActionKey: string := "ActionKeyword"

  const CmdSent: string := "cmd.sent"
  const NotFound: string := "not.found"

  /** The keywords the intent matcher found in an utterance. */
  datatype Message = Message(metadata: map<string, string>)

  /** What the request to the device did: returned, or raised an exception with this text. */
  datatype NetResult = Reached | Raised(error: string)

  /** A `speak_dialog` call: the dialog name and its parameters, if any. */
  datatype Dialog = Dialog(name: string, data: Option<map<string, Option<string>>>)

  /** One observable step of the handler: the device request, a spoken dialog, or an error log line. */
  datatype Effect = Request(url: string) | Speak(dialog: Dialog) | ErrorLog(text: string)

  /** Why the handler raised before reaching its guarded block. */
  datatype Missing = MissingModule | MissingCommand

  /** The handler either runs to completion, leaving its effects in order, or raises before its guarded block. */
  datatype HandlerResult = Handled(trace: seq<Effect>) | Crashed(missing: Missing)

  /** The URLs requested in a trace, in order. */
  function Requests(trace: seq<Effect>): seq<string>
    decreases |trace|
  {
    if |trace| == 0 then []
    else (if trace[0].Request? then [trace[0].url] else []) + Requests(trace[1..])
  }

  /** The dialogs spoken in a trace, in order. */
  function Spoken(trace: seq<Effect>): seq<Dialog>
    decreases |trace|
  {
    if |trace| == 0 then []
    else (if trace[0].Speak? then [trace[0].dialog] else []) + Spoken(trace[1..])
  }

  /** Python truthiness of an optional string: present and non-empty. */
  predicate Truthy(s: Option<string>) {
    s.Some? && |s.value| > 0
  }

  /** `s.replace(' ', '_')`. */
  function ReplaceSpaces(s: string): (r: string)
    ensures |r| == |s|
    ensures forall i :: 0 <= i < |s| ==> r[i] == (if s[i] == ' ' then '_' else s[i])
    ensures ' ' !in r
    decreases |s|
  {
    if |s| == 0 then []
    else [if s[0] == ' ' then '_' else s[0]] + ReplaceSpaces(s[1..])
  }

  /** Replacing spaces leaves a module keyword without spaces unchanged. */
  lemma ReplaceSpacesIdempotent(s: string)
    ensures ' ' !in s ==> ReplaceSpaces(s) == s
  {
    if ' ' !in s {
      assert forall i :: 0 <= i < |s| ==> s[i] != ' ';
    }
  }

  /** The device path for `handle_single_command`'s keywords. */
  function BuildPath(moduleName: string, command: string, action: Option<string>): string {
    var base := ReplaceSpaces(moduleName) + CommandQuery + command;
    if Truthy(action) then base + "_" + action.value else base
  }

  /** A device path starts with the module with underscores, then `?cmd=`, then the command. */
  lemma PathPrefix(moduleName: string, command: string, action: Option<string>)
    ensures var path := BuildPath(moduleName, command, action);
      && |path| >= |moduleName| + |CommandQuery| + |command|
      && path[..|moduleName|] == ReplaceSpaces(moduleName)
      && path[|moduleName|..|moduleName| + |CommandQuery|] == CommandQuery
      && path[|moduleName| + |CommandQuery|..|moduleName| + |CommandQuery| + |command|] == command
  {
    var m := ReplaceSpaces(moduleName);
    var base := m + CommandQuery + command;
    var path := BuildPath(moduleName, command, action);
    assert path[..|base|] == base;
    assert base[..|moduleName|] == m;
    assert base[|moduleName|..|moduleName| + |CommandQuery|] == CommandQuery;
    assert base[|moduleName| + |CommandQuery|..] == command;
  }

  /**
   After the command, a device path carries `_action` exactly when the action
   is truthy; otherwise it ends with the command.
   */
  lemma ActionSuffix(moduleName: string, command: string, action: Option<string>)
    ensures var path := BuildPath(moduleName, command, action);
      && (Truthy(action) <==> |path| > |moduleName| + |CommandQuery| + |command|)
      && (Truthy(action) ==>
            |path| == |moduleName| + |CommandQuery| + |command| + 1 + |action.value|
            && path[|path| - |action.value| - 1..] == "_" + action.value)
      && (!Truthy(action) ==>
            |path| == |moduleName| + |CommandQuery| + |command|
            && path[|path| - |command|..] == command)
  {
    var base := ReplaceSpaces(moduleName) + CommandQuery + command;
    if Truthy(action) {
      var path := base + "_" + action.value;
      assert path[|base|..] == "_" + action.value;
    } else {
      assert base[|base| - |command|..] == command;
    }
  }

  /** The text before the first `?`, i.e. the module segment of a request path. */
  function PathModule(path: string): (m: string)
    ensures m <= path
    ensures '?' !in m
    ensures |m| < |path| ==> path[|m|] == '?'
    decreases |path|
  {
    if |path| == 0 || path[0] == '?' then [] else [path[0]] + PathModule(path[1..])
  }

  /** Everything after the module segment and the `?cmd=` marker. */
  function PathQuery(path: string): string {
    var m := PathModule(path);
    if |path| >= |m| + |CommandQuery| then path[|m| + |CommandQuery|..] else []
  }

  /** The module text is followed by `?`, so a path splits back at its first `?`. */
  lemma {:induction false} PathModuleOfPrefix(m: string, rest: string)
    requires '?' !in m
    requires |rest| > 0 && rest[0] == '?'
    ensures PathModule(m + rest) == m
    decreases |m|
  {
    if |m| > 0 {
      assert (m + rest)[1..] == m[1..] + rest;
      PathModuleOfPrefix(m[1..], rest);
    } else {
      assert m + rest == rest;
    }
  }

  /** Replacing spaces introduces no `?`. */
  lemma ReplaceSpacesAddsNoMark(s: string)
    requires '?' !in s
    ensures '?' !in ReplaceSpaces(s)
  {
    var r := ReplaceSpaces(s);
    assert forall i :: 0 <= i < |r| ==> r[i] != '?';
  }

  /** The query part of a path: the command, then `_action` when the action is truthy. */
  function Query(command: string, action: Option<string>): string {
    if Truthy(action) then command + "_" + action.value else command
  }

  lemma BuildPathShape(moduleName: string, command: string, action: Option<string>)
    ensures BuildPath(moduleName, command, action) == ReplaceSpaces(moduleName) + (CommandQuery + Query(command, action))
  {
    var m := ReplaceSpaces(moduleName);
    if Truthy(action) {
      assert m + CommandQuery + command + "_" + action.value == m + (CommandQuery + (command + "_" + action.value));
    } else {
      assert m + CommandQuery + command == m + (CommandQuery + command);
    }
  }

  /**
   Reading a built path back: when the module keyword has no `?`, the module
   segment is the keyword with underscores, and the query is the command
   followed by `_action` exactly when the action is truthy.
   */
  lemma PathSplitsBack(moduleName: string, command: string, action: Option<string>)
    requires '?' !in moduleName
    ensures PathModule(BuildPath(moduleName, command, action)) == ReplaceSpaces(moduleName)
    ensures PathQuery(BuildPath(moduleName, command, action))
      == (if Truthy(action) then command + "_" + action.value else command)
  {
    var m := ReplaceSpaces(moduleName);
    ReplaceSpacesAddsNoMark(moduleName);
    var q := Query(command, action);
    var rest := CommandQuery + q;
    BuildPathShape(moduleName, command, action);
    PathModuleOfPrefix(m, rest);
    assert (m + rest)[|m| + |CommandQuery|..] == q;
  }

  /** Both keywords the intent requires are present (`require(...)` in the intent builder). */
  predicate IntentMatched(msg: Message) {
    CommandKey in msg.metadata && ModuleKey in msg.metadata
  }

  /**
   `handle_single_command`. The moduleName and command keywords are read before
   the guarded block: a missing module fails at the underscore replacement and
   a missing command at the concatenation, before any request or dialog.
   */
  function HandleSingleCommand(msg: Message, net: NetResult): (r: HandlerResult)
    ensures r.Crashed? <==> !IntentMatched(msg)
    ensures ModuleKey !in msg.metadata ==> r == Crashed(MissingModule)
    ensures ModuleKey in msg.metadata && CommandKey !in msg.metadata ==> r == Crashed(MissingCommand)
    ensures r.Handled? ==>
      var moduleName := msg.metadata[ModuleKey];
      var command := msg.metadata[CommandKey];
      var action := Get(msg.metadata, ActionKey);
      var url := DeviceRoot + BuildPath(moduleName, command, action);
      && (net.Reached? ==> r.trace == [Request(url), Speak(Dialog(CmdSent, None))])
      && (net.Raised? ==>
            var data := map["command" := Some(command), "action" := action, "module" := Some(moduleName)];
            r.trace == [Request(url), Speak(Dialog(NotFound, Some(data))), ErrorLog("Error: " + net.error)])
  {
    var moduleName := Get(msg.metadata, ModuleKey);
    var command := Get(msg.metadata, CommandKey);
    var action := Get(msg.metadata, ActionKey);
    if moduleName.None? then Crashed(MissingModule)
    else if command.None? then Crashed(MissingCommand)
    else
      var url := DeviceRoot + BuildPath(moduleName.value, command.value, action);
      match net
      case Reached => Handled([Request(url), Speak(Dialog(CmdSent, None))])
      case Raised(e) =>
        var data := map["command" := command, "action" := action, "module" := moduleName];
        Handled([Request(url), Speak(Dialog(NotFound, Some(data))), ErrorLog("Error: " + e)])
  }

  /**
   Every message the registered intent delivers is handled: it never fails
   before the request, requests exactly one URL, and speaks exactly one
   dialog, which is "cmd.sent" exactly when the request returned and
   "not.found" exactly when it raised.
   */
  lemma OneRequestOneDialog(msg: Message, net: NetResult)
    requires IntentMatched(msg)
    ensures var r := HandleSingleCommand(msg, net);
      && r.Handled?
      && |Requests(r.trace)| == 1
      && |Spoken(r.trace)| == 1
      && (Spoken(r.trace)[0].name == CmdSent <==> net.Reached?)
      && (Spoken(r.trace)[0].name == NotFound <==> net.Raised?)
  {
    var r := HandleSingleCommand(msg, net);
    var t := r.trace;
    assert t[1..][1..] == t[2..];
    if net.Raised? {
      assert t[2..][1..] == [];
      assert Requests(t[2..]) == [] && Spoken(t[2..]) == [];
    } else {
      assert t[2..] == [];
    }
    assert Requests(t[1..]) == [];
    assert Spoken(t[1..]) == [t[1].dialog];
  }

  /** The failure dialog keeps the module keyword as spoken, spaces included, while the request uses underscores. */
  lemma FailureKeepsOriginalModule(msg: Message, e: string)
    requires IntentMatched(msg)
    requires ' ' in msg.metadata[ModuleKey]
    ensures var r := HandleSingleCommand(msg, Raised(e));
      && r.Handled? && |r.trace| == 3 && r.trace[0].Request? && r.trace[1].Speak?
      && r.trace[1].dialog.data.Some?
      && r.trace[1].dialog.data.value["module"] == Some(msg.metadata[ModuleKey])
      && ' ' in r.trace[1].dialog.data.value["module"].value
      && |r.trace[0].url| >= |DeviceRoot| + |msg.metadata[ModuleKey]|
      && ' ' !in r.trace[0].url[|DeviceRoot|..|DeviceRoot| + |msg.metadata[ModuleKey]|]
  {
    var moduleName := msg.metadata[ModuleKey];
    var r := HandleSingleCommand(msg, Raised(e));
    var url := r.trace[0].url;
    var path := BuildPath(moduleName, msg.metadata[CommandKey], Get(msg.metadata, ActionKey));
    PathPrefix(moduleName, msg.metadata[CommandKey], Get(msg.metadata, ActionKey));
    assert url == DeviceRoot + path;
    assert url[|DeviceRoot|..|DeviceRoot| + |moduleName|] == path[..|moduleName|];
  }

  /**
   The outcome depends on the request alone: for one message both outcomes
   request the same URL first; success then only says "cmd.sent", failure
   says "not.found" and then logs the error.
   */
  lemma OutcomeFollowsRequest(msg: Message, e: string)
    requires IntentMatched(msg)
    ensures var ok := HandleSingleCommand(msg, Reached).trace;
            var failed := HandleSingleCommand(msg, Raised(e)).trace;
      && |ok| == 2 && |failed| == 3
      && ok[0] == failed[0] && ok[0].Request?
      && ok[1] == Speak(Dialog(CmdSent, None))
      && failed[1].Speak? && failed[1].dialog.name == NotFound
      && failed[2] == ErrorLog("Error: " + e)
  {
  }

  /** The worked example in the handler's comment: `led0`, `turn`, `on`. */
  lemma ExampleLed0TurnOn()
    ensures BuildPath("led0", "turn", Some("on")) == "led0?cmd=turn_on"
    ensures DeviceRoot + BuildPath("led0", "turn", Some("on")) == "http://esp8266.local/led0?cmd=turn_on"
  {
    ReplaceSpacesIdempotent("led0");
    assert Truthy(Some("on"));
    assert "led0" + "?cmd=" + "turn" + "_" + "on" == "led0?cmd=turn_on";
  }

  /** A two-word module: its space becomes an underscore. */
  lemma ExampleSpacedModule()
    ensures BuildPath("led 0", "turn", Some("on")) == "led_0?cmd=turn_on"
  {
    var r := ReplaceSpaces("led 0");
    assert r[0] == 'l' && r[1] == 'e' && r[2] == 'd' && r[3] == '_' && r[4] == '0';
    assert r == "led_0";
    assert Truthy(Some("on"));
    assert "led_0" + "?cmd=" + "turn" + "_" + "on" == "led_0?cmd=turn_on";
  }

  /** An absent or empty action appends nothing. */
  lemma ExampleNoAction()
    ensures BuildPath("fan", "toggle", None) == "fan?cmd=toggle"
    ensures BuildPath("fan", "toggle", Some("")) == "fan?cmd=toggle"
  {
    ReplaceSpacesIdempotent("fan");
    assert "fan" + "?cmd=" + "toggle" == "fan?cmd=toggle";
  }
}
