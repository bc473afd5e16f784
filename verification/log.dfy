/**
 The `LOG` façade: each log call names its backend logger either after a
 one-shot override set by `LOG(name)` or after the caller's location,
 `module:function:line`. Stack inspection is replaced by a `Caller` record
 supplied with each call; the backend logger is a plain record.
 */
module Logger {
  import opened Wrappers
  import Decimal

  const DefaultLevel: string := "DEBUG"
  const LevelKey: string := "log_level"

  /** The caller frame: its module (None when it cannot be resolved), function and line. */
  datatype Caller = Caller(moduleName: Option<string>, funcName: string, line: nat)

  /** The five log operations the class exposes. */
  datatype Severity = Debug | Info | Warning | Error | Exception

  /**
   A backend logger as `create_logger` leaves it: not propagating, at the
   shared numeric level. `name` is the key passed to `getLogger`; for the key
   "" the backend returns its root logger, which reports its own name as "root".
   */
  datatype BackendLogger = BackendLogger(name: string, propagate: bool, level: nat)

  /**
   One delegation to the backend: the severity's method on a logger, with the
   call's positional and keyword arguments passed on unchanged.
   */
  datatype BackendCall = BackendCall(severity: Severity, logger: BackendLogger, args: seq<string>, kwargs: map<string, string>)

  /** The class-level attributes: the one-shot name slot and the numeric severity threshold. */
  datatype LogState = LogState(customName: Option<string>, level: nat)

  /** The name of the threshold `init` reads: the config's `log_level`, else DEBUG; no config file reads as `{}`. */
  function ConfigLevel(config: Option<map<string, string>>): (level: string)
    ensures config.Some? && LevelKey in config.value ==> level == config.value[LevelKey]
    ensures (config.None? || LevelKey !in config.value) ==> level == DefaultLevel
  {
    var settings := config.GetOr(map[]);
    Get(settings, LevelKey).GetOr(DefaultLevel)
  }

  /**
   The numeric level of a level name, as Python 2.7's logging table of
   standard names gives it (case-sensitive; `WARN` is an alias of
   `WARNING`; `FATAL` is not in that table). Any other name has no level: `getLevelName` then returns the
   text `Level <name>`, which `setLevel` rejects.
   */
  function LevelValue(name: string): Option<nat> {
    match name
    case "CRITICAL" => Some(50)
    case "ERROR" => Some(40)
    case "WARNING" => Some(30)
    case "WARN" => Some(30)
    case "INFO" => Some(20)
    case "DEBUG" => Some(10)
    case "NOTSET" => Some(0)
    case _ => None
  }

  /** `create_logger(name)`. */
  function CreateLogger(st: LogState, name: string): BackendLogger {
    BackendLogger(name, false, st.level)
  }

  /** What `init` leaves: the configured state and its root logger, or a raise on an unknown level name. */
  datatype InitResult = Ready(state: LogState, root: BackendLogger) | UnknownLevel(name: string)

  /**
   `init`: resolves the configured level name, sets the threshold and
   creates the logger for key "" (the backend root); the name slot is untouched. An unknown level
   name makes `setLevel` raise while the root logger is created.
   */
  function Init(st: LogState, config: Option<map<string, string>>): (r: InitResult)
    ensures r.Ready? <==> LevelValue(ConfigLevel(config)).Some?
    ensures r.UnknownLevel? ==> r.name == ConfigLevel(config)
    ensures r.Ready? ==>
      && r.state.customName == st.customName
      && r.state.level == LevelValue(ConfigLevel(config)).value
      && r.root.name == "" && !r.root.propagate && r.root.level == r.state.level
  {
    var name := ConfigLevel(config);
    match LevelValue(name)
    case None => UnknownLevel(name)
    case Some(level) =>
      var st' := st.(level := level);
      Ready(st', CreateLogger(st', ""))
  }

  /** Without a config file the threshold is DEBUG, level 10; a lower-case `debug` is not a level name. */
  lemma InitDefaults(st: LogState)
    ensures Init(st, None) == Ready(st.(level := 10), BackendLogger("", false, 10))
    ensures Init(st, Some(map[LevelKey := "INFO"])).Ready?
    ensures Init(st, Some(map[LevelKey := "INFO"])).state.level == 20
    ensures Init(st, Some(map[LevelKey := "debug"])) == UnknownLevel("debug")
  {
  }

  /** The module segment of a derived identity: "" when the module is unresolved. */
  function ModuleSegment(c: Caller): string {
    c.moduleName.GetOr("")
  }

  /** The identity derived from the caller's location, `module:function:line`. */
  function DerivedIdentity(c: Caller): string {
    ModuleSegment(c) + ":" + c.funcName + ":" + Decimal.Show(c.line)
  }

  /** `LOG(name)`: stores `name` in the one-shot slot, replacing whatever it held; `LOG(None)` empties it. */
  function SetCustomName(st: LogState, name: Option<string>): LogState {
    st.(customName := name)
  }

  /** `_log`: resolve one identity (consuming the slot if set) and make one backend call with it. */
  function LogCall(st: LogState, sev: Severity, c: Caller, args: seq<string>, kwargs: map<string, string>): (r: (LogState, BackendCall))
    ensures r.0.customName.None? && r.0.level == st.level
    ensures st.customName.Some? ==> r.1.logger.name == st.customName.value
    ensures st.customName.None? ==> r.1.logger.name == DerivedIdentity(c)
    ensures r.1.severity == sev && r.1.args == args && r.1.kwargs == kwargs
    ensures !r.1.logger.propagate && r.1.logger.level == st.level
  {
    var name := if st.customName.Some? then st.customName.value else DerivedIdentity(c);
    (st.(customName := None), BackendCall(sev, CreateLogger(st, name), args, kwargs))
  }

  /** A use of the class: a construction with a name, or a log call from some caller. */
  datatype Op =
    | Construct(name: Option<string>)
    | Log(severity: Severity, caller: Caller, args: seq<string>, kwargs: map<string, string>)

  function LogCount(ops: seq<Op>): nat
    decreases |ops|
  {
    if |ops| == 0 then 0 else (if ops[0].Log? then 1 else 0) + LogCount(ops[1..])
  }

  function Step(st: LogState, op: Op): (r: (LogState, seq<BackendCall>)) {
    match op
    case Construct(name) => (SetCustomName(st, name), [])
    case Log(sev, c, args, kwargs) => var (st', call) := LogCall(st, sev, c, args, kwargs); (st', [call])
  }

  /** Runs a sequence of uses in order, collecting the backend calls. */
  function Run(st: LogState, ops: seq<Op>): (r: (LogState, seq<BackendCall>))
    ensures |r.1| == LogCount(ops)
    ensures r.0.level == st.level
    decreases |ops|
  {
    if |ops| == 0 then (st, [])
    else
      var (st1, calls1) := Step(st, ops[0]);
      var (st2, calls2) := Run(st1, ops[1..]);
      (st2, calls1 + calls2)
  }

  /** Whether every backend call goes to a non-propagating logger at this threshold. */
  predicate SharedSetup(calls: seq<BackendCall>, level: nat) {
    forall i :: 0 <= i < |calls| ==> !calls[i].logger.propagate && calls[i].logger.level == level
  }

  /** Every logger a sequence of uses reaches is non-propagating and at the shared threshold. */
  lemma {:induction false} RunKeepsSharedSetup(st: LogState, ops: seq<Op>)
    ensures SharedSetup(Run(st, ops).1, st.level)
    decreases |ops|
  {
    if |ops| > 0 {
      var step := Step(st, ops[0]);
      RunKeepsSharedSetup(step.0, ops[1..]);
      var rest := Run(step.0, ops[1..]).1;
      assert Run(st, ops).1 == step.1 + rest;
      assert SharedSetup(step.1, st.level);
    }
  }

  /** The log calls of a sequence of uses, in order. */
  function LogOps(ops: seq<Op>): (logs: seq<Op>)
    ensures forall k :: 0 <= k < |logs| ==> logs[k].Log?
    decreases |ops|
  {
    if |ops| == 0 then []
    else (if ops[0].Log? then [ops[0]] else []) + LogOps(ops[1..])
  }

  /** A backend call made for a log call: same severity, same positional and keyword arguments. */
  predicate Carries(call: BackendCall, op: Op) {
    op.Log? && call.severity == op.severity && call.args == op.args && call.kwargs == op.kwargs
  }

  /** The k-th backend call of a run is made for the k-th log call, and there is one per log call. */
  lemma {:induction false} RunFollowsLogOps(st: LogState, ops: seq<Op>)
    ensures |Run(st, ops).1| == |LogOps(ops)|
    ensures forall k :: 0 <= k < |Run(st, ops).1| ==> Carries(Run(st, ops).1[k], LogOps(ops)[k])
    decreases |ops|
  {
    if |ops| > 0 {
      var step := Step(st, ops[0]);
      RunFollowsLogOps(step.0, ops[1..]);
      var rest := Run(step.0, ops[1..]).1;
      var restLogs := LogOps(ops[1..]);
      var head: seq<Op> := if ops[0].Log? then [ops[0]] else [];
      var calls := Run(st, ops).1;
      var logs := LogOps(ops);
      assert logs == head + restLogs;
      assert calls == step.1 + rest;
      assert |step.1| == |head|;
      forall k | 0 <= k < |calls|
        ensures Carries(calls[k], logs[k])
      {
        if k < |step.1| {
          assert calls[k] == step.1[k] && logs[k] == head[k];
        } else {
          assert calls[k] == rest[k - |step.1|];
          assert logs[k] == restLogs[k - |head|];
        }
      }
    }
  }

  lemma {:induction false} LogCountAppend(a: seq<Op>, b: seq<Op>)
    ensures LogCount(a + b) == LogCount(a) + LogCount(b)
    decreases |a|
  {
    if |a| > 0 {
      assert (a + b)[1..] == a[1..] + b;
      LogCountAppend(a[1..], b);
    } else {
      assert a + b == b;
    }
  }

  /** Running one use then the rest. */
  lemma RunCons(st: LogState, op: Op, rest: seq<Op>)
    ensures Run(st, [op] + rest)
         == (Run(Step(st, op).0, rest).0, Step(st, op).1 + Run(Step(st, op).0, rest).1)
  {
    assert ([op] + rest)[1..] == rest;
  }

  /** Running `a` then `b` is running `a + b`. */
  lemma {:induction false} RunAppend(st: LogState, a: seq<Op>, b: seq<Op>)
    ensures Run(st, a + b).0 == Run(Run(st, a).0, b).0
    ensures Run(st, a + b).1 == Run(st, a).1 + Run(Run(st, a).0, b).1
    decreases |a|
  {
    if |a| == 0 {
      assert a + b == b;
    } else {
      var step := Step(st, a[0]);
      assert (a + b)[0] == a[0];
      assert (a + b)[1..] == a[1..] + b;
      RunAppend(step.0, a[1..], b);
      var ra := Run(step.0, a[1..]);
      var rb := Run(ra.0, b);
      assert step.1 + (ra.1 + rb.1) == (step.1 + ra.1) + rb.1;
    }
  }

  /** After a log call the slot is empty, whatever came before. */
  lemma SlotEmptyAfterLog(st: LogState, ops: seq<Op>)
    requires |ops| > 0 && ops[|ops| - 1].Log?
    ensures Run(st, ops).0.customName.None?
  {
    var pre := ops[..|ops| - 1];
    assert ops == pre + [ops[|ops| - 1]];
    RunAppend(st, pre, [ops[|ops| - 1]]);
  }

  /**
   The override is used once: a name set just before a log call names that
   call, and the next log call, with no construction between, falls back to
   the caller's location.
   */
  lemma OverrideConsumedOnce(st: LogState, pre: seq<Op>, name: string, first: Op, second: Op, post: seq<Op>)
    requires first.Log? && second.Log?
    ensures var calls := Run(st, pre + [Construct(Some(name)), first, second] + post).1;
      && |calls| == LogCount(pre) + 2 + LogCount(post)
      && calls[LogCount(pre)].logger.name == name
      && calls[LogCount(pre) + 1].logger.name == DerivedIdentity(second.caller)
  {
    var mid := [Construct(Some(name)), first, second];
    var s1 := Run(st, pre).0;
    RunAppend(st, pre, mid);
    RunAppend(st, pre + mid, post);
    LogCountAppend(pre, mid);
    LogCountAppend(pre + mid, post);
    var s2 := SetCustomName(s1, Some(name));
    var (s3, call1) := LogCall(s2, first.severity, first.caller, first.args, first.kwargs);
    var (s4, call2) := LogCall(s3, second.severity, second.caller, second.args, second.kwargs);
    RunCons(s1, Construct(Some(name)), [first, second]);
    RunCons(s2, first, [second]);
    RunCons(s3, second, []);
    assert [Construct(Some(name))] + [first, second] == mid;
    assert [first] + [second] == [first, second];
    assert [second] + [] == [second];
    assert Run(s1, mid).1 == [call1, call2];
    assert LogCount(mid) == 2;
    var calls := Run(st, pre + mid + post).1;
    assert calls == Run(st, pre).1 + [call1, call2] + Run(Run(st, pre + mid).0, post).1;
  }

  /**
   Of two constructions with no log call between, the later one decides the
   next log call's name: its name when it has one, and the caller's location
   when it was `LOG(None)`, which cancels the earlier override.
   */
  lemma LatestOverrideWins(st: LogState, pre: seq<Op>, a: Option<string>, b: Option<string>, call: Op, post: seq<Op>)
    requires call.Log?
    ensures var calls := Run(st, pre + [Construct(a), Construct(b), call] + post).1;
      && |calls| == LogCount(pre) + 1 + LogCount(post)
      && calls[LogCount(pre)].logger.name == (if b.Some? then b.value else DerivedIdentity(call.caller))
  {
    var mid := [Construct(a), Construct(b), call];
    var s1 := Run(st, pre).0;
    RunAppend(st, pre, mid);
    RunAppend(st, pre + mid, post);
    LogCountAppend(pre, mid);
    LogCountAppend(pre + mid, post);
    var s2 := SetCustomName(s1, a);
    var s3 := SetCustomName(s2, b);
    var (s4, call1) := LogCall(s3, call.severity, call.caller, call.args, call.kwargs);
    RunCons(s1, Construct(a), [Construct(b), call]);
    RunCons(s2, Construct(b), [call]);
    RunCons(s3, call, []);
    assert [Construct(a)] + [Construct(b), call] == mid;
    assert [Construct(b)] + [call] == [Construct(b), call];
    assert [call] + [] == [call];
    assert Run(s1, mid).1 == [call1];
    assert LogCount(mid) == 1;
    var calls := Run(st, pre + mid + post).1;
    assert calls == Run(st, pre).1 + [call1] + Run(Run(st, pre + mid).0, post).1;
  }

  /**
   Two calls from the same module and function at different lines get
   different identities that share everything up to the line number.
   */
  lemma DistinctLinesDistinctIdentities(moduleName: Option<string>, funcName: string, line1: nat, line2: nat)
    requires line1 != line2
    ensures var id1 := DerivedIdentity(Caller(moduleName, funcName, line1));
            var id2 := DerivedIdentity(Caller(moduleName, funcName, line2));
            var prefix := moduleName.GetOr("") + ":" + funcName + ":";
      && id1 != id2
      && id1 == prefix + Decimal.Show(line1)
      && id2 == prefix + Decimal.Show(line2)
  {
    var prefix := moduleName.GetOr("") + ":" + funcName + ":";
    var id1 := DerivedIdentity(Caller(moduleName, funcName, line1));
    var id2 := DerivedIdentity(Caller(moduleName, funcName, line2));
    Decimal.ShowInjective(line1, line2);
    assert id1[|prefix|..] == Decimal.Show(line1);
    assert id2[|prefix|..] == Decimal.Show(line2);
  }

  /** The same, observed through two consecutive log calls with the slot empty. */
  lemma NoOverrideDistinctLines(st: LogState, first: Op, second: Op)
    requires st.customName.None?
    requires first.Log? && second.Log?
    requires first.caller.moduleName == second.caller.moduleName
    requires first.caller.funcName == second.caller.funcName
    requires first.caller.line != second.caller.line
    ensures var calls := Run(st, [first, second]).1;
      && |calls| == 2
      && calls[0].logger.name != calls[1].logger.name
  {
    DistinctLinesDistinctIdentities(first.caller.moduleName, first.caller.funcName, first.caller.line, second.caller.line);
    var ops := [first, second];
    assert ops[1..] == [second];
    assert ops[1..][1..] == [];
  }

  /** The first `:` of a string, or its length when there is none. */
  function FirstColon(s: string): (k: nat)
    ensures k <= |s|
    ensures ':' !in s[..k]
    ensures k < |s| ==> s[k] == ':'
    decreases |s|
  {
    if |s| == 0 || s[0] == ':' then 0 else 1 + FirstColon(s[1..])
  }

  lemma {:induction false} FirstColonOfPrefix(a: string, rest: string)
    requires ':' !in a
    requires |rest| > 0 && rest[0] == ':'
    ensures FirstColon(a + rest) == |a|
    decreases |a|
  {
    if |a| > 0 {
      assert (a + rest)[1..] == a[1..] + rest;
      FirstColonOfPrefix(a[1..], rest);
    } else {
      assert a + rest == rest;
    }
  }

  /** Splits a string at its first `:` into the text before and the text after it. */
  function SplitColon(s: string): (string, string) {
    var k := FirstColon(s);
    if k < |s| then (s[..k], s[k + 1..]) else (s, "")
  }

  /** A segment without colons, a colon, then anything: the split recovers both sides. */
  lemma SplitColonOfJoin(a: string, rest: string)
    requires ':' !in a
    ensures SplitColon(a + ":" + rest) == (a, rest)
  {
    var s := a + ":" + rest;
    assert s == a + (":" + rest);
    FirstColonOfPrefix(a, ":" + rest);
    assert s[..|a|] == a;
    assert s[|a| + 1..] == rest;
  }

  /** Splits an identity `m:f:n` back into its three segments. */
  function SplitIdentity(id: string): (string, string, string) {
    var (m, rest) := SplitColon(id);
    var (f, n) := SplitColon(rest);
    (m, f, n)
  }

  /**
   When neither the module nor the function name holds a colon (Python
   module and function names never do), a derived identity splits back into
   the module segment, the function and the line number.
   */
  lemma IdentitySplitsBack(c: Caller)
    requires ':' !in ModuleSegment(c) && ':' !in c.funcName
    ensures var (m, f, n) := SplitIdentity(DerivedIdentity(c));
      && m == ModuleSegment(c) && f == c.funcName
      && Decimal.Canonical(n) && Decimal.Parse(n) == c.line
  {
    var m := ModuleSegment(c);
    var line := Decimal.Show(c.line);
    var tail := c.funcName + ":" + line;
    assert DerivedIdentity(c) == m + ":" + tail;
    SplitColonOfJoin(m, tail);
    SplitColonOfJoin(c.funcName, line);
    Decimal.ParseShow(c.line);
  }
}
