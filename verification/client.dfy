/**
 The current launcher's `main`: what it does with the already-parsed command line.
 The option parser itself is not modelled; `ParsedArgs` is its result, with `None` or an
 empty sequence for an option that was not given.
 */
module Client {
  import opened Maybe
  import opened Text
  import opened Engine
  import SimThread

  /** The GUI options handed to the engine's GUI loop; the flag values themselves are the
      engine's and stay abstract. */
  datatype GuiOptions = AllGui | NoGui | HeadlessGui | CustomGui(bits: int)

  datatype ParsedArgs = ParsedArgs(
    headless: bool,                   // -h
    trueHeadless: bool,               // -H
    autoStart: Option<int>,           // -s MS
    autoQuit: bool,                   // -q
    cmd: Option<string>,              // -c
    verbosity: Option<string>,        // -v
    statusbarVerbosity: Option<string>, // -w
    dialogsVerbosity: Option<string>, // -x
    addon: Option<string>,            // -a
    addon2: Option<string>,           // -b
    params: seq<string>,              // every -G value, in order
    appArgs: seq<string>,             // every -g value, in order
    guiOptions: Option<int>,          // -O
    files: seq<string>)               // the scene or model file(s)

  /** Either the parser rejected the command line, or it produced `ParsedArgs`. */
  datatype CommandLine = ParseError | Parsed(args: ParsedArgs)

  const DefaultVerbosity := "loadinfos"
  const DefaultStatusbarVerbosity := "scriptinfos"
  const DefaultDialogsVerbosity := "infos"

  /** The GUI options: full GUI by default, no GUI in true-headless mode, the headless GUI
      whenever -h is given, and -O only when neither -h nor -H is. */
  function SelectGuiOptions(a: ParsedArgs): (o: GuiOptions)
    ensures a.headless ==> o == HeadlessGui
    ensures !a.headless && a.trueHeadless ==> o == NoGui
    ensures !a.headless && !a.trueHeadless && a.guiOptions.None? ==> o == AllGui
    ensures !a.headless && !a.trueHeadless && a.guiOptions.Some? ==> o == CustomGui(a.guiOptions.value)
  {
    var initial := if a.trueHeadless then NoGui else AllGui;
    if a.headless then HeadlessGui
    else if a.guiOptions.Some? && !a.trueHeadless then CustomGui(a.guiOptions.value)
    else initial
  }

  /** The engine library's base name: a separate build for true-headless mode. */
  function LibraryName(trueHeadless: bool): string
  {
    if trueHeadless then "coppeliaSimHeadless" else "coppeliaSim"
  }

  /** The file name handed to the library loader, decorated per platform. */
  function LibraryFile(platform: Platform, name: string): (file: string)
    ensures platform == Windows ==> file == name
    ensures platform == MacOS ==> HasPrefix(file, "@executable_path/lib") && HasSuffix(file, name + ".dylib")
    ensures platform == MacOS ==> |file| == |"@executable_path/lib"| + |name| + |".dylib"|
    ensures platform == Linux ==> HasPrefix(file, "lib") && HasSuffix(file, name + ".so")
    ensures platform == Linux ==> |file| == |"lib"| + |name| + |".so"|
  {
    match platform
    case Windows => name
    case MacOS => "@executable_path/lib" + name + ".dylib"
    case Linux => "lib" + name + ".so"
  }

  /** True-headless mode loads a different file than GUI mode, on every platform. */
  lemma HeadlessLibraryIsDistinct(platform: Platform)
    ensures LibraryFile(platform, LibraryName(true)) != LibraryFile(platform, LibraryName(false))
  {
    assert |LibraryFile(platform, LibraryName(true))| == |LibraryFile(platform, LibraryName(false))| + 8;
  }

  /** What `loadSimLib` leaves behind: the file it asked for, whether the library is bound,
      and whether it unloaded a library whose entry points did not all resolve. */
  datatype Binding = Binding(file: string, bound: bool, unloadedOnFailure: bool)

  /** `loadSimLib`: the library is bound only when it was found AND all entry points
      resolved; a found library with missing entry points is unloaded again, so no partial
      binding survives. `found` and `resolved` are what the loader reported. */
  function LoadSimLib(platform: Platform, name: string, found: bool, resolved: bool): (b: Binding)
    ensures b.file == LibraryFile(platform, name)
    ensures b.bound <==> found && resolved
    ensures b.unloadedOnFailure <==> found && !resolved
    ensures !(b.bound && b.unloadedOnFailure)
  {
    if found then
      if resolved then Binding(LibraryFile(platform, name), true, false)
      else Binding(LibraryFile(platform, name), false, true)
    else Binding(LibraryFile(platform, name), false, false)
  }

  /** The string parameters set from -c, -v, -w, -x, -a and -b, in that order. The three
      verbosity levels are always set, to their defaults when not given. */
  function StringSettings(a: ParsedArgs): (cmds: seq<ParamCommand>)
    ensures |cmds| == 3 + (if a.cmd.Some? then 1 else 0) + (if a.addon.Some? then 1 else 0)
                         + (if a.addon2.Some? then 1 else 0)
    ensures SetString(ConsoleVerbosity, GetOr(a.verbosity, DefaultVerbosity)) in cmds
    ensures SetString(StatusbarVerbosity, GetOr(a.statusbarVerbosity, DefaultStatusbarVerbosity)) in cmds
    ensures SetString(DialogVerbosity, GetOr(a.dialogsVerbosity, DefaultDialogsVerbosity)) in cmds
    ensures a.cmd.Some? <==> SetString(StartupScript, GetOr(a.cmd, "")) in cmds
    ensures a.addon.Some? <==> SetString(AddonScript1, GetOr(a.addon, "")) in cmds
    ensures a.addon2.Some? <==> SetString(AddonScript2, GetOr(a.addon2, "")) in cmds
  {
    var startup := SetString(StartupScript, GetOr(a.cmd, ""));
    var addon1 := SetString(AddonScript1, GetOr(a.addon, ""));
    var addon2 := SetString(AddonScript2, GetOr(a.addon2, ""));
    var first := Optional(StartupScript, a.cmd);
    var levels := [SetString(ConsoleVerbosity, GetOr(a.verbosity, DefaultVerbosity)),
                   SetString(StatusbarVerbosity, GetOr(a.statusbarVerbosity, DefaultStatusbarVerbosity)),
                   SetString(DialogVerbosity, GetOr(a.dialogsVerbosity, DefaultDialogsVerbosity))];
    var third := Optional(AddonScript1, a.addon);
    var fourth := Optional(AddonScript2, a.addon2);
    assert startup !in levels + third + fourth;
    assert addon1 !in first + levels + fourth;
    assert addon2 !in first + levels + third;
    first + levels + third + fourth
  }

  function GetOr(o: Option<string>, default: string): string
  {
    if o.Some? then o.value else default
  }

  function Optional(param: StringParam, o: Option<string>): seq<ParamCommand>
  {
    if o.Some? then [SetString(param, o.value)] else []
  }

  function Min(a: int, b: int): int
  {
    if a < b then a else b
  }

  /** The loop over the -g values as written: index i goes to slot i + 1, and the loop
      breaks at the tenth value. */
  function AppArgLoop(args: seq<string>, i: nat): (cmds: seq<ParamCommand>)
    requires i <= |args|
    ensures |cmds| == (if i < MaxAppArgs then Min(|args|, MaxAppArgs) - i else 0)
    ensures forall k :: 0 <= k < |cmds| ==> cmds[k] == SetString(AppArg(i + k + 1), args[i + k])
    decreases |args| - i
  {
    if i < |args| then
      if i >= MaxAppArgs then []
      else [SetString(AppArg(i + 1), args[i])] + AppArgLoop(args, i + 1)
    else []
  }

  /** Only the first nine -g values are stored, in order, to slots `app_arg1`..`app_arg9`;
      later ones are dropped. */
  lemma AppArgsFirstNine(args: seq<string>)
    ensures |AppArgLoop(args, 0)| == Min(|args|, MaxAppArgs)
    ensures forall k :: 0 <= k < |AppArgLoop(args, 0)| ==>
                          AppArgLoop(args, 0)[k] == SetString(AppArg(k + 1), args[k])
  {
  }

  /** A `-G` value is split at its first `=`; it is ignored when it has no `=` or when that
      first `=` is its last character. */
  function SplitNamedParam(param: string): (r: Option<KeyValue>)
    ensures r.Some? ==> param == r.value.key + "=" + r.value.value
    ensures r.Some? ==> '=' !in r.value.key && r.value.value != ""
    ensures r.None? <==> '=' !in param || (param[|param| - 1] == '=' && '=' !in param[..|param| - 1])
  {
    match Find(param, '=', 0)
    case None => None
    case Some(pos) =>
      if pos == |param| - 1 then
        assert param[..|param| - 1] == param[..pos];
        None
      else
        var kv := KeyValue(param[..pos], param[pos + 1..]);
        assert param == kv.key + "=" + kv.value;
        assert '=' in param[..|param| - 1] by {
          assert param[..|param| - 1][pos] == '=';
        }
        Some(kv)
  }

  /** A key without `=` and a non-empty value, joined by `=`, split back into themselves. */
  lemma SplitJoinRoundTrip(key: string, value: string)
    requires '=' !in key && value != ""
    ensures SplitNamedParam(key + "=" + value) == Some(KeyValue(key, value))
  {
    var param := key + "=" + value;
    assert param[|key|] == '=';
    assert forall j :: 0 <= j < |key| ==> param[j] == key[j];
    var found := Find(param, '=', 0);
    assert found == Some(|key|);
    assert param[..|key|] == key;
    assert param[|key| + 1..] == value;
  }

  /** The named-parameter settings, in order, one per accepted -G value. */
  function NamedParamSettings(params: seq<string>): (cmds: seq<ParamCommand>)
    ensures |cmds| <= |params|
    ensures forall k :: 0 <= k < |cmds| ==> cmds[k].SetNamed?
    decreases |params|
  {
    if |params| == 0 then []
    else
      var before := NamedParamSettings(params[..|params| - 1]);
      match SplitNamedParam(params[|params| - 1])
      case None => before
      case Some(kv) => before + [SetNamed(kv.key, kv.value)]
  }

  /** The named parameter one -G value pushes: its key and value when accepted, nothing
      when rejected. */
  function NamedOfParam(param: string): seq<ParamCommand>
  {
    match SplitNamedParam(param)
    case None => []
    case Some(kv) => [SetNamed(kv.key, kv.value)]
  }

  /** Reference list: the named parameters of the accepted -G values, front to back. */
  function AcceptedNamed(params: seq<string>): seq<ParamCommand>
    decreases |params|
  {
    if |params| == 0 then [] else NamedOfParam(params[0]) + AcceptedNamed(params[1..])
  }

  lemma {:induction false} AcceptedNamedSnoc(params: seq<string>, param: string)
    ensures AcceptedNamed(params + [param]) == AcceptedNamed(params) + NamedOfParam(param)
    decreases |params|
  {
    var all := params + [param];
    if |params| == 0 {
      assert all[1..] == [];
      assert all[0] == param;
    } else {
      assert all[0] == params[0];
      assert all[1..] == params[1..] + [param];
      AcceptedNamedSnoc(params[1..], param);
      Associates(NamedOfParam(params[0]), AcceptedNamed(params[1..]), NamedOfParam(param));
    }
  }

  /** The loop over the -G values pushes exactly the named parameters of the accepted
      values, in order, and nothing else. */
  lemma {:induction false} NamedParamsInOrder(params: seq<string>)
    ensures NamedParamSettings(params) == AcceptedNamed(params)
    decreases |params|
  {
    if |params| > 0 {
      var front, last := params[..|params| - 1], params[|params| - 1];
      assert front + [last] == params;
      NamedParamsInOrder(front);
      AcceptedNamedSnoc(front, last);
    }
  }

  /** The engine's named-parameter store after some settings, assumed to behave as a map:
      a later setting of a key replaces an earlier one. The engine itself is not part of
      this model. */
  function NamedStore(cmds: seq<ParamCommand>): map<string, string>
  {
    if |cmds| == 0 then map[]
    else
      var before := NamedStore(cmds[..|cmds| - 1]);
      var last := cmds[|cmds| - 1];
      if last.SetNamed? then before[last.key := last.value] else before
  }

  /** An accepted -G value is stored: the store answers its value for its key. A rejected
      one changes no setting. */
  lemma NamedParamStored(params: seq<string>, param: string)
    ensures SplitNamedParam(param).Some? ==>
              var kv := SplitNamedParam(param).value;
              NamedStore(NamedParamSettings(params + [param]))[kv.key] == kv.value
    ensures SplitNamedParam(param).None? ==>
              NamedParamSettings(params + [param]) == NamedParamSettings(params)
  {
    assert (params + [param])[..|params|] == params;
  }

  /** A -G value that is accepted and names `key`. */
  predicate AcceptedWithKey(param: string, key: string)
  {
    SplitNamedParam(param).Some? && SplitNamedParam(param).value.key == key
  }

  /** Some -G value of the list is accepted and names `key`. */
  predicate SomeAcceptedWithKey(params: seq<string>, key: string)
  {
    exists i :: 0 <= i < |params| && AcceptedWithKey(params[i], key)
  }

  lemma ExistsSnoc(xs: seq<string>, front: seq<string>, p: string -> bool)
    requires |xs| > 0 && front == xs[..|xs| - 1]
    ensures (exists i :: 0 <= i < |xs| && p(xs[i])) <==>
              (exists i :: 0 <= i < |front| && p(front[i])) || p(xs[|xs| - 1])
  {
    if exists i :: 0 <= i < |front| && p(front[i]) {
      var i :| 0 <= i < |front| && p(front[i]);
      assert xs[i] == front[i];
    }
    if exists i :: 0 <= i < |xs| && p(xs[i]) {
      var i :| 0 <= i < |xs| && p(xs[i]);
      if i < |front| {
        assert front[i] == xs[i];
      }
    }
  }

  lemma SomeAcceptedSnoc(params: seq<string>, key: string)
    requires |params| > 0
    ensures SomeAcceptedWithKey(params, key) <==>
              SomeAcceptedWithKey(params[..|params| - 1], key) || AcceptedWithKey(params[|params| - 1], key)
  {
    ExistsSnoc(params, params[..|params| - 1], param => AcceptedWithKey(param, key));
  }

  /** The keys in the store are exactly the keys of the accepted -G values. */
  lemma {:induction false} NamedStoreKeys(params: seq<string>, key: string)
    ensures key in NamedStore(NamedParamSettings(params)) <==> SomeAcceptedWithKey(params, key)
    decreases |params|
  {
    if |params| > 0 {
      var front := params[..|params| - 1];
      NamedStoreKeys(front, key);
      SomeAcceptedSnoc(params, key);
      var cmds := NamedParamSettings(params);
      if SplitNamedParam(params[|params| - 1]).Some? {
        assert cmds[..|cmds| - 1] == NamedParamSettings(front);
      }
    }
  }

  /** The `i`-th -G value is accepted with `key`, and no later one is. */
  predicate LastAcceptedAt(params: seq<string>, key: string, i: int)
  {
    && 0 <= i < |params|
    && AcceptedWithKey(params[i], key)
    && forall j :: i < j < |params| ==> !AcceptedWithKey(params[j], key)
  }

  /** The store answers, for each key, the value of the last accepted -G value with that
      key: a later -G value for another key, or a rejected one, leaves it alone. */
  lemma {:induction false} NamedStoreLastWins(params: seq<string>, key: string, i: int)
    requires LastAcceptedAt(params, key, i)
    ensures key in NamedStore(NamedParamSettings(params))
    ensures NamedStore(NamedParamSettings(params))[key] == SplitNamedParam(params[i]).value.value
    decreases |params|
  {
    var n := |params|;
    var front, last := params[..n - 1], params[n - 1];
    assert front + [last] == params;
    if i == n - 1 {
      NamedParamStored(front, last);
    } else {
      assert front[i] == params[i];
      assert LastAcceptedAt(front, key, i) by {
        forall j | i < j < |front|
          ensures !AcceptedWithKey(front[j], key)
        {
          assert front[j] == params[j];
        }
      }
      NamedStoreLastWins(front, key, i);
      var cmds, before := NamedParamSettings(params), NamedParamSettings(front);
      match SplitNamedParam(last)
      case None =>
        assert cmds == before;
      case Some(kv) =>
        assert kv.key != key;
        assert cmds[..|cmds| - 1] == before;
    }
  }

  /** How the launcher goes on after configuring the engine: not at all, running the
      simulation loop on its own thread of execution (true-headless mode), or running the
      GUI loop with the given options while the simulation loop runs on a second thread. */
  datatype Launch = NotLaunched | Synchronous | GuiWithThread(options: GuiOptions)

  /** Everything `main` decides: the binding attempt, the settings pushed to the engine
      before it runs, how it launches, the state the simulation loop starts from, whether
      the library is unloaded, and the process exit code. */
  datatype ClientOutcome = ClientOutcome(
    binding: Option<Binding>,
    setup: seq<ParamCommand>,
    launch: Launch,
    thread: Option<SimThread.ThreadState>,
    autoQuit: bool,
    unloaded: bool,
    exitCode: int)

  /** The state the simulation loop starts from: the first file as pending path, -s as the
      auto-start request with its value as the stop delay (0 when -s is absent). */
  function ThreadStart(a: ParsedArgs): (s: SimThread.ThreadState)
    ensures s.pending == (if |a.files| > 0 then a.files[0] else "")
    ensures s.autoStart <==> a.autoStart.Some?
    ensures s.stopDelay == (if a.autoStart.Some? then a.autoStart.value else 0)
    ensures !s.autoStarted && s.runCount == 0
  {
    SimThread.Initial(if |a.files| > 0 then a.files[0] else "", a.autoStart.Some?,
                      if a.autoStart.Some? then a.autoStart.value else 0)
  }

  /** From the state `main` starts the simulation thread in, a run of the loop loads the
      first file once, as a scene or a model by its suffix, starts the simulation once
      exactly when -s was given, stops it once exactly when the -s delay is positive and
      some iteration passes it, and posts an exit request exactly when -q was given and
      some iteration sees the stopped state after the first counted run. */
  lemma ThreadedRun(a: ParsedArgs, trace: seq<SimThread.Observation>)
    requires |trace| > 0
    ensures var file := if |a.files| > 0 then a.files[0] else "";
            && SimThread.Count(SimThread.Run(ThreadStart(a), a.autoQuit, trace).commands, LoadScene(file))
               == (if SimThread.IsScenePath(file) then 1 else 0)
            && SimThread.Count(SimThread.Run(ThreadStart(a), a.autoQuit, trace).commands, LoadModel(file))
               == (if SimThread.IsModelPath(file) then 1 else 0)
    ensures SimThread.LoadCount(SimThread.Run(ThreadStart(a), a.autoQuit, trace).commands) <= 1
    ensures SimThread.Count(SimThread.Run(ThreadStart(a), a.autoQuit, trace).commands, StartSimulation)
            == (if a.autoStart.Some? then 1 else 0)
    ensures SimThread.Count(SimThread.Run(ThreadStart(a), a.autoQuit, trace).commands, StopSimulation) <= 1
    ensures SimThread.Count(SimThread.Run(ThreadStart(a), a.autoQuit, trace).commands, StopSimulation) == 1
            <==> a.autoStart.Some? && a.autoStart.value > 0 && SimThread.PassesDelay(trace, a.autoStart.value)
    ensures SimThread.Count(SimThread.Run(ThreadStart(a), a.autoQuit, trace).commands, PostExitRequest) > 0
            <==> a.autoQuit && SimThread.StoppedAfterOneRun(0, trace)
  {
    var s := ThreadStart(a);
    SimThread.LoadedAtMostOnce(s, a.autoQuit, trace);
    SimThread.StartedAtMostOnce(s, a.autoQuit, trace);
    SimThread.StopFiresAtMostOnce(s, a.autoQuit, trace);
    SimThread.ExitAfterFirstRun(s, a.autoQuit, trace);
  }

  /** The string settings write no application-argument slot and no named parameter. */
  lemma StringSettingsKinds(a: ParsedArgs)
    ensures View(StringSettings(a), Positional) == [] && View(StringSettings(a), Named) == []
  {
    var first := Optional(StartupScript, a.cmd);
    var levels := [SetString(ConsoleVerbosity, GetOr(a.verbosity, DefaultVerbosity)),
                   SetString(StatusbarVerbosity, GetOr(a.statusbarVerbosity, DefaultStatusbarVerbosity)),
                   SetString(DialogVerbosity, GetOr(a.dialogsVerbosity, DefaultDialogsVerbosity))];
    var third := Optional(AddonScript1, a.addon);
    var fourth := Optional(AddonScript2, a.addon2);
    OptionalIsPlain(StartupScript, a.cmd);
    OptionalIsPlain(AddonScript1, a.addon);
    OptionalIsPlain(AddonScript2, a.addon2);
    LeavesSlotsAndNames(first, levels, third, fourth);
  }

  lemma OptionalIsPlain(param: StringParam, o: Option<string>)
    requires !param.AppArg?
    ensures NoSlotOrNamed(Optional(param, o))
  {
  }

  /** Settings none of which is an application argument or a named parameter. */
  predicate NoSlotOrNamed(cmds: seq<ParamCommand>)
  {
    forall i :: 0 <= i < |cmds| ==> KindOf(cmds[i]) != Positional && KindOf(cmds[i]) != Named
  }

  lemma LeavesSlotsAndNames(a: seq<ParamCommand>, b: seq<ParamCommand>, c: seq<ParamCommand>, d: seq<ParamCommand>)
    requires NoSlotOrNamed(a) && NoSlotOrNamed(b) && NoSlotOrNamed(c) && NoSlotOrNamed(d)
    ensures View(a + b + c + d, Positional) == [] && View(a + b + c + d, Named) == []
  {
    forall k | k == Positional || k == Named
      ensures View(a + b + c + d, k) == []
    {
      ViewOfOtherKinds(a, k);
      ViewOfOtherKinds(b, k);
      ViewOfOtherKinds(c, k);
      ViewOfOtherKinds(d, k);
      ViewOfThree(a, b, c, k);
      ViewAppend(a + b + c, d, k);
    }
  }

  lemma ViewOfThree(a: seq<ParamCommand>, b: seq<ParamCommand>, c: seq<ParamCommand>, k: SettingKind)
    ensures View(a + b + c, k) == View(a, k) + View(b, k) + View(c, k)
  {
    ViewAppend(a, b, k);
    ViewAppend(a + b, c, k);
  }

  /** The -g loop writes application-argument slots only. */
  lemma SlotsView(appArgs: seq<string>)
    ensures View(AppArgLoop(appArgs, 0), Positional) == AppArgLoop(appArgs, 0)
    ensures View(AppArgLoop(appArgs, 0), Named) == []
  {
    ViewOfKind(AppArgLoop(appArgs, 0), Positional);
    ViewOfOtherKinds(AppArgLoop(appArgs, 0), Named);
  }

  /** The -G loop writes the accepted named parameters only. */
  lemma NamedView(params: seq<string>)
    ensures View(NamedParamSettings(params), Named) == AcceptedNamed(params)
    ensures View(NamedParamSettings(params), Positional) == []
  {
    ViewOfKind(NamedParamSettings(params), Named);
    ViewOfOtherKinds(NamedParamSettings(params), Positional);
    NamedParamsInOrder(params);
  }

  /** String settings, then slot settings, then named settings, sorted by kind. */
  lemma SetupViewsOf(strings: seq<ParamCommand>, slots: seq<ParamCommand>, named: seq<ParamCommand>)
    requires View(strings, Positional) == [] && View(strings, Named) == []
    requires View(slots, Positional) == slots && View(slots, Named) == []
    requires View(named, Positional) == []
    ensures View(strings + slots + named, Positional) == slots
    ensures View(strings + slots + named, Named) == View(named, Named)
  {
    ViewOfThree(strings, slots, named, Positional);
    ViewOfThree(strings, slots, named, Named);
  }

  /** What `main` pushes before launching, sorted by kind: the application-argument slots
      receive exactly the first nine -g values, value k in slot k + 1, and the named
      parameters are exactly those of the accepted -G values, in order; the string
      settings write neither. */
  lemma SetupViews(a: ParsedArgs)
    ensures View(StringSettings(a) + AppArgLoop(a.appArgs, 0) + NamedParamSettings(a.params), Positional)
            == AppArgLoop(a.appArgs, 0)
    ensures View(StringSettings(a) + AppArgLoop(a.appArgs, 0) + NamedParamSettings(a.params), Named)
            == AcceptedNamed(a.params)
  {
    StringSettingsKinds(a);
    SlotsView(a.appArgs);
    NamedView(a.params);
    SetupViewsOf(StringSettings(a), AppArgLoop(a.appArgs, 0), NamedParamSettings(a.params));
  }

  /** `main`, given the parser's verdict and what the library loader reports. */
  function ClientMain(cl: CommandLine, platform: Platform, found: bool, resolved: bool): (o: ClientOutcome)
    ensures o.exitCode == (if cl.ParseError? then 2 else if found && resolved then 0 else 255)
    ensures o.binding.Some? <==> cl.Parsed?
    ensures cl.Parsed? ==> o.binding.value.file == LibraryFile(platform, LibraryName(cl.args.trueHeadless))
    ensures o.launch != NotLaunched <==> cl.Parsed? && found && resolved
    ensures o.launch == Synchronous <==> cl.Parsed? && found && resolved && cl.args.trueHeadless
    ensures o.launch.GuiWithThread? ==> o.launch.options == SelectGuiOptions(cl.args)
    ensures o.setup != [] <==> o.launch != NotLaunched
    ensures o.launch != NotLaunched ==>
              o.setup == StringSettings(cl.args) + AppArgLoop(cl.args.appArgs, 0) + NamedParamSettings(cl.args.params)
    ensures o.thread.Some? <==> o.launch != NotLaunched
    ensures o.thread.Some? ==> o.thread.value == ThreadStart(cl.args) && o.autoQuit == cl.args.autoQuit
    ensures o.unloaded <==> cl.Parsed? && found
  {
    match cl
    case ParseError => ClientOutcome(None, [], NotLaunched, None, false, false, 2)
    case Parsed(a) =>
      var b := LoadSimLib(platform, LibraryName(a.trueHeadless), found, resolved);
      if b.bound then
        var setup := StringSettings(a) + AppArgLoop(a.appArgs, 0) + NamedParamSettings(a.params);
        var launch := if a.trueHeadless then Synchronous else GuiWithThread(SelectGuiOptions(a));
        ClientOutcome(Some(b), setup, launch, Some(ThreadStart(a)), a.autoQuit, true, 0)
      else
        ClientOutcome(Some(b), [], NotLaunched, None, a.autoQuit, b.unloadedOnFailure, 255)
  }

  /** Once `main` has launched the engine, the application-argument slots it set hold
      exactly the first nine -g values, value k in slot k + 1, and the named parameters it
      set are exactly those of the accepted -G values, in order. */
  lemma LaunchedSetup(cl: CommandLine, platform: Platform, found: bool, resolved: bool)
    ensures ClientMain(cl, platform, found, resolved).launch != NotLaunched ==>
              && View(ClientMain(cl, platform, found, resolved).setup, Positional) == AppArgLoop(cl.args.appArgs, 0)
              && |AppArgLoop(cl.args.appArgs, 0)| == Min(|cl.args.appArgs|, MaxAppArgs)
              && View(ClientMain(cl, platform, found, resolved).setup, Named) == AcceptedNamed(cl.args.params)
  {
    if cl.Parsed? {
      SetupViews(cl.args);
      AppArgsFirstNine(cl.args.appArgs);
    }
  }
}
