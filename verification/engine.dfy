/**
 The vocabulary shared by both launchers: the calls they make into the simulation
 engine, reduced to data. The engine itself is opaque; a call becomes a command value
 and whatever the engine reports becomes an input.
 */
module Engine {

  /** The string parameters a launcher sets before the engine runs. `AppArg(k)` is the
      k-th application argument slot (`app_arg1` .. `app_arg9`). */
  datatype StringParam =
    | StartupScript
    | ConsoleVerbosity
    | StatusbarVerbosity
    | DialogVerbosity
    | AddonScript1
    | AddonScript2
    | AppArg(slot: nat)

  /** The number of application argument slots, `app_arg1` .. `app_arg9`. */
  const MaxAppArgs := 9

  /** One configuration call: a string parameter, or a named string parameter. */
  datatype ParamCommand =
    | SetString(param: StringParam, value: string)
    | SetNamed(key: string, value: string)

  /** A named string parameter as split from a `-G` argument. */
  datatype KeyValue = KeyValue(key: string, value: string)

  /** The simulation states the launcher tells apart; every other engine state is `OtherState`. */
  datatype SimulationState = Stopped | AdvancingFirstAfterStop | OtherState

  /** The calls the simulation thread issues: `Initialize` and `Deinitialize` around its
      loop, the others during one iteration of it. */
  datatype EngineCommand =
    | Initialize
    | Deinitialize
    | LoadScene(path: string)
    | LoadModel(path: string)
    | StartSimulation
    | PostExitRequest
    | StopSimulation
    | AdvanceLoop

  /** The platform the launcher was built for; it only decides the library file name. */
  datatype Platform = Windows | MacOS | Linux

  /** The groups of settings a launcher pushes: add-on scripts, application arguments,
      named parameters, and every other string setting (verbosities, startup script). */
  datatype SettingKind = Addon | Positional | Named | OtherString

  function KindOf(c: ParamCommand): SettingKind
  {
    match c
    case SetNamed(_, _) => Named
    case SetString(param, _) =>
      if param.AppArg? then Positional
      else if param == AddonScript1 || param == AddonScript2 then Addon
      else OtherString
  }

  /** The part of one setting that belongs to kind `k`. */
  function Only(c: ParamCommand, k: SettingKind): seq<ParamCommand>
  {
    if KindOf(c) == k then [c] else []
  }

  /** The settings of one kind, in the order they were pushed. */
  function View(cmds: seq<ParamCommand>, k: SettingKind): seq<ParamCommand>
    decreases |cmds|
  {
    if |cmds| == 0 then [] else Only(cmds[0], k) + View(cmds[1..], k)
  }

  /** Concatenation of settings is associative. */
  lemma Associates(a: seq<ParamCommand>, b: seq<ParamCommand>, c: seq<ParamCommand>)
    ensures a + (b + c) == (a + b) + c
  {
  }

  lemma {:induction false} ViewAppend(a: seq<ParamCommand>, b: seq<ParamCommand>, k: SettingKind)
    ensures View(a + b, k) == View(a, k) + View(b, k)
    decreases |a|
  {
    if |a| == 0 {
      assert a + b == b;
    } else {
      var ab := a + b;
      assert ab[0] == a[0];
      assert ab[1..] == a[1..] + b;
      assert View(ab, k) == Only(a[0], k) + View(a[1..] + b, k);
      ViewAppend(a[1..], b, k);
      assert View(a, k) == Only(a[0], k) + View(a[1..], k);
      Associates(Only(a[0], k), View(a[1..], k), View(b, k));
    }
  }

  /** Settings all of kind `k` are their own view. */
  lemma {:induction false} ViewOfKind(cmds: seq<ParamCommand>, k: SettingKind)
    requires forall i :: 0 <= i < |cmds| ==> KindOf(cmds[i]) == k
    ensures View(cmds, k) == cmds
    decreases |cmds|
  {
    if |cmds| > 0 {
      ViewOfKind(cmds[1..], k);
      assert cmds == [cmds[0]] + cmds[1..];
    }
  }

  /** Settings none of which is of kind `k` have an empty view. */
  lemma {:induction false} ViewOfOtherKinds(cmds: seq<ParamCommand>, k: SettingKind)
    requires forall i :: 0 <= i < |cmds| ==> KindOf(cmds[i]) != k
    ensures View(cmds, k) == []
    decreases |cmds|
  {
    if |cmds| > 0 {
      ViewOfOtherKinds(cmds[1..], k);
    }
  }
}
