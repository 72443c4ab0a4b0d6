/**
 The legacy launcher's hand-written argument translator (`run`): each argument that
 starts with `-` is looked at by its second character, every other argument is a
 candidate scene or model path. String parameters are pushed to the engine as they are
 met; the rest is collected and handed to the engine when it is launched.
 */
module LegacyArgs {
  import opened Maybe
  import opened Text
  import opened Engine

  /** The option flags of the legacy launch call; their bit values stay abstract. */
  datatype Flag = GuiAll | GuiHeadless | AutoStartFlag | AutoQuitFlag

  /** What the translator has collected so far: the option flags, the stop delay, how many
      -g values it has counted, the scene or model path, and the settings it pushed. */
  datatype Translation = Translation(
    options: set<Flag>,
    stopDelay: int,
    appArgCount: nat,
    sceneOrModel: string,
    settings: seq<ParamCommand>)

  /** Before the first argument: the full GUI, no delay, nothing counted, nothing pushed. */
  const Initial := Translation({GuiAll}, 0, 0, "", [])

  /** An argument `-X...` whose second character is `letter`. */
  predicate IsFlag(arg: string, letter: char)
  {
    |arg| >= 2 && arg[0] == '-' && arg[1] == letter
  }

  /** An argument that does not start with `-` (an empty argument counts as one). */
  predicate IsPositional(arg: string)
  {
    !(|arg| > 0 && arg[0] == '-')
  }

  /** The digit loop after `-s` as written: from position `p` on, multiply by ten, then add
      the digit, or give 0 and stop at the first non-digit. */
  function DelayLoop(arg: string, p: nat, delay: int): int
    decreases |arg| - p
  {
    if |arg| > p then
      var scaled := delay * 10;
      if IsDigit(arg[p]) then DelayLoop(arg, p + 1, scaled + DigitValue(arg[p])) else 0
    else delay
  }

  /** The stop delay an `-s` argument sets; the delay is reset to 0 before the loop runs. */
  function StopDelayOf(arg: string): int
  {
    DelayLoop(arg, 2, 0)
  }

  lemma {:induction false} DelayLoopValue(arg: string, q: nat, p: nat)
    requires q <= p <= |arg| && AllDigits(arg[q..p])
    ensures DelayLoop(arg, p, DecimalValue(arg[q..p]))
            == (if AllDigits(arg[q..]) then DecimalValue(arg[q..]) else 0)
    decreases |arg| - p
  {
    if p < |arg| {
      if IsDigit(arg[p]) {
        var longer := arg[q..p + 1];
        assert longer[..p - q] == arg[q..p];
        assert longer[p - q] == arg[p];
        assert AllDigits(longer) by {
          forall i | 0 <= i < |longer|
            ensures IsDigit(longer[i])
          {
            if i < p - q {
              assert longer[i] == arg[q..p][i];
            }
          }
        }
        assert DecimalValue(longer) == DecimalValue(arg[q..p]) * 10 + DigitValue(arg[p]);
        DelayLoopValue(arg, q, p + 1);
      } else {
        assert arg[q..][p - q] == arg[p];
      }
    } else {
      assert arg[q..p] == arg[q..];
    }
  }

  /** `-s` followed only by decimal digits sets the delay to their value; a bare `-s`, or
      any non-digit after `-s`, sets it to 0. */
  lemma StopDelayParse(arg: string)
    requires |arg| >= 2
    ensures StopDelayOf(arg) == (if AllDigits(arg[2..]) then DecimalValue(arg[2..]) else 0)
    ensures StopDelayOf(arg) >= 0
  {
    assert arg[2..2] == [];
    DelayLoopValue(arg, 2, 2);
  }

  /** Writing a delay in decimal after `-s` reads back as that delay. */
  lemma StopDelayRoundTrip(n: nat)
    ensures StopDelayOf("-s" + DecimalString(n)) == n
  {
    var arg := "-s" + DecimalString(n);
    assert arg[2..] == DecimalString(n);
    StopDelayParse(arg);
    DecimalRoundTrip(n);
  }

  /** A `-G` argument is split at the first `=` found from index 3 on; it is accepted only
      when that `=` exists and is not the last character. The key is characters [2, pos),
      never empty, and the value is everything after the `=`, never empty. */
  function SplitLegacyParam(arg: string): (r: Option<KeyValue>)
    ensures r.Some? ==> |arg| > 3 && arg == arg[..2] + r.value.key + "=" + r.value.value
    ensures r.Some? ==> |r.value.key| >= 1 && '=' !in r.value.key[1..] && r.value.value != ""
    ensures r.None? <==> (forall j :: 3 <= j < |arg| ==> arg[j] != '=')
                         || (|arg| > 3 && arg[|arg| - 1] == '=' && '=' !in arg[3..|arg| - 1])
  {
    match Find(arg, '=', 3)
    case None => None
    case Some(pos) =>
      if pos == |arg| - 1 then
        assert forall j :: 3 <= j < |arg| - 1 ==> arg[3..|arg| - 1][j - 3] == arg[j];
        None
      else
        var kv := KeyValue(arg[2..pos], arg[pos + 1..]);
        assert arg == arg[..2] + kv.key + "=" + kv.value;
        assert kv.key[1..] == arg[3..pos];
        assert '=' in arg[3..|arg| - 1] by {
          assert arg[3..|arg| - 1][pos - 3] == '=';
        }
        Some(kv)
  }

  /** `-G` followed by a non-empty key with no `=` after its first character, `=`, and a
      non-empty value splits back into that key and value. */
  lemma SplitLegacyRoundTrip(key: string, value: string)
    requires |key| >= 1 && '=' !in key[1..] && value != ""
    ensures SplitLegacyParam("-G" + key + "=" + value) == Some(KeyValue(key, value))
  {
    var arg := "-G" + key + "=" + value;
    var pos := 2 + |key|;
    assert arg[pos] == '=';
    assert forall j :: 3 <= j < pos ==> arg[j] == key[1..][j - 3];
    assert Find(arg, '=', 3) == Some(pos);
    assert arg[2..pos] == key;
    assert arg[pos + 1..] == value;
  }

  /** The option flags after one argument: `-h` swaps the full GUI for headless, `-s`
      adds auto-start and `-q` auto-quit. */
  function OptionsAfter(options: set<Flag>, arg: string): (r: set<Flag>)
    ensures GuiHeadless in r <==> GuiHeadless in options || IsFlag(arg, 'h')
    ensures GuiAll in r <==> GuiAll in options && !IsFlag(arg, 'h')
    ensures AutoStartFlag in r <==> AutoStartFlag in options || IsFlag(arg, 's')
    ensures AutoQuitFlag in r <==> AutoQuitFlag in options || IsFlag(arg, 'q')
  {
    if IsFlag(arg, 'h') then (options + {GuiAll, GuiHeadless}) - {GuiAll}
    else if IsFlag(arg, 's') then options + {AutoStartFlag}
    else if IsFlag(arg, 'q') then options + {AutoQuitFlag}
    else options
  }

  /** The add-on script setting one argument pushes: `-a` and `-b` need a script name. */
  function AddonOf(arg: string): seq<ParamCommand>
  {
    if IsFlag(arg, 'a') && |arg| > 2 then [SetString(AddonScript1, arg[2..])]
    else if IsFlag(arg, 'b') && |arg| > 2 then [SetString(AddonScript2, arg[2..])]
    else []
  }

  /** The payload of a `-g` argument, when it has one. */
  function AppArgOf(arg: string): seq<string>
  {
    if IsFlag(arg, 'g') && |arg| > 2 then [arg[2..]] else []
  }

  /** The named parameter a `-G` argument sets, when it is long enough and splits. */
  function NamedOf(arg: string): seq<ParamCommand>
  {
    if IsFlag(arg, 'G') && |arg| > 3 then
      match SplitLegacyParam(arg)
      case None => []
      case Some(kv) => [SetNamed(kv.key, kv.value)]
    else []
  }

  /** The setting one argument pushes, given how many -g values were counted before it:
      a `-g` value goes to the next slot while fewer than nine were counted. */
  function Pushed(count: nat, arg: string): (cmds: seq<ParamCommand>)
    ensures |cmds| <= 1
  {
    if IsFlag(arg, 'g') && |arg| > 2 then
      if count < MaxAppArgs then [SetString(AppArg(count + 1), arg[2..])] else []
    else AddonOf(arg) + NamedOf(arg)
  }

  /** One argument of the loop in `run`: the branches on its second character each touch
      their own part of the translation, and a path argument is taken only while no path
      is set. */
  function ArgStep(t: Translation, arg: string): (r: Translation)
    ensures IsPositional(arg) ==> r.sceneOrModel == (if t.sceneOrModel == "" then arg else t.sceneOrModel)
    ensures !IsPositional(arg) ==> r.sceneOrModel == t.sceneOrModel
    ensures |t.settings| <= |r.settings| <= |t.settings| + 1 && r.settings[..|t.settings|] == t.settings
  {
    Translation(
      OptionsAfter(t.options, arg),
      if IsFlag(arg, 's') then StopDelayOf(arg) else t.stopDelay,
      t.appArgCount + |AppArgOf(arg)|,
      if IsPositional(arg) && t.sceneOrModel == "" then arg else t.sceneOrModel,
      t.settings + Pushed(t.appArgCount, arg))
  }

  /** The loop over all arguments, from `t` on. */
  function TranslateFrom(t: Translation, args: seq<string>): Translation
    decreases |args|
  {
    if |args| == 0 then t else TranslateFrom(ArgStep(t, args[0]), args[1..])
  }

  /** `run`'s translation of a whole argument list (the program name excluded). */
  function Translate(args: seq<string>): Translation
  {
    TranslateFrom(Initial, args)
  }

  /** A flag argument with second character `letter` occurs somewhere in `args`. */
  predicate AnyFlag(args: seq<string>, letter: char)
  {
    exists i :: 0 <= i < |args| && IsFlag(args[i], letter)
  }

  lemma AnyFlagCons(args: seq<string>, letter: char)
    requires |args| > 0
    ensures AnyFlag(args, letter) <==> IsFlag(args[0], letter) || AnyFlag(args[1..], letter)
  {
    if AnyFlag(args[1..], letter) {
      var i :| 0 <= i < |args[1..]| && IsFlag(args[1..][i], letter);
      assert IsFlag(args[i + 1], letter);
    }
    if AnyFlag(args, letter) && !IsFlag(args[0], letter) {
      var i :| 0 <= i < |args| && IsFlag(args[i], letter);
      assert args[1..][i - 1] == args[i];
    }
  }

  /** After the whole list, each option flag is set exactly when its argument occurred,
      and the full-GUI flag survives only when no `-h` occurred. */
  lemma {:induction false} OptionsFromFlags(t: Translation, args: seq<string>)
    ensures GuiHeadless in TranslateFrom(t, args).options <==> GuiHeadless in t.options || AnyFlag(args, 'h')
    ensures GuiAll in TranslateFrom(t, args).options <==> GuiAll in t.options && !AnyFlag(args, 'h')
    ensures AutoStartFlag in TranslateFrom(t, args).options <==> AutoStartFlag in t.options || AnyFlag(args, 's')
    ensures AutoQuitFlag in TranslateFrom(t, args).options <==> AutoQuitFlag in t.options || AnyFlag(args, 'q')
    decreases |args|
  {
    if |args| > 0 {
      AnyFlagCons(args, 'h');
      AnyFlagCons(args, 's');
      AnyFlagCons(args, 'q');
      OptionsFromFlags(ArgStep(t, args[0]), args[1..]);
    }
  }

  /** From the start, `-h` gives exactly the headless flag set, and the initial full GUI
      otherwise. */
  lemma TranslateOptions(args: seq<string>)
    ensures GuiHeadless in Translate(args).options <==> AnyFlag(args, 'h')
    ensures GuiAll in Translate(args).options <==> !AnyFlag(args, 'h')
    ensures AutoStartFlag in Translate(args).options <==> AnyFlag(args, 's')
    ensures AutoQuitFlag in Translate(args).options <==> AnyFlag(args, 'q')
  {
    OptionsFromFlags(Initial, args);
  }

  /** The last `-s` argument of a list, if any. */
  function LastStopArg(args: seq<string>): (r: Option<string>)
    ensures r.None? <==> !AnyFlag(args, 's')
    ensures r.Some? ==> exists i :: 0 <= i < |args| && args[i] == r.value && IsFlag(args[i], 's')
                          && forall j :: i < j < |args| ==> !IsFlag(args[j], 's')
    decreases |args|
  {
    if |args| == 0 then None
    else
      var rest := LastStopArg(args[1..]);
      AnyFlagCons(args, 's');
      if rest.Some? then
        var i :| 0 <= i < |args[1..]| && args[1..][i] == rest.value && IsFlag(args[1..][i], 's')
                 && forall j :: i < j < |args[1..]| ==> !IsFlag(args[1..][j], 's');
        assert args[i + 1] == rest.value;
        assert forall j :: i + 1 < j < |args| ==> args[j] == args[1..][j - 1];
        rest
      else if IsFlag(args[0], 's') then
        assert forall j :: 0 < j < |args| ==> args[j] == args[1..][j - 1];
        Some(args[0])
      else None
  }

  /** Every `-s` overwrites the delay: the last one decides it, and without any the delay
      keeps its value. */
  lemma {:induction false} LastStopDelayWins(t: Translation, args: seq<string>)
    ensures TranslateFrom(t, args).stopDelay
            == (match LastStopArg(args) case None => t.stopDelay case Some(a) => StopDelayOf(a))
    decreases |args|
  {
    if |args| > 0 {
      LastStopDelayWins(ArgStep(t, args[0]), args[1..]);
    }
  }

  /** The first argument that names a path: not a flag and not empty. */
  function FirstPositional(args: seq<string>): (r: string)
    ensures r != "" <==> exists i :: 0 <= i < |args| && IsPositional(args[i]) && args[i] != ""
    ensures r != "" ==> exists i :: 0 <= i < |args| && args[i] == r && IsPositional(args[i])
                          && forall j :: 0 <= j < i ==> !IsPositional(args[j]) || args[j] == ""
    decreases |args|
  {
    if |args| == 0 then ""
    else if IsPositional(args[0]) && args[0] != "" then args[0]
    else
      var r := FirstPositional(args[1..]);
      assert forall i :: 0 < i < |args| ==> args[i] == args[1..][i - 1];
      if r != "" then
        var i :| 0 <= i < |args[1..]| && args[1..][i] == r && IsPositional(args[1..][i])
                 && forall j :: 0 <= j < i ==> !IsPositional(args[1..][j]) || args[1..][j] == "";
        assert args[i + 1] == r;
        r
      else r
  }

  /** The first path argument names the scene or model; later ones are ignored. */
  lemma {:induction false} FirstPositionalWins(t: Translation, args: seq<string>)
    ensures TranslateFrom(t, args).sceneOrModel
            == (if t.sceneOrModel != "" then t.sceneOrModel else FirstPositional(args))
    decreases |args|
  {
    if |args| > 0 {
      FirstPositionalWins(ArgStep(t, args[0]), args[1..]);
    }
  }

  /** The payloads of the `-g` arguments, in order. */
  function AppArgPayloads(args: seq<string>): seq<string>
    decreases |args|
  {
    if |args| == 0 then [] else AppArgOf(args[0]) + AppArgPayloads(args[1..])
  }

  /** Payloads numbered from slot `c + 1` on; slots past the ninth are dropped. */
  function Numbered(payloads: seq<string>, c: nat): (r: seq<ParamCommand>)
    decreases |payloads|
  {
    if |payloads| == 0 then []
    else (if c < MaxAppArgs then [SetString(AppArg(c + 1), payloads[0])] else [])
         + Numbered(payloads[1..], c + 1)
  }

  /** Numbering from slot `c + 1` keeps the payloads in order and stops after slot 9. */
  lemma {:induction false} NumberedShape(payloads: seq<string>, c: nat)
    requires c <= MaxAppArgs
    ensures |Numbered(payloads, c)| == (if |payloads| < MaxAppArgs - c then |payloads| else MaxAppArgs - c)
    ensures forall k :: 0 <= k < |Numbered(payloads, c)| ==>
              Numbered(payloads, c)[k] == SetString(AppArg(c + k + 1), payloads[k])
    decreases |payloads|
  {
    if |payloads| > 0 {
      if c < MaxAppArgs {
        NumberedShape(payloads[1..], c + 1);
        var r := Numbered(payloads, c);
        assert r == [SetString(AppArg(c + 1), payloads[0])] + Numbered(payloads[1..], c + 1);
        forall k | 0 <= k < |r|
          ensures r[k] == SetString(AppArg(c + k + 1), payloads[k])
        {
          if k > 0 {
            assert r[k] == Numbered(payloads[1..], c + 1)[k - 1];
          }
        }
      } else {
        NumberedGone(payloads, c);
      }
    }
  }

  lemma {:induction false} NumberedGone(payloads: seq<string>, c: nat)
    requires c >= MaxAppArgs
    ensures Numbered(payloads, c) == []
    decreases |payloads|
  {
    if |payloads| > 0 {
      NumberedGone(payloads[1..], c + 1);
    }
  }

  lemma {:induction false} NumberedAppend(a: seq<string>, b: seq<string>, c: nat)
    ensures Numbered(a + b, c) == Numbered(a, c) + Numbered(b, c + |a|)
    decreases |a|
  {
    if |a| == 0 {
      assert a + b == b;
    } else {
      var ab := a + b;
      assert ab[0] == a[0];
      assert ab[1..] == a[1..] + b;
      var head := if c < MaxAppArgs then [SetString(AppArg(c + 1), a[0])] else [];
      assert Numbered(ab, c) == head + Numbered(a[1..] + b, c + 1);
      NumberedAppend(a[1..], b, c + 1);
      assert c + 1 + |a[1..]| == c + |a|;
      assert Numbered(a, c) == head + Numbered(a[1..], c + 1);
      Associates(head, Numbered(a[1..], c + 1), Numbered(b, c + |a|));
    }
  }

  /** A single setting's views are its own parts. */
  lemma ViewOfOne(c: ParamCommand)
    ensures View([c], Addon) == Only(c, Addon) && View([c], Positional) == Only(c, Positional)
    ensures View([c], Named) == Only(c, Named)
  {
    assert [c][1..] == [];
  }

  /** What one argument pushes, sorted by kind. */
  predicate SortsInto(cmds: seq<ParamCommand>, count: nat, arg: string)
  {
    && View(cmds, Addon) == AddonOf(arg)
    && View(cmds, Positional) == Numbered(AppArgOf(arg), count)
    && View(cmds, Named) == NamedOf(arg)
    && forall i :: 0 <= i < |cmds| ==> KindOf(cmds[i]) != OtherString
  }

  lemma PushedAppArg(count: nat, arg: string)
    requires IsFlag(arg, 'g') && |arg| > 2
    ensures SortsInto(Pushed(count, arg), count, arg)
  {
    var payload := [arg[2..]];
    assert AppArgOf(arg) == payload && payload[1..] == [];
    assert AddonOf(arg) == [] && NamedOf(arg) == [];
    if count < MaxAppArgs {
      ViewOfOne(SetString(AppArg(count + 1), arg[2..]));
    }
  }

  lemma PushedAddon(count: nat, arg: string)
    requires IsFlag(arg, 'a') || IsFlag(arg, 'b')
    ensures SortsInto(Pushed(count, arg), count, arg)
  {
    var cmds := Pushed(count, arg);
    assert AppArgOf(arg) == [] && NamedOf(arg) == [] && cmds == AddonOf(arg);
    if |arg| > 2 {
      ViewOfOne(cmds[0]);
    }
  }

  lemma PushedNamed(count: nat, arg: string)
    requires !(IsFlag(arg, 'g') && |arg| > 2) && !IsFlag(arg, 'a') && !IsFlag(arg, 'b')
    ensures SortsInto(Pushed(count, arg), count, arg)
  {
    var cmds := Pushed(count, arg);
    assert AppArgOf(arg) == [] && AddonOf(arg) == [] && cmds == NamedOf(arg);
    if cmds != [] {
      ViewOfOne(cmds[0]);
    }
  }

  /** Sorted by kind, the setting one argument pushes is its add-on script, its numbered
      `-g` payload, or its named parameter; every pushed setting has one of these kinds. */
  lemma PushedKinds(count: nat, arg: string)
    ensures View(Pushed(count, arg), Addon) == AddonOf(arg)
    ensures View(Pushed(count, arg), Positional) == Numbered(AppArgOf(arg), count)
    ensures View(Pushed(count, arg), Named) == NamedOf(arg)
    ensures forall i :: 0 <= i < |Pushed(count, arg)| ==> KindOf(Pushed(count, arg)[i]) != OtherString
  {
    if IsFlag(arg, 'g') && |arg| > 2 {
      PushedAppArg(count, arg);
    } else if IsFlag(arg, 'a') || IsFlag(arg, 'b') {
      PushedAddon(count, arg);
    } else {
      PushedNamed(count, arg);
    }
  }

  /** One argument extends the settings of each kind by its own contribution. */
  lemma ArgStepViews(t: Translation, arg: string)
    ensures View(ArgStep(t, arg).settings, Addon) == View(t.settings, Addon) + AddonOf(arg)
    ensures View(ArgStep(t, arg).settings, Positional)
            == View(t.settings, Positional) + Numbered(AppArgOf(arg), t.appArgCount)
    ensures View(ArgStep(t, arg).settings, Named) == View(t.settings, Named) + NamedOf(arg)
  {
    var pushed := Pushed(t.appArgCount, arg);
    PushedKinds(t.appArgCount, arg);
    ViewAppend(t.settings, pushed, Addon);
    ViewAppend(t.settings, pushed, Positional);
    ViewAppend(t.settings, pushed, Named);
  }

  /** Extending a view twice extends it by both parts at once. */
  lemma ExtendTwice(v0: seq<ParamCommand>, v1: seq<ParamCommand>, v2: seq<ParamCommand>,
                    first: seq<ParamCommand>, later: seq<ParamCommand>, both: seq<ParamCommand>)
    requires v1 == v0 + first && v2 == v1 + later && both == first + later
    ensures v2 == v0 + both
  {
  }

  /** The `-g` counter counts every `-g` argument with a payload. */
  lemma {:induction false} AppArgsCounted(t: Translation, args: seq<string>)
    ensures TranslateFrom(t, args).appArgCount == t.appArgCount + |AppArgPayloads(args)|
    decreases |args|
  {
    if |args| > 0 {
      AppArgsCounted(ArgStep(t, args[0]), args[1..]);
    }
  }

  /** Only the `-g` values that arrive with the counter below nine are pushed, numbered by
      the counter. */
  lemma {:induction false} AppArgsNumbered(t: Translation, args: seq<string>)
    ensures View(TranslateFrom(t, args).settings, Positional)
            == View(t.settings, Positional) + Numbered(AppArgPayloads(args), t.appArgCount)
    decreases |args|
  {
    if |args| > 0 {
      var t1 := ArgStep(t, args[0]);
      var v0, v1, v2 := View(t.settings, Positional), View(t1.settings, Positional),
                        View(TranslateFrom(t, args).settings, Positional);
      var first, later := AppArgOf(args[0]), AppArgPayloads(args[1..]);
      assert v2 == v1 + Numbered(later, t1.appArgCount) by {
        AppArgsNumbered(t1, args[1..]);
      }
      assert v1 == v0 + Numbered(first, t.appArgCount) by {
        ArgStepViews(t, args[0]);
      }
      NumberedTwice(v0, v1, v2, first, later, t.appArgCount, t1.appArgCount);
    }
  }

  /** Numbering two groups of payloads one after the other numbers them together. */
  lemma NumberedTwice(v0: seq<ParamCommand>, v1: seq<ParamCommand>, v2: seq<ParamCommand>,
                      first: seq<string>, later: seq<string>, c: nat, c1: nat)
    requires v1 == v0 + Numbered(first, c) && v2 == v1 + Numbered(later, c1)
    requires c1 == c + |first|
    ensures v2 == v0 + Numbered(first + later, c)
  {
    NumberedAppend(first, later, c);
    Associates(v0, Numbered(first, c), Numbered(later, c1));
  }

  lemma SlotsFromOne(v: seq<ParamCommand>, payloads: seq<string>)
    requires v == Numbered(payloads, 0)
    ensures |v| <= |payloads| && |v| <= MaxAppArgs
    ensures |v| == (if |payloads| < MaxAppArgs then |payloads| else MaxAppArgs)
    ensures forall k :: 0 <= k < |v| ==> v[k] == SetString(AppArg(k + 1), payloads[k])
  {
    NumberedShape(payloads, 0);
  }

  /** From the start, the first nine `-g` values go to slots 1 to 9 in order, and the rest
      are counted but dropped. */
  lemma TranslateAppArgs(args: seq<string>)
    ensures Translate(args).appArgCount == |AppArgPayloads(args)|
    ensures |View(Translate(args).settings, Positional)| <= |AppArgPayloads(args)|
    ensures |View(Translate(args).settings, Positional)|
            == (if |AppArgPayloads(args)| < MaxAppArgs then |AppArgPayloads(args)| else MaxAppArgs)
    ensures forall k :: 0 <= k < |View(Translate(args).settings, Positional)| ==>
              View(Translate(args).settings, Positional)[k] == SetString(AppArg(k + 1), AppArgPayloads(args)[k])
  {
    AppArgsCounted(Initial, args);
    AppArgsNumbered(Initial, args);
    assert View(Initial.settings, Positional) == [];
    SlotsFromOne(View(Translate(args).settings, Positional), AppArgPayloads(args));
  }

  /** The named parameters the `-G` arguments of a list carry, in order. */
  function NamedPayloads(args: seq<string>): seq<ParamCommand>
    decreases |args|
  {
    if |args| == 0 then [] else NamedOf(args[0]) + NamedPayloads(args[1..])
  }

  /** Every accepted `-G` argument is pushed, in order, and nothing else is pushed as a
      named parameter. */
  lemma {:induction false} NamedParamsPushed(t: Translation, args: seq<string>)
    ensures View(TranslateFrom(t, args).settings, Named) == View(t.settings, Named) + NamedPayloads(args)
    decreases |args|
  {
    if |args| > 0 {
      var t1 := ArgStep(t, args[0]);
      var v0, v1, v2 := View(t.settings, Named), View(t1.settings, Named),
                        View(TranslateFrom(t, args).settings, Named);
      assert v2 == v1 + NamedPayloads(args[1..]) by {
        NamedParamsPushed(t1, args[1..]);
      }
      assert v1 == v0 + NamedOf(args[0]) by {
        ArgStepViews(t, args[0]);
      }
      ExtendTwice(v0, v1, v2, NamedOf(args[0]), NamedPayloads(args[1..]), NamedPayloads(args));
    }
  }

  /** The add-on scripts of the `-a` and `-b` arguments, in order. */
  function AddonPayloads(args: seq<string>): seq<ParamCommand>
    decreases |args|
  {
    if |args| == 0 then [] else AddonOf(args[0]) + AddonPayloads(args[1..])
  }

  /** Every `-a` and `-b` with a script is pushed, in order. */
  lemma {:induction false} AddonsPushed(t: Translation, args: seq<string>)
    ensures View(TranslateFrom(t, args).settings, Addon) == View(t.settings, Addon) + AddonPayloads(args)
    decreases |args|
  {
    if |args| > 0 {
      var t1 := ArgStep(t, args[0]);
      var v0, v1, v2 := View(t.settings, Addon), View(t1.settings, Addon),
                        View(TranslateFrom(t, args).settings, Addon);
      assert v2 == v1 + AddonPayloads(args[1..]) by {
        AddonsPushed(t1, args[1..]);
      }
      assert v1 == v0 + AddonOf(args[0]) by {
        ArgStepViews(t, args[0]);
      }
      ExtendTwice(v0, v1, v2, AddonOf(args[0]), AddonPayloads(args[1..]), AddonPayloads(args));
    }
  }

  /** Every pushed setting is an add-on, a numbered argument or a named parameter. */
  lemma {:induction false} OnlyKnownSettings(t: Translation, args: seq<string>)
    requires forall i :: 0 <= i < |t.settings| ==> KindOf(t.settings[i]) != OtherString
    ensures forall i :: 0 <= i < |TranslateFrom(t, args).settings| ==>
              KindOf(TranslateFrom(t, args).settings[i]) != OtherString
    decreases |args|
  {
    if |args| > 0 {
      var t1 := ArgStep(t, args[0]);
      var pushed := Pushed(t.appArgCount, args[0]);
      PushedKinds(t.appArgCount, args[0]);
      assert forall i :: |t.settings| <= i < |t1.settings| ==> t1.settings[i] == pushed[i - |t.settings|];
      OnlyKnownSettings(t1, args[1..]);
    }
  }

  /** A `-s` argument sets the auto-start flag and the stop delay and touches nothing else. */
  lemma StopArgStep(t: Translation, arg: string)
    requires IsFlag(arg, 's')
    ensures ArgStep(t, arg) == t.(options := t.options + {AutoStartFlag}, stopDelay := StopDelayOf(arg))
  {
    assert Pushed(t.appArgCount, arg) == [];
    assert t.settings + [] == t.settings;
  }

  /** A `-q` argument sets the auto-quit flag and touches nothing else. */
  lemma QuitArgStep(t: Translation, arg: string)
    requires IsFlag(arg, 'q')
    ensures ArgStep(t, arg) == t.(options := t.options + {AutoQuitFlag})
  {
    assert Pushed(t.appArgCount, arg) == [];
    assert t.settings + [] == t.settings;
  }

  /** A path argument is taken as the scene or model while none is set, and touches
      nothing else. */
  lemma PathArgStep(t: Translation, arg: string)
    requires IsPositional(arg)
    ensures ArgStep(t, arg) == t.(sceneOrModel := if t.sceneOrModel == "" then arg else t.sceneOrModel)
  {
    assert Pushed(t.appArgCount, arg) == [];
    assert t.settings + [] == t.settings;
  }

  /** A typical legacy command line: auto-start with a 500 ms stop delay, quit when done,
      and load a scene. */
  lemma AutoStartQuitScene()
    ensures Translate(["-s500", "-q", "scene.ttt"])
            == Translation({GuiAll, AutoStartFlag, AutoQuitFlag}, 500, 0, "scene.ttt", [])
  {
    var arg := "-s500";
    assert arg[2..] == DecimalString(500) by {
      assert DecimalString(500) == "500";
    }
    StopDelayRoundTrip(500);
    var t1 := ArgStep(Initial, "-s500");
    StopArgStep(Initial, "-s500");
    assert t1 == Translation({GuiAll, AutoStartFlag}, 500, 0, "", []);
    var t2 := ArgStep(t1, "-q");
    QuitArgStep(t1, "-q");
    assert t2 == Translation({GuiAll, AutoStartFlag, AutoQuitFlag}, 500, 0, "", []);
    var t3 := ArgStep(t2, "scene.ttt");
    PathArgStep(t2, "scene.ttt");
    assert t3 == Translation({GuiAll, AutoStartFlag, AutoQuitFlag}, 500, 0, "scene.ttt", []);
    var args := ["-s500", "-q", "scene.ttt"];
    assert args[1..] == ["-q", "scene.ttt"] && args[1..][1..] == ["scene.ttt"];
    assert TranslateFrom(t3, []) == t3;
  }

  /** Unlike the current launcher, the legacy split starts searching after the key's first
      character, so a key may start with `=`. */
  lemma KeyMayStartWithEquals()
    ensures SplitLegacyParam("-G=k=v") == Some(KeyValue("=k", "v"))
  {
    assert "-G" + "=k" + "=" + "v" == "-G=k=v";
    SplitLegacyRoundTrip("=k", "v");
  }
}
