# CoppeliaSim client launcher — a Dafny model

The CoppeliaSim client is the small executable that starts the simulator. It reads the
command line, loads the engine library (`coppeliaSim` or `coppeliaSimHeadless`), and pushes
string settings to the engine. It then runs the GUI and a simulation thread. That thread
loads the requested scene or model once, auto-starts the simulation, stops it after a
delay, and requests exit once the first run has ended. The repository has two launchers:
the current one (`sourceCode/main.cpp`, boost-based parsing, a thread loop in the client) and
the legacy one (`main.cpp`, a hand-written argument loop handing everything to
`simRunSimulatorEx`).

The model is functional. The engine calls the launchers make become values:
- an `EngineCommand` the simulation thread issues, from `simInitialize` before its loop to
  `simDeinitialize` after it;
- a `ParamCommand` the launcher pushes;
- the launch outcome, for `simRunGui` and `simRunSimulatorEx`.

Every answer from the engine or the operating system becomes a parameter:
- the simulation state and time each iteration observes;
- whether the library was found and its entry points resolved;
- whether the launch call succeeded;
- whether `char` is signed on the platform.

Log calls (`simAddLog`) and console output are not modelled.

Modules:
- `Maybe` — the option type.
- `Engine` — the commands, parameters, states and platforms shared by both launchers, and
  the per-kind view of pushed settings.
- `Text` — `endsWith`, the character search `find`, and decimal digits.
- `SimThread` — one iteration of the current launcher's simulation-thread loop (`Step`),
  runs of many iterations (`Run`) over a trace of observations, and the whole thread
  function around them (`ThreadCommands`).
- `Client` — the current launcher's `main`, `loadSimLib`, option selection and parameter
  pushing.
- `LegacyArgs` — the legacy argument loop in `run`.
- `LegacyLauncher` — the legacy `loadSimLib` (directory trimming, return codes) and `main`.

Behaviours of the code worth stating:
- A command-line parse error in the current launcher ends the program with exit code 2.
- `-s` is declared with `po::value<int>()`, so its value is required even though its help
  text (sourceCode/main.cpp:130) reads as if it were optional; a bare `-s` is a parse error.
- The current launcher's exit code is 0 once the engine ran and 255 when the library could
  not be bound.
- The legacy launcher always exits with 0, even when the library could not be bound.

## Model

| member | source | states |
|---|---|---|
| Text.EndsWith | sourceCode/main.cpp:67-73 | true exactly when the ending is no longer than the value and equals its last characters; false whenever the ending is longer |
| Text.Find | main.cpp:412 | the position of the first occurrence of the character at or after the start index, or none exactly when no such occurrence exists |
| SimThread.ScenesAndModelsDisjoint | sourceCode/main.cpp:84-93 | no path is both a scene and a model path, so one iteration loads at most one file |
| SimThread.LoadCommands | sourceCode/main.cpp:82-95 | a `.ttt`/`.simscene.xml` path issues one scene load, a `.ttm`/`.simmodel.xml` path one model load, any other path nothing |
| SimThread.ControlCommands | sourceCode/main.cpp:96-113 | start, exit and stop are each issued once exactly when their condition holds, and the loop ticks once |
| SimThread.Step | sourceCode/main.cpp:82-113 | after any iteration the pending path is empty and auto-start is consumed |
| SimThread.StepLoadsPending | sourceCode/main.cpp:82-95 | the pending path is loaded as a scene or model by its suffix and cleared whether or not it loaded |
| SimThread.StepConsumesAutoStart | sourceCode/main.cpp:96-101 | start is issued exactly when auto-start was pending, which then becomes false and marks the thread as auto-started |
| SimThread.StepCountsRun | sourceCode/main.cpp:102-104 | the run counter grows by exactly one when the state is advancing-first-after-stop and is unchanged otherwise |
| SimThread.StepRequestsExit | sourceCode/main.cpp:105-106 | an exit request is posted exactly when the state is stopped, the counter is 1 and auto-quit is set |
| SimThread.StepStopsOnDelay | sourceCode/main.cpp:107-111 | stop is issued exactly when a positive delay is armed, the thread auto-started, and the elapsed time exceeds the delay; the delay is then reset to 0 |
| SimThread.StepTicksOnce | sourceCode/main.cpp:113 | every iteration hands control to the engine exactly once |
| SimThread.ControlInOrder | sourceCode/main.cpp:96-113 | the control commands come in the order of the loop body — start, then exit, then stop — and always end with the one tick |
| SimThread.StepIssueOrder | sourceCode/main.cpp:82-113 | an iteration issues any load first, then start, exit request and stop, each at most once and in that order, and always ends with the tick |
| SimThread.NothingPendingLoadsNothing | sourceCode/main.cpp:82-95 | with no pending path, a run loads nothing |
| SimThread.LoadedAtMostOnce | sourceCode/main.cpp:82-95 | over a whole run the pending path is loaded at most once and never retried |
| SimThread.StartedAtMostOnce | sourceCode/main.cpp:96-101 | over a whole run start is issued once exactly when auto-start was pending, and the auto-started mark stays set |
| SimThread.RunCounterCountsRuns | sourceCode/main.cpp:102-104 | the run counter equals its start value plus the number of advancing-first-after-stop observations |
| SimThread.NeverStopsWhenDisarmed | sourceCode/main.cpp:107-111 | without a positive delay or an auto-start, a run never issues stop |
| SimThread.StopFiresAtMostOnce | sourceCode/main.cpp:107-111 | a run issues stop at most once, exactly when the delay was armed and some observation passed it, and afterwards the delay is 0 |
| SimThread.ExitAfterFirstRun | sourceCode/main.cpp:102-106 | an exit request is posted exactly when auto-quit is set and some observation is stopped while the counter is 1 |
| SimThread.ThreadCommands | sourceCode/main.cpp:74-116 | the thread function starts with `simInitialize` and ends with `simDeinitialize` |
| SimThread.ThreadBracketsLoop | sourceCode/main.cpp:74-116 | the engine is initialized exactly once and deinitialized exactly once, and every other command occurs in the thread exactly as often as in its loop |
| SimThread.RunKeepsEngineUp | sourceCode/main.cpp:79-114 | no iteration of the loop initializes or deinitializes the engine |
| SimThread.NoExitBeforeFirstRun | sourceCode/main.cpp:105-106 | from the thread's initial state, no exit request is posted before a run has been counted |
| SimThread.NoExitAfterSecondRun | sourceCode/main.cpp:105-106 | once two runs were counted, no exit request is ever posted |
| Client.SelectGuiOptions | sourceCode/main.cpp:161-175 | headless wins over everything, true-headless gives no GUI, otherwise an explicit `-O` value or the full GUI |
| Client.LibraryFile | sourceCode/main.cpp:45-51 | the file name is the bare name on Windows, exactly `@executable_path/lib` + name + `.dylib` on macOS and `lib` + name + `.so` on Linux (prefix, suffix and length fixed) |
| Client.HeadlessLibraryIsDistinct | sourceCode/main.cpp:188-190 | true-headless mode asks for a different library file than GUI mode on every platform |
| Client.LoadSimLib | sourceCode/main.cpp:42-65 | the library is bound exactly when it was found and resolved, and unloaded again exactly when it was found but not resolved |
| Client.StringSettings | sourceCode/main.cpp:193-204 | the three verbosities are always pushed, with their defaults; the startup script and add-ons exactly when given |
| Client.AppArgLoop | sourceCode/main.cpp:205-213 | the loop from index i pushes the values up to the ninth in order, value k going to slot k + 1 |
| Client.AppArgsFirstNine | sourceCode/main.cpp:205-213 | only the first nine `-g` values are pushed, in order, to slots 1 to 9 |
| Client.SplitNamedParam | sourceCode/main.cpp:219-225 | a `-G` value splits at its first `=` into a key without `=` and a non-empty value; it is rejected exactly when it has no `=` or its first `=` is its last character |
| Client.SplitJoinRoundTrip | sourceCode/main.cpp:219-225 | a key without `=`, `=`, and a non-empty value split back into that key and value |
| Client.NamedParamSettings | sourceCode/main.cpp:214-227 | the `-G` values are processed in order, each pushing at most one setting, and every setting pushed is a named parameter |
| Client.NamedParamsInOrder | sourceCode/main.cpp:214-227 | the pushed named parameters are exactly the key and value of each accepted `-G` value, in order, against an independent front-to-back list of the accepted values |
| Client.NamedParamStored | sourceCode/main.cpp:219-225 | in a last-write-wins store, an accepted `-G` value stores its value under its key, and a rejected one pushes nothing |
| Client.NamedStoreKeys | sourceCode/main.cpp:214-227 | in a last-write-wins store, a key ends up set exactly when some accepted `-G` value has that key |
| Client.NamedStoreLastWins | sourceCode/main.cpp:214-227 | for every key, a last-write-wins store ends up holding the value of the last accepted `-G` value with that key; later values for other keys and rejected values leave it alone |
| Client.ThreadedRun | sourceCode/main.cpp:76-113 | from the state `main` starts the thread in (sourceCode/main.cpp:176-186), a run loads the first file once as a scene or model by its suffix, starts once exactly when `-s` was given, stops once exactly when the `-s` delay is positive and passed, and posts exit exactly when `-q` was given and the stopped state follows the first counted run |
| Client.SetupViews | sourceCode/main.cpp:193-227 | of the settings pushed before launch, the application-argument slots come only from the `-g` loop and the named parameters only from the accepted `-G` values; the string settings write neither |
| Client.ClientMain | sourceCode/main.cpp:146-240 | a parse error exits with 2; otherwise the library is bound and the engine launched exactly when it was found and resolved (synchronously in true-headless mode); only then are the settings pushed, namely the string settings, then the first nine `-g` values, then the accepted `-G` values in order; the exit code is 0 then and 255 otherwise |
| Client.LaunchedSetup | sourceCode/main.cpp:191-227 | once `main` has launched the engine, the slots it set hold exactly the first nine `-g` values in order, and the named parameters it set are exactly the accepted `-G` values in order |
| LegacyArgs.StopDelayParse | main.cpp:369-386 | `-s` followed only by digits sets the delay to their decimal value; a bare `-s` or any non-digit gives 0 |
| LegacyArgs.StopDelayRoundTrip | main.cpp:369-386 | a delay written in decimal after `-s` is read back exactly |
| LegacyArgs.SplitLegacyParam | main.cpp:410-419 | a `-G` argument is accepted exactly when an `=` occurs at index 3 or later and the first such is not last; the key (characters 2 up to the `=`) and the value are then non-empty |
| LegacyArgs.SplitLegacyRoundTrip | main.cpp:410-419 | `-G`, a key with no `=` after its first character, `=`, and a non-empty value split back into that key and value |
| LegacyArgs.ArgStep | main.cpp:359-426 | a path argument is taken only while no path is set, a flag leaves the path alone, and each argument pushes at most one setting |
| LegacyArgs.OptionsAfter | main.cpp:364-388 | `-h` swaps the full GUI for headless, `-s` sets auto-start, `-q` sets auto-quit, and every other argument leaves the flags alone |
| LegacyArgs.StopArgStep | main.cpp:369-386 | a `-s` argument sets auto-start and the delay it carries and changes nothing else |
| LegacyArgs.QuitArgStep | main.cpp:387-388 | a `-q` argument sets auto-quit and changes nothing else |
| LegacyArgs.PathArgStep | main.cpp:422-426 | a path argument is taken as the scene or model only while none is set, and changes nothing else |
| LegacyArgs.OptionsFromFlags | main.cpp:355-427 | after all arguments, each option flag is set exactly when its flag argument occurred, and the full GUI survives exactly when no `-h` occurred |
| LegacyArgs.TranslateOptions | main.cpp:355-427 | from the start, headless iff some `-h`, auto-start iff some `-s`, auto-quit iff some `-q` |
| LegacyArgs.LastStopArg | main.cpp:369-386 | the last `-s` argument of a list, with no `-s` after it, or none exactly when there is no `-s` |
| LegacyArgs.LastStopDelayWins | main.cpp:356-386 | the last `-s` decides the delay; with no `-s` the delay keeps its value |
| LegacyArgs.FirstPositional | main.cpp:422-426 | the first non-empty non-flag argument, or empty exactly when there is none |
| LegacyArgs.FirstPositionalWins | main.cpp:422-426 | the first path argument names the scene or model and later ones are ignored |
| LegacyArgs.NumberedShape | main.cpp:401-409 | numbering from a slot keeps the payloads in order and stops after slot 9 |
| LegacyArgs.NumberedGone | main.cpp:401-409 | once the counter reached nine no slot is written |
| LegacyArgs.PushedKinds | main.cpp:389-419 | what one argument pushes is exactly its add-on script, its numbered `-g` payload or its accepted named parameter, and nothing of any other kind |
| LegacyArgs.ArgStepViews | main.cpp:389-419 | one argument extends the pushed add-ons, numbered arguments and named parameters each by its own contribution only |
| LegacyArgs.NumberedAppend | main.cpp:401-409 | numbering two groups of payloads one after the other is numbering them together, the second group continuing at the counter the first left |
| LegacyArgs.AppArgsCounted | main.cpp:401-409 | the counter grows by one for every `-g` with a payload, including those past the ninth |
| LegacyArgs.AppArgsNumbered | main.cpp:401-409 | only the `-g` payloads arriving with the counter below nine are pushed, each to the slot after the counter |
| LegacyArgs.TranslateAppArgs | main.cpp:401-409 | from the start, the first nine `-g` payloads go to slots 1 to 9 in order and later ones are dropped |
| LegacyArgs.NamedParamsPushed | main.cpp:410-419 | every accepted `-G` is pushed in order, and nothing else is pushed as a named parameter |
| LegacyArgs.AddonsPushed | main.cpp:389-400 | every `-a` and `-b` with a script is pushed in order, and a bare `-a` or `-b` pushes nothing |
| LegacyArgs.OnlyKnownSettings | main.cpp:389-419 | the translator pushes only add-ons, numbered arguments and named parameters |
| LegacyArgs.AutoStartQuitScene | main.cpp:355-427 | `-s500 -q scene.ttt` gives the full GUI with auto-start and auto-quit, a delay of 500 and the scene path |
| LegacyArgs.KeyMayStartWithEquals | main.cpp:410-419 | the search for `=` starts after the key's first character, so `-G=k=v` has key `=k` |
| LegacyLauncher.CharValue | main.cpp:312 | where `char` is signed a byte compares as at most 0x7F; elsewhere as its value |
| LegacyLauncher.TrimAsWritten | main.cpp:302-321 | the loop keeps the longest prefix of the path at which it stops; without NUL a non-empty result ends in `/` |
| LegacyLauncher.DirectoryPart | main.cpp:302-321 | the longest prefix that is empty or ends in `/`, with no `/` after it |
| LegacyLauncher.SignedTrimIsDirectoryPart | main.cpp:302-321 | where `char` is signed the loop cuts the path right after its last `/` |
| LegacyLauncher.UnsignedTrimSkipsSeparator | main.cpp:302-321 | where `char` is unsigned, `/aé/x` trims to `/` instead of `/aé/` |
| LegacyLauncher.StatusCode | main.cpp:332-343 | the codes are 1 exactly for a bound library and at least 0 exactly when it was found |
| LegacyLauncher.LegacyLibraryFile | main.cpp:322-330 | the file is `coppeliaSim` on Windows, exactly `libcoppeliaSim.dylib` on macOS and `libcoppeliaSim.so` on Linux (prefix, suffix and length fixed) |
| LegacyLauncher.LibraryFilesAgree | main.cpp:322-330 | both launchers ask for the same GUI library file, except that the current one prefixes `@executable_path/` on macOS |
| LegacyLauncher.LoadSimLib | main.cpp:291-344 | the working directory is the path's directory part; the result is 1 when found and resolved, 0 when found but not resolved, -1 when not found |
| LegacyLauncher.LegacyMain | main.cpp:454-490 | arguments are translated only after a full bind, the library is unloaded exactly when found, the program waits for a key exactly when the engine did not run, and it exits with 0 |

## Left out

- Threads: the simulation thread's creation and joining, and the `simGetExitRequest`
  polling, are concurrency and belong to the engine. A run is modelled as a finite trace of
  observations, and `Run` covers any number of iterations.
- Engine calls (`simInitialize`, `simLoop`, `simDeinitialize`, `simRunGui`,
  `simRunSimulatorEx`, the parameter setters) are modelled only as issued commands, pushed
  settings and observed values, not by what the engine does with them. The one exception
  is the named-parameter store (next line). A failed scene load is only logged, so its
  result is not modelled.
- Client.NamedStore: the engine's named-parameter store is assumed to be a map in which a
  later `simSetNamedStringParam` for the same key replaces the earlier value. The launcher's
  source only says a value can be queried with `sim.getNamedStringParam`, so
  `NamedParamStored`, `NamedStoreKeys` and `NamedStoreLastWins` hold under this assumption.
- Dynamic loading: `loadSimLibrary` and `getSimProcAddresses` become the inputs `found` and
  `resolved`.
- boost::program_options parsing: the parsed options (`ParsedArgs`) or a parse error are the
  input of `Client.ClientMain`. How boost rejects input is not modelled.
- Simulation time: `simGetSimulationTime()*1000 > stopDelay` is compared in exact real
  arithmetic on elapsed milliseconds, with no IEEE rounding.
- GUI option bits: `sim_gui_all`, `sim_gui_headless` and the legacy option bits are
  symbolic; their numeric values are not modelled.
- LegacyArgs.DelayLoop: the digit loop is modelled in unbounded integers, so a delay
  overflowing a C `int` does not wrap.
- The commented-out plugin loader and the legacy `simulatorInit`/`simulatorLoop`/
  `simulatorDeinit` hooks (main.cpp:52-289) are not compiled and not modelled.
- The legacy `launchAndHandleSimThreadHere` branch and its `simThreadStartAddress` are
  switched off by a constant `false`, so `LegacyMain` always takes the `run` path.
- Side effects with no logical content: `execv` for `--exec-program`, `chdir`,
  `QDir::setCurrent`, `_fullpath`, `timeBeginPeriod`, `getchar` (modelled only as a flag),
  console and log output.
- `appDir` in the current launcher is `parent_path()` of `argv[0]`, a library call; it is not
  modelled.
- LegacyLauncher.LoadSimLib: uses the corrected `DirectoryPart` for the directory, which
  equals the loop as written wherever `char` is signed (see Findings).

## Findings

| source | as written | input that shows it | evidently intended | confidence | as-written member | corrected member |
|---|---|---|---|---|---|---|
| main.cpp:309-318 | a `/` that follows a byte compared as greater than 0x7F is erased as part of a two-byte character; this fires only where `char` is unsigned | the UTF-8 path `/aé/x` on an unsigned-`char` platform trims to `/` | the directory containing the executable, `/aé/`: a `/` byte is never part of a multibyte UTF-8 character | medium, not executed | LegacyLauncher.UnsignedTrimSkipsSeparator | LegacyLauncher.DirectoryPart |
