/**
 The legacy launcher's `main`: find the directory of the executable, load the engine
 library, translate the arguments and hand them to the engine only when every entry
 point was found, and unload whatever was loaded.
 */
module LegacyLauncher {
  import opened Maybe
  import opened Engine
  import opened Text
  import LegacyArgs
  import Client

  newtype Byte = x: int | 0 <= x < 256

  const Slash: Byte := 0x2F
  const Nul: Byte := 0

  /** The value a byte has when compared with 0x7F: where `char` is signed, a byte of 0x80
      or more reads as a negative number. */
  function CharValue(b: Byte, signedChar: bool): (v: int)
    ensures signedChar ==> v <= 0x7F
    ensures !signedChar ==> v == b as int
    ensures b < 0x80 ==> v == b as int
  {
    if signedChar && b >= 0x80 then b as int - 256 else b as int
  }

  /** The trimming loop stops on an empty string, on a trailing NUL, or on a trailing `/`
      that is either the first character or follows a character whose value is at most
      0x7F. */
  predicate StopsAt(dir: seq<Byte>, signedChar: bool)
  {
    |dir| == 0 || dir[|dir| - 1] == Nul
    || (dir[|dir| - 1] == Slash && (|dir| == 1 || CharValue(dir[|dir| - 2], signedChar) <= 0x7F))
  }

  /** A prefix that stops nowhere above length `n`, extended by a byte where it does not
      stop either. */
  lemma NoStopAbove(dir: seq<Byte>, shorter: seq<Byte>, n: nat, signedChar: bool)
    requires n < |dir| && shorter == dir[..|dir| - 1] && !StopsAt(dir, signedChar)
    requires forall k :: n < k <= |shorter| ==> !StopsAt(shorter[..k], signedChar)
    ensures forall k :: n < k <= |dir| ==> !StopsAt(dir[..k], signedChar)
  {
    forall k | n < k <= |dir|
      ensures !StopsAt(dir[..k], signedChar)
    {
      if k == |dir| {
        assert dir[..k] == dir;
      } else {
        assert dir[..k] == shorter[..k];
      }
    }
  }

  /** The trimming loop as written: erase the last character until the loop stops. The
      result is the longest prefix at which the loop stops. */
  function TrimAsWritten(dir: seq<Byte>, signedChar: bool): (r: seq<Byte>)
    ensures |r| <= |dir| && r == dir[..|r|]
    ensures StopsAt(r, signedChar)
    ensures forall k :: |r| < k <= |dir| ==> !StopsAt(dir[..k], signedChar)
    ensures Nul !in dir && |r| > 0 ==> r[|r| - 1] == Slash
    decreases |dir|
  {
    if |dir| > 0 && dir[|dir| - 1] != Nul then
      var l := |dir|;
      var erase := if dir[l - 1] != Slash then true
                   else if l > 1 then CharValue(dir[l - 2], signedChar) > 0x7F
                   else false;
      if erase then
        var r := TrimAsWritten(dir[..l - 1], signedChar);
        assert !StopsAt(dir, signedChar);
        NoStopAbove(dir, dir[..l - 1], |r|, signedChar);
        assert |r| > 0 ==> r[|r| - 1] == dir[|r| - 1];
        r
      else
        assert dir[..l] == dir;
        dir
    else
      assert dir[..|dir|] == dir;
      dir
  }

  /** The directory part of a path: its longest prefix that is empty or ends in `/`. */
  function DirectoryPart(path: seq<Byte>): (r: seq<Byte>)
    ensures |r| <= |path| && r == path[..|r|]
    ensures |r| == 0 || r[|r| - 1] == Slash
    ensures forall k :: |r| <= k < |path| ==> path[k] != Slash
    decreases |path|
  {
    if |path| == 0 || path[|path| - 1] == Slash then
      assert path[..|path|] == path;
      path
    else
      var r := DirectoryPart(path[..|path| - 1]);
      assert forall k :: |r| <= k < |path| - 1 ==> path[k] == path[..|path| - 1][k];
      r
  }

  /** Where `char` is signed the multibyte test never fires, and the loop cuts the path
      right after its last `/`. */
  lemma {:induction false} SignedTrimIsDirectoryPart(dir: seq<Byte>)
    requires Nul !in dir
    ensures TrimAsWritten(dir, true) == DirectoryPart(dir)
    decreases |dir|
  {
    if |dir| > 0 && dir[|dir| - 1] != Slash {
      assert forall b :: b in dir[..|dir| - 1] ==> b in dir;
      SignedTrimIsDirectoryPart(dir[..|dir| - 1]);
    }
  }

  /** Where `char` is unsigned, a `/` that follows a byte of 0x80 or more is erased as if
      it belonged to a two-byte character, so a path through a directory whose name ends
      in such a character yields a parent directory: "/aé/x" in UTF-8 gives "/". */
  lemma UnsignedTrimSkipsSeparator()
    ensures TrimAsWritten([0x2F, 0x61, 0xC3, 0xA9, 0x2F, 0x78], false) == [0x2F]
    ensures DirectoryPart([0x2F, 0x61, 0xC3, 0xA9, 0x2F, 0x78]) == [0x2F, 0x61, 0xC3, 0xA9, 0x2F]
  {
    var dir: seq<Byte> := [0x2F, 0x61, 0xC3, 0xA9, 0x2F, 0x78];
    var d5: seq<Byte> := [0x2F, 0x61, 0xC3, 0xA9, 0x2F];
    var d4: seq<Byte> := [0x2F, 0x61, 0xC3, 0xA9];
    var d3: seq<Byte> := [0x2F, 0x61, 0xC3];
    var d2: seq<Byte> := [0x2F, 0x61];
    var d1: seq<Byte> := [0x2F];
    assert dir[..5] == d5;
    assert d5[..4] == d4;
    assert d4[..3] == d3;
    assert d3[..2] == d2;
    assert d2[..1] == d1;
    assert TrimAsWritten(d1, false) == d1;
    assert TrimAsWritten(d2, false) == d1;
    assert TrimAsWritten(d3, false) == d1;
    assert TrimAsWritten(d4, false) == d1;
    assert TrimAsWritten(d5, false) == d1;
    assert DirectoryPart(d5) == d5;
  }

  /** What loading the engine library gave: -1, 0 and 1 in the program. */
  datatype LibStatus = NotFound | MissingEntryPoints | Loaded

  function StatusCode(status: LibStatus): (code: int)
    ensures -1 <= code <= 1
    ensures code == 1 <==> status == Loaded
    ensures code >= 0 <==> status != NotFound
  {
    match status
    case NotFound => -1
    case MissingEntryPoints => 0
    case Loaded => 1
  }

  /** The library file the legacy launcher asks for on each platform. */
  function LegacyLibraryFile(platform: Platform): (file: string)
    ensures platform == Windows ==> file == "coppeliaSim"
    ensures platform != Windows ==> |file| > 3 && file[..3] == "lib"
    ensures platform == MacOS ==>
              HasSuffix(file, "coppeliaSim.dylib") && |file| == |"lib"| + |"coppeliaSim"| + |".dylib"|
    ensures platform == Linux ==>
              HasSuffix(file, "coppeliaSim.so") && |file| == |"lib"| + |"coppeliaSim"| + |".so"|
  {
    match platform
    case Windows => "coppeliaSim"
    case MacOS =>
      var file := "lib" + "coppeliaSim.dylib";
      assert file[3..] == "coppeliaSim.dylib" && file[..3] == "lib";
      file
    case Linux =>
      var file := "lib" + "coppeliaSim.so";
      assert file[3..] == "coppeliaSim.so" && file[..3] == "lib";
      file
  }

  /** Both launchers load the same GUI library file, except that the current one names it
      relative to the executable on macOS. */
  lemma LibraryFilesAgree(platform: Platform)
    ensures platform != MacOS ==>
              Client.LibraryFile(platform, Client.LibraryName(false)) == LegacyLibraryFile(platform)
    ensures platform == MacOS ==>
              Client.LibraryFile(platform, Client.LibraryName(false))
              == "@executable_path/" + LegacyLibraryFile(platform)
  {
    match platform
    case Windows =>
    case MacOS => MacFileAgrees();
    case Linux => LinuxFileAgrees();
  }

  lemma MacFileAgrees()
    ensures "@executable_path/lib" + "coppeliaSim" + ".dylib" == "@executable_path/" + ("lib" + "coppeliaSim.dylib")
  {
    var lib, name, ext := "lib", "coppeliaSim", ".dylib";
    assert "@executable_path/lib" == "@executable_path/" + lib;
    assert "coppeliaSim.dylib" == name + ext;
  }

  lemma LinuxFileAgrees()
    ensures "lib" + "coppeliaSim" + ".so" == "lib" + "coppeliaSim.so"
  {
    assert "coppeliaSim.so" == "coppeliaSim" + ".so";
  }

  /** The outcome of `loadSimLib`: the directory it changed to, the file it asked for, and
      whether the file was found and all its entry points resolved. */
  datatype LibLoad = LibLoad(appDir: seq<Byte>, file: string, status: LibStatus)

  /** Loading the library; `found` and `resolved` stand for the results of the dynamic
      loader, and the program path is a C string, so it holds no NUL. */
  function LoadSimLib(execPath: seq<Byte>, platform: Platform, found: bool, resolved: bool): (r: LibLoad)
    requires Nul !in execPath
    ensures |r.appDir| <= |execPath| && r.appDir == execPath[..|r.appDir|]
    ensures r.appDir == [] || r.appDir[|r.appDir| - 1] == Slash
    ensures forall k :: |r.appDir| <= k < |execPath| ==> execPath[k] != Slash
    ensures r.file == LegacyLibraryFile(platform)
    ensures StatusCode(r.status) == 1 <==> found && resolved
    ensures StatusCode(r.status) == 0 <==> found && !resolved
    ensures StatusCode(r.status) == -1 <==> !found
  {
    var status := if !found then NotFound else if resolved then Loaded else MissingEntryPoints;
    LibLoad(DirectoryPart(execPath), LegacyLibraryFile(platform), status)
  }

  /** What `main` did: the translation it handed to the engine, whether the engine ran,
      whether the library was unloaded, whether it waited for a key, and its exit code. */
  datatype LegacyOutcome = LegacyOutcome(
    translation: Option<LegacyArgs.Translation>,
    ran: bool,
    unloaded: bool,
    waitsForKey: bool,
    exitCode: int)

  /** The legacy `main`; `launched` stands for the engine's answer to the launch call. */
  function LegacyMain(status: LibStatus, args: seq<string>, launched: bool): (r: LegacyOutcome)
    ensures r.translation.Some? <==> status == Loaded
    ensures r.translation.Some? ==> r.translation.value == LegacyArgs.Translate(args)
    ensures r.ran <==> status == Loaded && launched
    ensures r.unloaded <==> status != NotFound
    ensures r.waitsForKey <==> !r.ran
    ensures r.exitCode == 0
  {
    var code := StatusCode(status);
    var translation := if code == 1 then Some(LegacyArgs.Translate(args)) else None;
    var ran := code == 1 && launched;
    LegacyOutcome(translation, ran, code >= 0, !ran, 0)
  }
}
