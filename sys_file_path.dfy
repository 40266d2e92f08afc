/**
 * `get_sys_file_path` of the user-mode engine's driver manager: where the engine looks for
 * the driver image, given the path of its own executable that `GetModuleFileNameW` wrote
 * into a `MAX_PATH`-unit buffer.
 */
module SysFilePath {
  import opened Base
  import DriverUtils

  /** The file name of the driver image, which the path splice appends. */
  const SYS_INSTALL_RELATIVE_LOC: string := "sanctum.sys"
  /** `MAX_PATH`, the length of the buffer `GetModuleFileNameW` fills. */
  const MAX_PATH: nat := 260

  /** The code unit of '\', the Windows path separator. */
  const BACKSLASH: uint16 := 0x5C

  /**
   * `get_sys_file_path`, as written: `len` is what `GetModuleFileNameW` returned and
   * `modulePath` the 260-unit buffer it filled. A length of `MAX_PATH` or more panics; so does
   * one below 11, where `len - 11` underflows (a length of 0 is logged first). Otherwise the
   * first `len - 11` units are kept and "sanctum.sys" and a NUL appended.
   */
  method GetSysFilePath(len: uint32, modulePath: seq<uint16>) returns (exit: Exit, svcPath: seq<uint16>)
    requires |modulePath| == MAX_PATH
    ensures exit == Panicked <==> len >= MAX_PATH || len < 11
    ensures exit == Returned ==>
      svcPath == modulePath[..len - 11] + DriverUtils.Encode(SYS_INSTALL_RELATIVE_LOC) + [0]
  {
    svcPath := modulePath;
    if len >= MAX_PATH as uint32 {
      return Panicked, svcPath;
    }
    if len < 11 {
      return Panicked, svcPath;
    }
    svcPath := svcPath[..len - 11];
    var sysFile := DriverUtils.ToU16Vec(SYS_INSTALL_RELATIVE_LOC);
    svcPath := svcPath + sysFile;
    exit := Returned;
  }

  /** No unit of `s`'s UTF-16 form is a backslash unless `s` contains one. */
  lemma {:induction false} EncodeWithoutBackslash(s: string)
    requires forall i :: 0 <= i < |s| ==> s[i] != '\\'
    ensures forall i :: 0 <= i < |DriverUtils.Encode(s)| ==> DriverUtils.Encode(s)[i] != BACKSLASH
  {
    if s != [] {
      EncodeWithoutBackslash(s[1..]);
      var e := DriverUtils.EncodeScalar(s[0]);
      var rest := DriverUtils.Encode(s[1..]);
      assert DriverUtils.Encode(s) == e + rest;
      forall i | 0 <= i < |e| + |rest|
        ensures (e + rest)[i] != BACKSLASH
      {
        if i >= |e| {
          assert (e + rest)[i] == rest[i - |e|];
        }
      }
    }
  }

  /** The UTF-16 form of a concatenation is the concatenation of the forms. */
  lemma {:induction false} EncodeConcat(a: string, b: string)
    ensures DriverUtils.Encode(a + b) == DriverUtils.Encode(a) + DriverUtils.Encode(b)
  {
    if a == [] {
      assert a + b == b;
    } else {
      assert (a + b)[0] == a[0];
      assert (a + b)[1..] == a[1..] + b;
      EncodeConcat(a[1..], b);
    }
  }

  /** A string of Basic Multilingual Plane characters is encoded one unit per character. */
  lemma {:induction false} BmpUnits(s: string)
    requires forall i :: 0 <= i < |s| ==> (s[i] as int) < 0x1_0000
    ensures |DriverUtils.Encode(s)| == |s|
    ensures forall i :: 0 <= i < |s| ==> DriverUtils.Encode(s)[i] == s[i] as int
  {
    if s != [] {
      BmpUnits(s[1..]);
    }
  }

  /**
   * Cutting 11 units off a module path that ends in an executable name of more than 11
   * characters keeps the name's first characters: the result is not the executable's folder.
   */
  lemma SysFilePathKeepsPrefix(dir: string, exe: string, modulePath: seq<uint16>)
    requires forall i :: 0 <= i < |exe| ==> (exe[i] as int) < 0x1_0000
    requires |exe| > 11
    requires |DriverUtils.Encode(dir)| + |exe| <= |modulePath|
    requires modulePath[..|DriverUtils.Encode(dir)| + |exe|] == DriverUtils.Encode(dir + exe)
    ensures var len := |DriverUtils.Encode(dir)| + |exe|;
      && modulePath[..len - 11] == DriverUtils.Encode(dir + exe[..|exe| - 11])
      && |modulePath[..len - 11]| > |DriverUtils.Encode(dir)|
  {
    var kept := exe[..|exe| - 11];
    var d := DriverUtils.Encode(dir);
    var e := DriverUtils.Encode(exe);
    assert |e| == |exe| && DriverUtils.Encode(kept) == e[..|e| - 11] by {
      BmpPrefix(exe, |kept|);
    }
    assert modulePath[..|d| + |e|] == d + e by {
      EncodeConcat(dir, exe);
    }
    ShorterPrefix(modulePath, d, e, 11);
    assert d + DriverUtils.Encode(kept) == DriverUtils.Encode(dir + kept) by {
      EncodeConcat(dir, kept);
    }
  }

  /** Dropping `k` units from the end of a prefix `d + e` of `m` drops them from `e`. */
  lemma ShorterPrefix(m: seq<uint16>, d: seq<uint16>, e: seq<uint16>, k: nat)
    requires k <= |e| && |d| + |e| <= |m|
    requires m[..|d| + |e|] == d + e
    ensures m[..|d| + |e| - k] == d + e[..|e| - k]
  {
    assert m[..|d| + |e| - k] == m[..|d| + |e|][..|d| + |e| - k];
  }

  /** For Basic Multilingual Plane text, encoding a prefix takes the same prefix of units. */
  lemma BmpPrefix(s: string, k: nat)
    requires forall i :: 0 <= i < |s| ==> (s[i] as int) < 0x1_0000
    requires k <= |s|
    ensures |DriverUtils.Encode(s)| == |s|
    ensures DriverUtils.Encode(s[..k]) == DriverUtils.Encode(s)[..k]
  {
    BmpUnits(s);
    BmpUnits(s[..k]);
  }

  /** The executable `get_sys_file_path` runs from: the `um_engine` crate's binary. */
  const ENGINE_EXE: string := "um_engine.exe"

  /**
   * With the executable "um_engine.exe" (13 units) in folder `dir`, cutting 11 units keeps
   * the "um" of the file name, so the driver image is looked for as `dir` + "umsanctum.sys"
   * rather than `dir` + "sanctum.sys".
   */
  lemma SysFilePathKeepsUm(dir: string, modulePath: seq<uint16>)
    requires |DriverUtils.Encode(dir)| + 13 <= |modulePath|
    requires modulePath[..|DriverUtils.Encode(dir)| + 13] == DriverUtils.Encode(dir + ENGINE_EXE)
    ensures var len := |DriverUtils.Encode(dir)| + 13;
      && modulePath[..len - 11] == DriverUtils.Encode(dir + "um")
      && modulePath[..len - 11] != DriverUtils.Encode(dir)
  {
    var exe := ENGINE_EXE;
    assert |exe| == 13 && exe[..2] == "um";
    assert forall i :: 0 <= i < |exe| ==> (exe[i] as int) < 0x1_0000;
    SysFilePathKeepsPrefix(dir, exe, modulePath);
    assert DriverUtils.Encode(dir + "um") != DriverUtils.Encode(dir) by {
      EncodeConcat(dir, "um");
    }
  }

  /** The position just after the last backslash among the first `n` units, 0 when there is none. */
  function FolderEnd(path: seq<uint16>, n: nat): (k: nat)
    requires n <= |path|
    ensures k <= n
    ensures k > 0 ==> path[k - 1] == BACKSLASH
    ensures forall i :: k <= i < n ==> path[i] != BACKSLASH
  {
    if n == 0 then 0 else if path[n - 1] == BACKSLASH then n else FolderEnd(path, n - 1)
  }

  /** Scans back from position `n` to just after the nearest backslash. */
  method FindFolderEnd(path: seq<uint16>, n: nat) returns (k: nat)
    requires n <= |path|
    ensures k == FolderEnd(path, n)
  {
    k := n;
    while k > 0 && path[k - 1] != BACKSLASH
      invariant k <= n
      invariant FolderEnd(path, k) == FolderEnd(path, n)
      decreases k
    {
      k := k - 1;
    }
  }

  /**
   * `get_sys_file_path` as evidently intended: keep the module path up to and including its
   * last backslash (the executable's folder) and append "sanctum.sys" and a NUL, whatever the
   * executable's name. The panics on a length of 0 or of `MAX_PATH` and more stay.
   */
  method GetSysFilePathInFolder(len: uint32, modulePath: seq<uint16>) returns (exit: Exit, svcPath: seq<uint16>)
    requires |modulePath| == MAX_PATH
    ensures exit == Panicked <==> len >= MAX_PATH || len == 0
    ensures exit == Returned ==>
      svcPath == modulePath[..FolderEnd(modulePath, len)] + DriverUtils.Encode(SYS_INSTALL_RELATIVE_LOC) + [0]
  {
    svcPath := modulePath;
    if len >= MAX_PATH as uint32 {
      return Panicked, svcPath;
    }
    if len == 0 {
      return Panicked, svcPath;
    }
    var k := FindFolderEnd(modulePath, len);
    svcPath := svcPath[..k];
    var sysFile := DriverUtils.ToU16Vec(SYS_INSTALL_RELATIVE_LOC);
    svcPath := svcPath + sysFile;
    exit := Returned;
  }

  /**
   * The corrected splice replaces the executable's file name, whatever it is, by
   * "sanctum.sys": for a module path `dir` + `name` with `dir` ending in a backslash and no
   * backslash in `name`, the folder ends exactly where `dir` does.
   */
  lemma FolderEndOfModulePath(dir: string, name: string, modulePath: seq<uint16>)
    requires |dir| > 0 && dir[|dir| - 1] == '\\'
    requires forall i :: 0 <= i < |name| ==> name[i] != '\\'
    requires |DriverUtils.Encode(dir + name)| <= |modulePath|
    requires modulePath[..|DriverUtils.Encode(dir + name)|] == DriverUtils.Encode(dir + name)
    ensures var len := |DriverUtils.Encode(dir + name)|;
      modulePath[..FolderEnd(modulePath, len)] == DriverUtils.Encode(dir)
  {
    var d := DriverUtils.Encode(dir);
    var e := DriverUtils.Encode(name);
    var whole := DriverUtils.Encode(dir + name);
    assert whole == d + e && |whole| == |d| + |e| by {
      EncodeConcat(dir, name);
    }
    assert |d| > 0 && d[|d| - 1] == BACKSLASH by {
      DirEndsInBackslash(dir);
    }
    assert forall j :: 0 <= j < |e| ==> e[j] != BACKSLASH by {
      EncodeWithoutBackslash(name);
    }
    FolderEndAfterDir(modulePath, d, e);
  }

  /**
   * When `m` starts with `d` + `e`, `d` ends in a backslash and `e` holds none, the folder of
   * that prefix is `d`.
   */
  lemma FolderEndAfterDir(m: seq<uint16>, d: seq<uint16>, e: seq<uint16>)
    requires |d| > 0 && d[|d| - 1] == BACKSLASH
    requires forall j :: 0 <= j < |e| ==> e[j] != BACKSLASH
    requires |d| + |e| <= |m| && m[..|d| + |e|] == d + e
    ensures m[..FolderEnd(m, |d| + |e|)] == d
  {
    PrefixFacts(m, d, e);
    FolderEndAt(m, |d| + |e|, |d|);
  }

  /** What `m` starting with `d` + `e` says about the units of `m`. */
  lemma PrefixFacts(m: seq<uint16>, d: seq<uint16>, e: seq<uint16>)
    requires |d| + |e| <= |m| && m[..|d| + |e|] == d + e
    ensures m[..|d|] == d
    ensures forall i :: 0 <= i < |d| ==> m[i] == d[i]
    ensures forall i :: |d| <= i < |d| + |e| ==> m[i] == e[i - |d|]
  {
    var len := |d| + |e|;
    assert m[..|d|] == m[..len][..|d|];
    forall i | 0 <= i < len
      ensures m[i] == (d + e)[i]
    {
      assert m[..len][i] == m[i];
    }
  }

  /** A string ending in a backslash has a UTF-16 form ending in the backslash unit. */
  lemma DirEndsInBackslash(dir: string)
    requires |dir| > 0 && dir[|dir| - 1] == '\\'
    ensures |DriverUtils.Encode(dir)| > 0
    ensures DriverUtils.Encode(dir)[|DriverUtils.Encode(dir)| - 1] == BACKSLASH
  {
    var front := dir[..|dir| - 1];
    assert dir == front + ['\\'];
    DriverUtils.EncodeAppend(front, '\\');
  }

  /** When position `k - 1` holds the last backslash before `n`, the folder ends at `k`. */
  lemma {:induction false} FolderEndAt(path: seq<uint16>, n: nat, k: nat)
    requires 0 < k <= n <= |path|
    requires path[k - 1] == BACKSLASH
    requires forall i :: k <= i < n ==> path[i] != BACKSLASH
    ensures FolderEnd(path, n) == k
    decreases n
  {
    if n > k {
      FolderEndAt(path, n - 1, k);
    }
  }
}
