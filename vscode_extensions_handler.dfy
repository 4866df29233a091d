/**
 * The editor extensions of `vscode_extensions_handler.py`: where the VS Code command line is
 * looked for, which extension IDs the list file names, and which of them are installed.
 */
module VscodeExtensions {
  import opened Wrappers
  import opened Seqs
  import opened Text

  /** One place the command line is looked for: a name on `PATH`, or a fixed file. */
  datatype Probe = Which(exe: string) | Exists(path: string)

  /** The search order: the two names on `PATH`, then the four usual install locations. */
  const CliNames: seq<string> := ["code", "code-insiders"]
  const CliPaths: seq<string> := ["/usr/bin/code", "/usr/local/bin/code", "/opt/code/bin/code", "/usr/share/code/bin/code"]

  const CliProbes: seq<Probe> := [Which(CliNames[0]), Which(CliNames[1]),
    Exists(CliPaths[0]), Exists(CliPaths[1]), Exists(CliPaths[2]), Exists(CliPaths[3])]

  /**
   * What one probe finds, given `which` (`shutil.which`) and `present` (`Path.exists`). A
   * lookup counts only when its result is truthy, so an empty path is a miss.
   */
  function ProbeHit(p: Probe, which: string -> Option<string>, present: string -> bool): (r: Option<string>)
    ensures p.Which? && r.Some? ==> r.value != [] && r == which(p.exe)
  {
    match p
    case Which(exe) =>
      var found := which(exe);
      if found.Some? && found.value != [] then found else None
    case Exists(path) =>
      if present(path) then Some(path) else None
  }

  /** The hit of the first probe that hits, in order. */
  function FirstHit(probes: seq<Probe>, which: string -> Option<string>, present: string -> bool): Option<string> {
    if probes == [] then None
    else
      var r := ProbeHit(probes[0], which, present);
      if r.Some? then r else FirstHit(probes[1..], which, present)
  }

  /** The first hit is the hit of some probe, every earlier probe missing; there is none only when all miss. */
  lemma {:induction false} FirstHitIsFirst(probes: seq<Probe>, which: string -> Option<string>, present: string -> bool)
    ensures FirstHit(probes, which, present).None? <==>
      forall k :: 0 <= k < |probes| ==> ProbeHit(probes[k], which, present).None?
    ensures FirstHit(probes, which, present).Some? ==>
      exists k :: && 0 <= k < |probes|
                  && ProbeHit(probes[k], which, present) == FirstHit(probes, which, present)
                  && forall j :: 0 <= j < k ==> ProbeHit(probes[j], which, present).None?
    decreases |probes|
  {
    if probes != [] {
      var tail := probes[1..];
      FirstHitIsFirst(tail, which, present);
      if ProbeHit(probes[0], which, present).None? {
        assert forall k :: 1 <= k < |probes| ==> probes[k] == tail[k - 1];
        if FirstHit(tail, which, present).Some? {
          var k :| && 0 <= k < |tail|
                   && ProbeHit(tail[k], which, present) == FirstHit(tail, which, present)
                   && forall j :: 0 <= j < k ==> ProbeHit(tail[j], which, present).None?;
          assert probes[k + 1] == tail[k];
          assert forall j :: 0 <= j < k + 1 ==> ProbeHit(probes[j], which, present).None? by {
            forall j | 0 < j < k + 1 ensures ProbeHit(probes[j], which, present).None? {
              assert probes[j] == tail[j - 1];
            }
          }
        } else {
          forall k | 0 <= k < |probes| ensures ProbeHit(probes[k], which, present).None? {
            if k > 0 {
              assert probes[k] == tail[k - 1];
            }
          }
        }
      }
    }
  }

  /** When every probe before `i` misses, the search is decided from `i` on. */
  lemma {:induction false} FirstHitFrom(probes: seq<Probe>, i: nat, which: string -> Option<string>, present: string -> bool)
    requires i <= |probes|
    requires forall k :: 0 <= k < i ==> ProbeHit(probes[k], which, present).None?
    ensures FirstHit(probes, which, present) == FirstHit(probes[i..], which, present)
    decreases i
  {
    if i > 0 {
      FirstHitFrom(probes[1..], i - 1, which, present);
      assert probes[1..][i - 1..] == probes[i..];
    }
  }

  /** `find_vscode_cli`: the names on `PATH` first, then the fixed locations; None when nothing is found. */
  method FindVscodeCli(which: string -> Option<string>, present: string -> bool) returns (cli: Option<string>)
    ensures cli == FirstHit(CliProbes, which, present)
  {
    ghost var probes := CliProbes;
    for i := 0 to |CliNames|
      invariant forall k :: 0 <= k < i ==> ProbeHit(probes[k], which, present).None?
    {
      var path := which(CliNames[i]);
      if path.Some? && path.value != [] {
        FirstHitFrom(probes, i, which, present);
        return path;
      }
    }
    for i := 0 to |CliPaths|
      invariant forall k :: 0 <= k < |CliNames| + i ==> ProbeHit(probes[k], which, present).None?
    {
      var path := CliPaths[i];
      if present(path) {
        FirstHitFrom(probes, |CliNames| + i, which, present);
        return Some(path);
      }
    }
    FirstHitFrom(probes, |probes|, which, present);
    return None;
  }

  /** `is_vscode_installed`: whether some probe hits. */
  method IsVscodeInstalled(which: string -> Option<string>, present: string -> bool) returns (installed: bool)
    ensures installed <==> exists k :: 0 <= k < |CliProbes| && ProbeHit(CliProbes[k], which, present).Some?
  {
    var cli := FindVscodeCli(which, present);
    FirstHitIsFirst(CliProbes, which, present);
    installed := cli.Some?;
  }

  /** The IDs a list file names: its content lines, stripped, in order; a missing file names none. */
  function ListedIds(extFile: Option<seq<string>>): seq<string> {
    match extFile
    case None => []
    case Some(lines) => ContentLines(lines)
  }

  /** `read_extensions`. */
  method ReadExtensions(extFile: Option<seq<string>>) returns (extIds: seq<string>)
    ensures extIds == ListedIds(extFile)
  {
    extIds := [];
    if extFile.None? {
      return;
    }
    var lines := extFile.value;
    for i := 0 to |lines|
      invariant extIds == ContentLines(lines[..i])
    {
      FlatMapStep(lines, i, LineContent);
      var line := Strip(lines[i]);
      if line != [] && !("#" <= line) {
        extIds := extIds + [line];
      }
    }
    assert lines[..|lines|] == lines;
  }

  /** The listed IDs not in `installed`, in listed order, repeats kept. */
  function ToInstall(ids: seq<string>, installed: set<string>): seq<string> {
    if ids == [] then []
    else
      var x := ids[|ids| - 1];
      ToInstall(ids[..|ids| - 1], installed) + if x in installed then [] else [x]
  }

  /**
   * `install_vscode_extensions`: without a command line nothing is read or installed;
   * otherwise every listed ID missing from the installed set is attempted once per listing.
   * `listInstalled(cli)` is what `get_installed_extensions` reports, the empty set when
   * listing fails; `attempted` holds the IDs handed to `install_extension`, in order.
   */
  method InstallVscodeExtensions(which: string -> Option<string>, present: string -> bool,
                                 extFile: Option<seq<string>>, listInstalled: string -> set<string>)
    returns (cli: Option<string>, attempted: seq<string>)
    ensures cli == FirstHit(CliProbes, which, present)
    ensures cli.None? ==> attempted == []
    ensures cli.Some? ==> attempted == ToInstall(ListedIds(extFile), listInstalled(cli.value))
  {
    cli := FindVscodeCli(which, present);
    if cli.None? {
      return cli, [];
    }
    var extIds := ReadExtensions(extFile);
    var installedExts := listInstalled(cli.value);
    attempted := InstallMissing(extIds, installedExts);
  }

  /** The loop of `install_vscode_extensions`: `install_extension` for each ID not in `installedExts`. */
  method InstallMissing(extIds: seq<string>, installedExts: set<string>) returns (attempted: seq<string>)
    ensures attempted == ToInstall(extIds, installedExts)
  {
    attempted := [];
    for i := 0 to |extIds|
      invariant attempted == ToInstall(extIds[..i], installedExts)
    {
      assert extIds[..i + 1][..i] == extIds[..i];
      if extIds[i] !in installedExts {
        attempted := attempted + [extIds[i]];
      }
    }
    assert extIds[..|extIds|] == extIds;
  }

  /** An ID is attempted exactly when it is listed and not installed. */
  lemma {:induction false} ToInstallMember(ids: seq<string>, installed: set<string>, x: string)
    ensures x in ToInstall(ids, installed) <==> x in ids && x !in installed
    decreases |ids|
  {
    if ids != [] {
      var init := ids[..|ids| - 1];
      ToInstallMember(init, installed, x);
      assert ids == init + [ids[|ids| - 1]];
    }
  }

  /**
   * The installed set is not updated inside the loop: an ID that is not installed is
   * attempted as often as it is listed, and an installed one never.
   */
  lemma {:induction false} ToInstallCount(ids: seq<string>, installed: set<string>, x: string)
    ensures multiset(ToInstall(ids, installed))[x] == if x in installed then 0 else multiset(ids)[x]
    decreases |ids|
  {
    if ids != [] {
      var init := ids[..|ids| - 1];
      var last := ids[|ids| - 1];
      ToInstallCount(init, installed, x);
      assert ids == init + [last];
      assert multiset(ids) == multiset(init) + multiset([last]);
      var tail := if last in installed then [] else [last];
      assert multiset(ToInstall(ids, installed)) == multiset(ToInstall(init, installed)) + multiset(tail);
    }
  }

  /** Each listed ID's attempt stands at its place, so attempts keep listed order. */
  lemma {:induction false} ToInstallAt(a: seq<string>, x: string, b: seq<string>, installed: set<string>)
    ensures ToInstall(a + [x] + b, installed) ==
      ToInstall(a, installed) + (if x in installed then [] else [x]) + ToInstall(b, installed)
    decreases |b|
  {
    var ax := a + [x];
    if b == [] {
      assert ax + b == ax;
      assert ax[..|ax| - 1] == a;
    } else {
      var init := b[..|b| - 1];
      ToInstallAt(a, x, init, installed);
      assert (ax + b)[..|ax + b| - 1] == ax + init;
      assert (ax + b)[|ax + b| - 1] == b[|b| - 1];
    }
  }
}
