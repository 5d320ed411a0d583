/**
 * `_analyse_wheel` and `main` of renamewheel: check the host platform, check that the wheel is
 * a file, ask the ABI analyzer for the wheel's overall policy, rename the wheel's basename to
 * carry that policy as its platform tag, and copy the wheel to the new name.
 *
 * The analyzer (auditwheel) is an input: what each of its three calls returns or raises.
 * The host is a value `HostState` (regular files with their bytes, existing directories,
 * lines printed on stdout) that the pure `Run` transforms; `Host` and `RunMain` are the same
 * steps written as statements on a mutable host.
 */
module RenameWheel {
  import opened Wrappers
  import PosixPath
  import WheelName
  import Strings

  type Bytes = seq<bv8>

  /** What `get_wheel_architecture` gives: an architecture, or one of the two exceptions `_analyse_wheel` catches. */
  datatype ArchProbe = Arch(arch: string) | ArchWheelToolsError | ArchNonPlatformWheel

  /** What `get_wheel_libc` gives: a C library, or the one exception `_analyse_wheel` catches. */
  datatype LibcProbe = Libc(libc: string) | LibcWheelToolsError

  /** What `analyze_wheel_abi` gives: an overall policy name, or `NonPlatformWheel` raised. */
  datatype Policy = PolicyName(name: string) | NonPlatformWheel

  /**
   * The analyzer as seen from one wheel: the two probes, and the policy computation as a
   * function of the (possibly unknown) libc and architecture it is handed.
   */
  datatype Analyzer = Analyzer(
    arch: ArchProbe,
    libc: LibcProbe,
    policy: (Option<string>, Option<string>) -> Policy)

  /** A failed architecture probe degrades to `None`, whichever exception it raised. */
  function ArchOrNone(p: ArchProbe): Option<string>
  {
    if p.Arch? then Some(p.arch) else None
  }

  /** A failed libc probe degrades to `None`. */
  function LibcOrNone(p: LibcProbe): Option<string>
  {
    if p.Libc? then Some(p.libc) else None
  }

  /** The policy computation, run on whatever the two probes produced. */
  function PolicyOf(az: Analyzer): Policy
  {
    az.policy(LibcOrNone(az.libc), ArchOrNone(az.arch))
  }

  /** `_analyse_wheel` returns either an int exit code or a tag string. */
  datatype Analysis = ExitCode(code: int) | Tag(tag: string)

  /** An analysis together with the lines it printed. */
  datatype Analysed = Analysed(result: Analysis, printed: seq<string>)

  const NotLinuxMessage: string := "Error: This tool only supports Linux"
  const NotPlatformWheelMessage: string := "This does not look like a platform wheel"

  function MissingFileMessage(wheelFile: string): string
  {
    "cannot access " + wheelFile + ". No such file"
  }

  function RenamingMessage(src: string, dst: string): string
  {
    "Renaming '" + src + "' to '" + dst + "'."
  }

  /**
   * `_analyse_wheel`: a missing file gives 2 before the analyzer is asked anything; probe
   * failures are not terminal; only the policy computation can give 3.
   */
  function AnalyseWheel(wheelFile: string, isFile: bool, az: Analyzer): (r: Analysed)
    ensures r.result == ExitCode(2) <==> !isFile
    ensures r.result == ExitCode(3) <==> isFile && PolicyOf(az).NonPlatformWheel?
    ensures r.result.Tag? ==> PolicyOf(az) == PolicyName(r.result.tag)
    ensures isFile && PolicyOf(az).PolicyName? ==> r == Analysed(Tag(PolicyOf(az).name), [])
    ensures r.result.ExitCode? ==> |r.printed| == 1
    ensures r.result.Tag? ==> r.printed == []
  {
    if !isFile then Analysed(ExitCode(2), [MissingFileMessage(wheelFile)])
    else match PolicyOf(az)
      case NonPlatformWheel => Analysed(ExitCode(3), [NotPlatformWheelMessage])
      case PolicyName(name) => Analysed(Tag(name), [])
  }

  /** The command line: the wheel path and the optional `-w/--working-dir`. */
  datatype Args = Args(wheelFile: string, workingDir: Option<string>)

  /** `if args.working_dir:` is Python truthiness: absent and empty are alike. */
  predicate HasWorkingDir(args: Args): (b: bool)
    ensures args.workingDir == None || args.workingDir == Some("") ==> !b
    ensures args.workingDir.Some? && args.workingDir.value != "" ==> b
  {
    args.workingDir.Some? && args.workingDir.value != ""
  }

  /** Where the renamed wheel goes: into the working directory if one is given, else beside the source. */
  function Destination(args: Args, renamed: string): (dst: string)
    ensures |renamed| <= |dst| && dst[|dst| - |renamed|..] == renamed
  {
    if HasWorkingDir(args) then PosixPath.Join(args.workingDir.value, renamed)
    else PosixPath.Join(PosixPath.Dirname(args.wheelFile), renamed)
  }

  /** The name of the renamed wheel, from the basename of the source path. */
  function NewFileName(args: Args, tag: string): (name: string)
    ensures |name| >= |WheelName.Extension| && name[|name| - |WheelName.Extension|..] == WheelName.Extension
    ensures '/' !in tag ==> '/' !in name
    ensures '-' !in PosixPath.Basename(args.wheelFile) ==> name == tag + WheelName.Extension
  {
    WheelName.RenamedFileName(PosixPath.Basename(args.wheelFile), tag)
  }

  /** The host: regular files and their contents, existing directories, stdout. */
  datatype HostState = HostState(files: map<string, Bytes>, dirs: set<string>, stdout: seq<string>)

  /** `print(line)` */
  function Printed(h: HostState, line: string): HostState
  {
    h.(stdout := h.stdout + [line])
  }

  /** The exceptions `shutil.copyfile` raises in this model. */
  datatype CopyError = SameFileError | FileNotFoundError | IsADirectoryError | NotADirectoryError

  /** The directory that would hold `path` exists (`""` is the current directory). */
  predicate ParentExists(h: HostState, path: string)
  {
    var d := PosixPath.Dirname(path);
    d == "" || d in h.dirs
  }

  /**
   * `shutil.copyfile(src, dst)`: a missing source, copying a file onto itself, a destination that
   * is a directory, lies under a regular file or in a missing directory raise; otherwise `dst`
   * gets the bytes of `src`.
   */
  function CopiedFile(h: HostState, src: string, dst: string): (r: Result<HostState, CopyError>)
    ensures r.Ok? <==> src in h.files && src != dst && dst !in h.dirs && ParentExists(h, dst)
    ensures src !in h.files ==> r == Err(FileNotFoundError)
    ensures src in h.files && src == dst ==> r == Err(SameFileError)
    ensures src in h.files && src != dst && dst in h.dirs ==> r == Err(IsADirectoryError)
    ensures (src in h.files && src != dst && dst !in h.dirs && !ParentExists(h, dst) &&
             PosixPath.Dirname(dst) !in h.files) ==> r == Err(FileNotFoundError)
    ensures r == Err(NotADirectoryError) <==>
              src in h.files && src != dst && dst !in h.dirs && !ParentExists(h, dst) &&
              PosixPath.Dirname(dst) in h.files
    ensures r.Ok? ==> r.value.dirs == h.dirs && r.value.stdout == h.stdout
    ensures r.Ok? ==> r.value.files.Keys == h.files.Keys + {dst} && r.value.files[dst] == h.files[src]
    ensures r.Ok? ==> forall p :: p in h.files && p != dst ==> r.value.files[p] == h.files[p]
  {
    if src !in h.files then Err(FileNotFoundError)
    else if src == dst then Err(SameFileError)
    else if dst in h.dirs then Err(IsADirectoryError)
    else if !ParentExists(h, dst) then
      if PosixPath.Dirname(dst) in h.files then Err(NotADirectoryError) else Err(FileNotFoundError)
    else Ok(h.(files := h.files[dst := h.files[src]]))
  }

  /** How `main` ends: it returns an exit code, or an exception from `copyfile` escapes it. */
  datatype Status = Returned(code: int) | Raised(error: CopyError)

  datatype Outcome = Outcome(status: Status, after: HostState)

  /**
   * `main`: the exit code (or escaping exception) and the host afterwards. It prints exactly one
   * line; only exit 0 touches the files, and the source wheel itself is never changed.
   */
  function Run(isLinux: bool, az: Analyzer, args: Args, h: HostState): (o: Outcome)
    ensures o.status.Returned? ==> 0 <= o.status.code <= 3
    ensures o.status != Returned(0) ==> o.after.files == h.files
    ensures o.after.dirs == h.dirs
    ensures |o.after.stdout| == |h.stdout| + 1 && o.after.stdout[..|h.stdout|] == h.stdout
    ensures args.wheelFile in h.files ==>
              args.wheelFile in o.after.files && o.after.files[args.wheelFile] == h.files[args.wheelFile]
  {
    if !isLinux then Outcome(Returned(1), Printed(h, NotLinuxMessage))
    else
      var a := AnalyseWheel(args.wheelFile, args.wheelFile in h.files, az);
      var h1 := h.(stdout := h.stdout + a.printed);
      match a.result
      case ExitCode(code) => Outcome(Returned(code), h1)
      case Tag(tag) =>
        var dst := Destination(args, NewFileName(args, tag));
        var h2 := Printed(h1, RenamingMessage(args.wheelFile, dst));
        match CopiedFile(h2, args.wheelFile, dst)
        case Ok(h3) => Outcome(Returned(0), h3)
        case Err(e) => Outcome(Raised(e), h2)
  }

  /**
   * The checks run in a fixed order: 1 exactly when the host is not Linux, 2 exactly when on
   * Linux the wheel is not a file, 3 exactly when on Linux with the file present the policy
   * computation rejects the wheel; otherwise the copy is attempted.
   */
  lemma ExitCodeOrder(isLinux: bool, az: Analyzer, args: Args, h: HostState)
    ensures var s := Run(isLinux, az, args, h).status;
            && (s == Returned(1) <==> !isLinux)
            && (s == Returned(2) <==> isLinux && args.wheelFile !in h.files)
            && (s == Returned(3) <==> isLinux && args.wheelFile in h.files && PolicyOf(az).NonPlatformWheel?)
            && (s == Returned(0) || s.Raised? <==>
                  isLinux && args.wheelFile in h.files && PolicyOf(az).PolicyName?)
  {
  }

  /** Off Linux nothing else is looked at: neither the analyzer, nor the arguments, nor the files. */
  lemma NotLinuxDecidesAlone(az1: Analyzer, az2: Analyzer, args1: Args, args2: Args, h: HostState)
    ensures Run(false, az1, args1, h) == Run(false, az2, args2, h)
    ensures Run(false, az1, args1, h) == Outcome(Returned(1), Printed(h, NotLinuxMessage))
  {
  }

  /** A missing wheel gives 2 before any analyzer call: the analyzer's answers do not matter. */
  lemma MissingFileBeforeAnalyzer(az1: Analyzer, az2: Analyzer, args: Args, h: HostState)
    requires args.wheelFile !in h.files
    ensures Run(true, az1, args, h) == Run(true, az2, args, h)
    ensures Run(true, az1, args, h).status == Returned(2)
  {
  }

  /**
   * A failed architecture probe never decides the outcome: either exception is the same as the
   * other, whatever the libc probe gave, and the policy computation is handed no architecture.
   */
  lemma ArchProbeFailureDegrades(isLinux: bool, az: Analyzer, arch: ArchProbe, args: Args, h: HostState)
    requires !az.arch.Arch? && !arch.Arch?
    ensures Run(isLinux, az, args, h) == Run(isLinux, az.(arch := arch), args, h)
    ensures PolicyOf(az) == az.policy(LibcOrNone(az.libc), None)
  {
  }

  /**
   * A failed libc probe never decides the outcome, whatever the architecture probe gave: the
   * policy computation is handed no libc.
   */
  lemma LibcProbeFailureDegrades(isLinux: bool, az: Analyzer, libc: LibcProbe, args: Args, h: HostState)
    requires !az.libc.Libc? && !libc.Libc?
    ensures Run(isLinux, az, args, h) == Run(isLinux, az.(libc := libc), args, h)
    ensures PolicyOf(az) == az.policy(None, ArchOrNone(az.arch))
  {
  }

  /**
   * Exit 0 means exactly one copy happened: the source file, left as it was, and a new file at the
   * planned destination holding the source's bytes.
   */
  lemma SuccessIsOneCopy(isLinux: bool, az: Analyzer, args: Args, h: HostState)
    requires Run(isLinux, az, args, h).status == Returned(0)
    ensures isLinux && args.wheelFile in h.files && PolicyOf(az).PolicyName?
    ensures var dst := Destination(args, NewFileName(args, PolicyOf(az).name));
            && dst != args.wheelFile
            && Run(isLinux, az, args, h).after.files == h.files[dst := h.files[args.wheelFile]]
  {
  }

  /**
   * Once the policy gives a name, the copy decides: exit 0 exactly when the destination differs
   * from the source, is not a directory, and lies in an existing directory; `SameFileError`
   * exactly when the destination is the source path itself.
   */
  lemma CopyDecides(isLinux: bool, az: Analyzer, args: Args, h: HostState)
    ensures var s := Run(isLinux, az, args, h).status;
            s == Returned(0) <==>
              && isLinux && args.wheelFile in h.files && PolicyOf(az).PolicyName?
              && var dst := Destination(args, NewFileName(args, PolicyOf(az).name));
                 dst != args.wheelFile && dst !in h.dirs && ParentExists(h, dst)
    ensures var s := Run(isLinux, az, args, h).status;
            s == Raised(SameFileError) <==>
              && isLinux && args.wheelFile in h.files && PolicyOf(az).PolicyName?
              && Destination(args, NewFileName(args, PolicyOf(az).name)) == args.wheelFile
  {
  }

  /** `copyfile` fails the same way whatever has been printed. */
  lemma CopyIgnoresStdout(h: HostState, out: seq<string>, src: string, dst: string)
    ensures var c := CopiedFile(h, src, dst);
            c.Err? ==> CopiedFile(h.(stdout := out), src, dst) == c
  {
  }

  /**
   * Once the policy gives a name, a copy that fails on the host as it was lets its exception escape
   * `main`: printing the two messages does not change what `copyfile` sees.
   */
  lemma CopyErrorEscapes(az: Analyzer, args: Args, h: HostState, e: CopyError)
    requires args.wheelFile in h.files && PolicyOf(az).PolicyName?
    requires CopiedFile(h, args.wheelFile, Destination(args, NewFileName(args, PolicyOf(az).name))) == Err(e)
    ensures Run(true, az, args, h).status == Raised(e)
  {
    var dst := Destination(args, NewFileName(args, PolicyOf(az).name));
    var a := AnalyseWheel(args.wheelFile, true, az);
    var h2 := Printed(h.(stdout := h.stdout + a.printed), RenamingMessage(args.wheelFile, dst));
    CopyIgnoresStdout(h, h2.stdout, args.wheelFile, dst);
    assert h2 == h.(stdout := h2.stdout);
  }

  /**
   * Copying into a directory that is missing (neither a directory nor a file) raises
   * `FileNotFoundError`, provided the source sits in an existing directory and no directory is
   * recorded inside the missing one, as on any consistent file system. The directory may be
   * spelled with trailing slashes (`out/`); it is named without them.
   */
  lemma CopyIntoMissingDir(h: HostState, src: string, wd: string, name: string)
    requires src in h.files && ParentExists(h, src)
    requires Strings.RStrip(wd, '/') != "" && '/' !in name
    requires Strings.RStrip(wd, '/') !in h.dirs && Strings.RStrip(wd, '/') !in h.files
    requires forall d :: d in h.dirs ==> PosixPath.Dirname(d) != Strings.RStrip(wd, '/')
    ensures CopiedFile(h, src, PosixPath.Join(wd, name)) == Err(FileNotFoundError)
  {
    var dst := PosixPath.Join(wd, name);
    assert PosixPath.Dirname(dst) == Strings.RStrip(wd, '/') by {
      PosixPath.DirnameOfJoinOntoStripped(wd, name);
    }
    assert !ParentExists(h, dst);
  }

  /**
   * A working directory that does not exist (neither a directory nor a file, once its trailing
   * slashes are dropped) is not checked: the copy into it raises `FileNotFoundError`, which
   * escapes `main`.
   */
  lemma MissingWorkingDirRaises(az: Analyzer, args: Args, h: HostState)
    requires args.wheelFile in h.files && ParentExists(h, args.wheelFile)
    requires PolicyOf(az).PolicyName? && '/' !in PolicyOf(az).name
    requires HasWorkingDir(args) && Strings.RStrip(args.workingDir.value, '/') != ""
    requires Strings.RStrip(args.workingDir.value, '/') !in h.dirs
    requires Strings.RStrip(args.workingDir.value, '/') !in h.files
    requires forall d :: d in h.dirs ==> PosixPath.Dirname(d) != Strings.RStrip(args.workingDir.value, '/')
    ensures Run(true, az, args, h).status == Raised(FileNotFoundError)
  {
    var name := NewFileName(args, PolicyOf(az).name);
    WorkingDirDestination(args, name);
    CopyIntoMissingDir(h, args.wheelFile, args.workingDir.value, name);
    CopyErrorEscapes(az, args, h, FileNotFoundError);
  }

  /** With a working directory, the destination is the new name joined onto it. */
  lemma WorkingDirDestination(args: Args, name: string)
    requires HasWorkingDir(args)
    ensures Destination(args, name) == PosixPath.Join(args.workingDir.value, name)
  {
  }

  /** The new file name depends only on the basename: `-` in the directory part never matters. */
  lemma NewNameIgnoresDirectory(dir: string, name: string, workingDir: Option<string>, tag: string)
    requires '/' !in name
    ensures NewFileName(Args(PosixPath.Join(dir, name), workingDir), tag) == WheelName.RenamedFileName(name, tag)
  {
    PosixPath.BasenameOfJoin(dir, name);
  }

  /** The destination's basename is the new file name, wherever it goes. */
  lemma DestinationFileName(args: Args, renamed: string)
    requires '/' !in renamed
    ensures PosixPath.Basename(Destination(args, renamed)) == renamed
  {
    if HasWorkingDir(args) {
      PosixPath.BasenameOfJoin(args.workingDir.value, renamed);
    } else {
      PosixPath.BasenameOfJoin(PosixPath.Dirname(args.wheelFile), renamed);
    }
  }

  /**
   * Without a working directory (absent or empty) the renamed wheel stays in the source's
   * directory.
   */
  lemma DestinationBesideSource(args: Args, renamed: string)
    requires '/' !in renamed
    requires !HasWorkingDir(args)
    ensures PosixPath.Dirname(Destination(args, renamed)) == PosixPath.Dirname(args.wheelFile)
    ensures Destination(args, renamed) == Destination(Args(args.wheelFile, None), renamed)
    ensures Destination(args, renamed) == Destination(Args(args.wheelFile, Some("")), renamed)
  {
    var dst := PosixPath.Join(PosixPath.Dirname(args.wheelFile), renamed);
    assert Destination(args, renamed) == dst;
    assert Destination(Args(args.wheelFile, None), renamed) == dst;
    assert Destination(Args(args.wheelFile, Some("")), renamed) == dst;
    PosixPath.DirnameOfJoin(args.wheelFile, renamed);
  }

  /**
   * Running `main` a second time with the same arguments and the same analyzer answers ends the
   * same way and leaves the files as the first run left them.
   */
  lemma RerunLeavesFilesAlone(isLinux: bool, az: Analyzer, args: Args, h: HostState)
    ensures var first := Run(isLinux, az, args, h);
            var second := Run(isLinux, az, args, first.after);
            second.status == first.status && second.after.files == first.after.files
  {
  }

  /** A source path that is a bare file name, with no working directory, is renamed within the current directory. */
  lemma BareNameStaysPut(wheel: string, renamed: string)
    requires '/' !in wheel
    ensures Destination(Args(wheel, None), renamed) == renamed
  {
  }

  /**
   * Without a working directory, a wheel at `join(dir, name)` whose name the rename leaves as it
   * is has itself as destination, for `dir` spelled as `dirname` spells directories.
   */
  lemma InPlaceDestination(dir: string, name: string, tag: string)
    requires dir == "" || PosixPath.AllSlashes(dir) || dir[|dir| - 1] != '/'
    requires '/' !in name && WheelName.RenamedFileName(name, tag) == name
    ensures var args := Args(PosixPath.Join(dir, name), None);
            Destination(args, NewFileName(args, tag)) == PosixPath.Join(dir, name)
  {
    var args := Args(PosixPath.Join(dir, name), None);
    assert NewFileName(args, tag) == name by {
      NewNameIgnoresDirectory(dir, name, None, tag);
    }
    assert PosixPath.Dirname(args.wheelFile) == dir by {
      PosixPath.DirnameOfJoinOnto(dir, name);
    }
    SourceDirDestination(args, name);
  }

  /** Without a working directory, the destination is the new name joined onto the source's dirname. */
  lemma SourceDirDestination(args: Args, name: string)
    requires !HasWorkingDir(args)
    ensures Destination(args, name) == PosixPath.Join(PosixPath.Dirname(args.wheelFile), name)
  {
  }

  /**
   * A wheel whose name already carries the computed tag, renamed in place, is copied onto itself:
   * `copyfile` raises `SameFileError`, which escapes `main`. The wheel may sit in any directory
   * (`dist/foo-1.0-py3-none-tag.whl`), spelled without a trailing slash.
   */
  lemma AlreadyTaggedRaises(az: Analyzer, dir: string, kept: string, tag: string, h: HostState)
    requires dir == "" || PosixPath.AllSlashes(dir) || dir[|dir| - 1] != '/'
    requires kept == "" || kept[|kept| - 1] == '-'
    requires '-' !in tag && '/' !in kept + tag
    requires PolicyOf(az) == PolicyName(tag)
    requires PosixPath.Join(dir, kept + tag + WheelName.Extension) in h.files
    ensures Run(true, az, Args(PosixPath.Join(dir, kept + tag + WheelName.Extension), None), h).status
              == Raised(SameFileError)
  {
    var name := kept + tag + WheelName.Extension;
    var args := Args(PosixPath.Join(dir, name), None);
    assert Destination(args, NewFileName(args, tag)) == args.wheelFile by {
      assert '/' !in name by {
        assert '/' !in WheelName.Extension;
      }
      WheelName.AlreadyTagged(kept, tag);
      InPlaceDestination(dir, name, tag);
    }
    assert CopiedFile(h, args.wheelFile, args.wheelFile) == Err(SameFileError);
    CopyErrorEscapes(az, args, h, SameFileError);
  }

  /** The host on which `main` runs its effects. */
  class Host {
    var files: map<string, Bytes>
    var dirs: set<string>
    var stdout: seq<string>

    constructor (s: HostState)
      ensures State() == s
    {
      files, dirs, stdout := s.files, s.dirs, s.stdout;
    }

    function State(): HostState
      reads this
    {
      HostState(files, dirs, stdout)
    }

    predicate IsFile(path: string)
      reads this
    {
      path in files
    }

    method Print(line: string)
      modifies this
      ensures State() == Printed(old(State()), line)
    {
      stdout := stdout + [line];
    }

    /** `shutil.copyfile`: either the copy is made, or the host is unchanged and the error is returned. */
    method CopyFile(src: string, dst: string) returns (err: Option<CopyError>)
      modifies this
      ensures CopiedFile(old(State()), src, dst).Ok? ==>
                err == None && State() == CopiedFile(old(State()), src, dst).value
      ensures CopiedFile(old(State()), src, dst).Err? ==>
                err == Some(CopiedFile(old(State()), src, dst).error) && State() == old(State())
    {
      var r := CopiedFile(State(), src, dst);
      if r.Ok? {
        files := r.value.files;
        err := None;
      } else {
        err := Some(r.error);
      }
    }
  }

  /** `_analyse_wheel` as written: early returns around the file check and the policy call. */
  method AnalyseWheelOn(host: Host, wheelFile: string, az: Analyzer) returns (r: Analysis)
    modifies host
    ensures var a := AnalyseWheel(wheelFile, wheelFile in old(host.files), az);
            r == a.result && host.State() == old(host.State()).(stdout := old(host.stdout) + a.printed)
  {
    if !host.IsFile(wheelFile) {
      host.Print(MissingFileMessage(wheelFile));
      return ExitCode(2);
    }
    var arch := ArchOrNone(az.arch);
    var libc := LibcOrNone(az.libc);
    var winfo := az.policy(libc, arch);
    if winfo.NonPlatformWheel? {
      host.Print(NotPlatformWheelMessage);
      return ExitCode(3);
    }
    return Tag(winfo.name);
  }

  /** `main` as written, on a mutable host; it ends exactly as `Run` says. */
  method RunMain(host: Host, isLinux: bool, az: Analyzer, args: Args) returns (status: Status)
    modifies host
    ensures Outcome(status, host.State()) == Run(isLinux, az, args, old(host.State()))
  {
    if !isLinux {
      host.Print(NotLinuxMessage);
      return Returned(1);
    }
    var tag := AnalyseWheelOn(host, args.wheelFile, az);
    if tag.ExitCode? {
      return Returned(tag.code);
    }
    var fileName := PosixPath.Basename(args.wheelFile);
    var renamedFileName := WheelName.RenameWheelFile(fileName, tag.tag);
    var renamedWheelFile := Destination(args, renamedFileName);
    host.Print(RenamingMessage(args.wheelFile, renamedWheelFile));
    var err := host.CopyFile(args.wheelFile, renamedWheelFile);
    if err.Some? {
      return Raised(err.value);
    }
    return Returned(0);
  }
}
