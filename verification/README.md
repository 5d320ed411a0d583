# renamewheel, modelled in Dafny

renamewheel renames a Linux Python wheel so that the platform tag in its file name is the
overall policy that auditwheel computes for the wheel's compiled code. This project models the
one module with logic, `src/renamewheel/main.py`, in three parts:

- **Wheel file name rewrite** (`WheelName`, with `Strings`): the basename is split on `-`, its
  last field (old platform tag plus old extension) is overwritten by the tag, and the fields are
  joined with `-` and `.whl` appended. This follows the wheel file-name convention of PEP 427
  ("File name convention") without checking it. The method `RenameWheelFile` does exactly these
  steps. It is proved equal to `RenamedFileName`, which is defined independently: the name up to
  and including its last `-`, then the tag, then `.whl`.
- **Destination** (`PosixPath`, `RenameWheel.Destination`): `join(working_dir, name)` when the
  working directory is truthy, else `join(dirname(source), name)`. `basename`, `dirname` and
  `join` follow Python's `posixpath` on plain strings.
- **Outcome** (`RenameWheel`): `_analyse_wheel` and `main`. The analyzer is an input: what
  `get_wheel_architecture` and `get_wheel_libc` return or raise, and `analyze_wheel_abi` as a
  function of the (possibly unknown) libc and architecture. The host is a value `HostState`
  (regular files with their bytes, existing directories, printed lines). The pure function
  `Run` gives main's exit code, or the exception escaping it, together with the host afterwards.
  `Host` and `RunMain` are the same early-return sequence written as statements on a mutable
  host, and are proved to end exactly as `Run` says.

Exit codes as the code has them: 1 not Linux, 2 wheel is not a file, 3 `NonPlatformWheel`
from the policy computation, 0 after one copy. The model follows `main.py` where the tests
say otherwise:
- There is no `-v` flag and there is no exit 4.
- Messages are the code's own `print` texts, and they are printed unconditionally.
- When the new path equals the source path (a wheel that already carries its tag, renamed in
  place), `main.py` has no "doing nothing" path. `shutil.copyfile` raises `SameFileError`,
  which escapes `main` instead of an exit code (`AlreadyTaggedRaises`, `CopyDecides`).
- A missing output directory is not checked. `copyfile` raises `FileNotFoundError` instead
  (`MissingWorkingDirRaises`), or `NotADirectoryError` when the output directory's path names a
  regular file.

## Model

| member | source | states |
|---|---|---|
| Strings.Split | src/renamewheel/main.py:58 | `str.split("-")`: at least one part, and no part contains the separator |
| Strings.JoinSplit | src/renamewheel/main.py:58-60 | joining the parts of a split with the separator gives back the string |
| Strings.SplitJoin | src/renamewheel/main.py:58-60 | splitting a join of separator-free parts gives back the parts (the other round trip) |
| Strings.RFindOfAppend | src/renamewheel/main.py:58-60 | in `x + y`, where `x` is empty or ends with the character and `y` lacks it, the last occurrence is the end of `x` (the last `-` of a renamed name, the last `/` of a joined path) |
| Strings.JoinCountsSeparators | src/renamewheel/main.py:60 | `"-".join(parts)` of separator-free parts holds exactly one separator per pair of neighbours, `len(parts) - 1` in all |
| Strings.SplitReplaceLast | src/renamewheel/main.py:58-60 | overwriting the last part of a split and joining keeps the string up to and including its last separator, then the new part |
| PosixPath.Basename | src/renamewheel/main.py:56 | the basename is the slash-free suffix of the path that follows its last slash (or the whole path) |
| PosixPath.Dirname | src/renamewheel/main.py:65 | the dirname is a prefix of the path and empty for a bare name; it is empty, all slashes, or does not end in a slash |
| PosixPath.DirnameStripsSlashes | src/renamewheel/main.py:65 | for a path with a slash, the dirname is non-empty, no longer than the part up to the last slash, and only slashes are cut off that part (`dirname("a//b") == "a"`) |
| PosixPath.DirnameOfSlashRun | src/renamewheel/main.py:65 | when the part up to the last slash is all slashes, the dirname is all of it (`dirname("//b") == "//"`) |
| PosixPath.Join | src/renamewheel/main.py:63-65 | the joined path ends with the second argument; an absolute second argument replaces the first; otherwise the result is exactly the first, then one slash when the first is non-empty and does not end in a slash (none when it is empty or ends in one), then the second |
| PosixPath.BareName | src/renamewheel/main.py:56-65 | a path without slashes is its own basename, has an empty dirname, and `join("", p)` is `p` |
| PosixPath.BasenameOfJoin | src/renamewheel/main.py:63-65 | a slash-free name joined onto any directory is the basename of the result |
| PosixPath.DirnameOfJoin | src/renamewheel/main.py:65 | joining a name onto `dirname(p)` gives a path whose dirname is `dirname(p)` again |
| PosixPath.DirnameOfJoinOnto | src/renamewheel/main.py:63-65 | a slash-free name joined onto a directory that is empty, all slashes or does not end in a slash has that directory as dirname |
| PosixPath.DirnameOfJoinOntoStripped | src/renamewheel/main.py:63 | a slash-free name joined onto a directory with trailing slashes has the directory without them as dirname (`dirname(join("out/", n)) == "out"`) |
| PosixPath.JoinDirnameBasename | src/renamewheel/main.py:56-65 | `join(dirname(p), basename(p)) == p` when the last slash of `p` is not doubled or everything up to it is slashes |
| WheelName.RenamedFileName | src/renamewheel/main.py:58-60 | the new name always ends with `.whl`; a name with no `-` becomes exactly `tag + ".whl"`; a slash-free name and tag give a slash-free name |
| WheelName.RenameWheelFile | src/renamewheel/main.py:58-60 | split on `-`, overwrite the last field with the tag, join, append `.whl`: equals `RenamedFileName` |
| WheelName.KeepsThroughLastDash | src/renamewheel/main.py:58-60 | a name with a `-` keeps everything up to and including its last `-` verbatim; only what follows is replaced by the tag and `.whl` |
| WheelName.AlreadyTagged | src/renamewheel/main.py:58-60 | a name that already ends with `-`, a dash-free tag and `.whl` is renamed to itself |
| WheelName.RenameIdempotent | src/renamewheel/main.py:58-60 | for a tag without `-`, renaming the output again with the same tag changes nothing |
| RenameWheel.AnalyseWheel | src/renamewheel/main.py:21-42 | 2 exactly when the wheel is not a file; 3 exactly when the file is present and the policy computation raises `NonPlatformWheel`; a present file whose policy gives a name yields that name as the tag; an error prints one line, a tag prints nothing |
| RenameWheel.HasWorkingDir | src/renamewheel/main.py:62 | Python truthiness of `args.working_dir`: absent and empty are false, any non-empty string is true |
| RenameWheel.NewFileName | src/renamewheel/main.py:56-60 | the new name ends with `.whl`; it is slash-free when the tag is; a source basename without `-` gives exactly `tag + ".whl"` |
| RenameWheel.Destination | src/renamewheel/main.py:62-65 | the destination path ends with the new file name, whichever branch is taken |
| RenameWheel.CopiedFile | src/renamewheel/main.py:68 | `copyfile` succeeds exactly when the source is a file, differs from the destination, and the destination is not a directory and lies in an existing one; then only the destination changes, and it gets the source's bytes; a missing source raises `FileNotFoundError`, the same path `SameFileError`, a directory destination `IsADirectoryError`, a parent that is a regular file exactly `NotADirectoryError`, and a missing parent directory that is not a regular file `FileNotFoundError` |
| RenameWheel.Run | src/renamewheel/main.py:45-69 | exit codes are 0 to 3; only exit 0 changes the files; directories never change; exactly one line is printed; the source wheel is never changed |
| RenameWheel.ExitCodeOrder | src/renamewheel/main.py:45-54 | 1 iff not Linux; 2 iff on Linux the wheel is not a file; 3 iff on Linux with the file present the policy raises `NonPlatformWheel`; otherwise a copy is attempted |
| RenameWheel.NotLinuxDecidesAlone | src/renamewheel/main.py:46-48 | off Linux the outcome (1, one message, files untouched) does not depend on the analyzer, the arguments or the files |
| RenameWheel.MissingFileBeforeAnalyzer | src/renamewheel/main.py:22-24 | a missing wheel gives 2 whatever the analyzer would answer |
| RenameWheel.ArchProbeFailureDegrades | src/renamewheel/main.py:26-29 | whatever the libc probe gave, either exception of the architecture probe gives the same outcome, and the policy computation gets no architecture |
| RenameWheel.LibcProbeFailureDegrades | src/renamewheel/main.py:31-34 | whatever the architecture probe gave, a failed libc probe gives the same outcome, and the policy computation gets no libc |
| RenameWheel.SuccessIsOneCopy | src/renamewheel/main.py:53-69 | exit 0 means Linux, the wheel is a file, the policy gave a name, and the files afterwards are the old ones plus exactly one copy of the wheel at the planned destination, which differs from the source |
| RenameWheel.CopyDecides | src/renamewheel/main.py:52-69 | exit 0 exactly when on Linux the wheel is a file, the policy gives a name, and the destination differs from the source, is not a directory and lies in an existing directory; `SameFileError` escapes exactly when the destination is the source path |
| RenameWheel.CopyErrorEscapes | src/renamewheel/main.py:67-68 | once the policy gives a name, a copy that fails on the host as it was raises the same exception out of `main`: the printed lines do not affect `copyfile` |
| RenameWheel.CopyIntoMissingDir | src/renamewheel/main.py:62-68 | copying into a directory that, without its trailing slashes, is neither a directory nor a regular file raises `FileNotFoundError`, when the source sits in an existing directory and nothing is recorded inside the missing one |
| RenameWheel.MissingWorkingDirRaises | src/renamewheel/main.py:62-68 | on Linux with a tag, a working directory (`out` or `out/`) that exists neither as a directory nor as a file is not checked: `FileNotFoundError` escapes `main` |
| RenameWheel.NewNameIgnoresDirectory | src/renamewheel/main.py:56-58 | the new file name depends only on the basename, so `-` in the directory part never affects it |
| RenameWheel.DestinationFileName | src/renamewheel/main.py:62-65 | the destination's basename is the new file name, with or without a working directory |
| RenameWheel.DestinationBesideSource | src/renamewheel/main.py:62-65 | without a working directory, or with an empty one (both alike), the destination is in the source's directory |
| RenameWheel.BareNameStaysPut | src/renamewheel/main.py:64-65 | a bare source file name without a working directory is renamed within the current directory: the destination is exactly the new name |
| RenameWheel.RerunLeavesFilesAlone | src/renamewheel/main.py:45-69 | a second run with the same arguments and analyzer answers ends the same way and leaves the files as the first run did |
| RenameWheel.InPlaceDestination | src/renamewheel/main.py:56-65 | without a working directory, a wheel at `join(dir, name)` whose name the rename keeps has itself as destination |
| RenameWheel.AlreadyTaggedRaises | src/renamewheel/main.py:56-68 | a wheel already named with its computed tag, at `join(dir, name)` for any directory spelled without a trailing slash (`dist/foo-1.0-py3-none-tag.whl`, or a bare name), renamed in place is copied onto itself, so `copyfile` raises `SameFileError` out of `main` |
| RenameWheel.Host.Print | src/renamewheel/main.py:67 | `print` appends one line to stdout and changes nothing else |
| RenameWheel.Host.CopyFile | src/renamewheel/main.py:68 | the host becomes what `CopiedFile` says, or stays unchanged and the error is returned |
| RenameWheel.AnalyseWheelOn | src/renamewheel/main.py:21-42 | the early-return `_analyse_wheel` returns what `AnalyseWheel` says and prints its lines |
| RenameWheel.RunMain | src/renamewheel/main.py:45-69 | the early-return `main` ends with the status and host that `Run` gives |

## Left out

- Argument parsing (`argparse`, main.py:13-18, 50): the wheel path and `--working-dir` are parameters. A missing argument's `SystemExit` is not modelled.
- auditwheel (`get_wheel_architecture`, `get_wheel_libc`, `analyze_wheel_abi`) is foreign code. Its answers are inputs. Exceptions that `_analyse_wheel` does not catch would escape `main`; they are not modelled.
- `sys.platform` is a boolean input.
- Path aliasing is not modelled. `shutil.copyfile` compares files by inode (`samefile`), while the model compares path strings. A destination that reaches the source under another spelling (`./x.whl`, a symlink, a hard link) raises `SameFileError` in Python but copies in the model.
- Paths are not normalised: `HostState` names files and directories by the exact strings that `dirname` and `join` produce.
- `copyfile` errors other than a missing source, the same file, a directory destination, a parent that is a regular file and a missing parent directory are not modelled. That covers permissions, special files, and a copy interrupted partway.
- RenameWheel.CopiedFile: only the destination's own parent is checked for being a regular file. A regular file further up the path (`out/sub/x.whl` with `out` a file) raises `NotADirectoryError` in Python but `FileNotFoundError` in the model, because `HostState` keeps files and directories as unrelated sets of path strings.
- RenameWheel.CopiedFile: a source that is a directory gets `FileNotFoundError` (it is not in `files`), whereas `copyfile` raises `IsADirectoryError`, or `SameFileError` onto itself. `main` never gets there: main.py:21-23 returns 2 unless the wheel is a regular file.
- When the module runs as a script, `main()`'s return value is discarded (main.py:72-73). The model gives `main`'s return value, not the process exit status.
- Behaviour that only the tests describe is not in `main.py` and is not modelled: a `-v` flag and its messages, exit 4 for a missing output directory, the "doing nothing" path, and lower-casing the distribution name.
- Architecture and libc values are opaque strings handed to the policy function; auditwheel's enumerations are not modelled.
