# dpu-test-framework: the manifest interpreter, the control-file reader and the tarball names

This project models three parts of the Debian Package Utility test framework,
written in Dafny, and proves properties of them.

- **The manifest interpreter** (`dpu/manifest.py`) has two passes.
  - `parse_manifest` reads a manifest line by line, one command per line:
    `contains-file`, `contains-dir`, `contains-symlink`, `not-present`,
    `link-target`, `perm`. Each command is one entry of the `COMMANDS`
    table, and its handler updates the dictionary of expectations in place.
  - `Manifest.check_tarball` then replays the members of an archive in
    stream order against that dictionary.
- **The control-file reader** (`dpu/control.py`) is `parse_control`. It
  reads files in the style of a Debian control file: key lines, and
  continuation lines that start with a space.
- **The compression names of `dpu/tarball.py`**:
  - `_determine_compression` guesses a compression from a file name;
  - `_open_writeable_tarfile` picks the file name and `tarfile` mode for a
    compression;
  - `make_orig_tarball` names the upstream tarball and its directory.

## How the model is built

Files and modules:

- `wrappers.dfy`: `Option`, `Result` and `Outcome`.
- `pystr.dfy`: the Python 2 string operations the core uses.
  - `lstrip`, `strip`, `lstrip(chars)`;
  - `split(None, n)` and `split(sep, n)`;
  - `lower` in the C locale, `replace(…, 1)`, and `int(x, 8)`.
- `py2_order.dfy`: the Python 2 order on dictionary keys, in which `None`
  comes before every string, and `sorted(s)[0]` as the least key.
- `manifest_types.dfy`: the per-path record and the archive member.
  - A record is the inner dictionary, with one `Option` field per key it
    may hold.
  - The dictionary keys are `Option<string>`, because `link-target` with no
    current entry stores under `None`.
  - It also holds the errors both passes raise.
- `manifest_handlers.dfy`: the handlers, given twice:
  - as functions on the dictionary's value (`ContainsX`, `NotPresent`,
    `LinkTarget`, `Perm`, …);
  - as methods of the class `EntryTable`, which holds the `data`
    dictionary and updates one record step by step as the Python does.
  Each method is proved to leave exactly the state and the result its
  function describes. That includes the partial updates a handler makes
  before it raises.
- `manifest_parse.dfy`: `ParseFrom`, the specification of the line loop,
  and the method `ParseManifest` that runs the loop over an `EntryTable`.
- `manifest_check.dfy`: `__normname`, `__check_tar_entry`, the member loop
  and the class `Manifest` with the method `CheckTarball`.
- `manifest_handler_props.dfy`, `manifest_check_props.dfy`: the properties
  of both passes.
- `control.dfy`: `parse_control` as a loop over the lines of the file, and
  its properties.
- `tarball.dfy`: POSIX `os.path.splitext` and `os.path.join`, and the
  naming functions with their round trip.

Behaviours of the code that the model keeps as written and states as lemmas:

- **The parse loop splits a line into at most three fields, and hands only
  the second to the handler.** So `link-target <target> <path>` in a file
  acts on the last entry, and never on `<path>`. Likewise
  `perm <mode> <owner> <path>` reaches `_parse_perm` as `perm <mode>`.
  See `ManifestParse.ThirdTokenDropped` and
  `ManifestParse.LinkTargetPathDropped`.
- **`_split_usergroup` refuses `user:group`.** It unpacks
  `value.split(":", 2)` into three names, so it accepts only `user:group:`.
  Its `/` fallback never succeeds either. In any case an owner is refused
  with `NotImplementedError` once the mode has been stored.
- **A relative member name loses every leading `.` and `/`.** So
  `./.profile` is looked up as `profile`. A name starting with `/` is kept,
  and `.` and `./` name the archive root, which is never looked up.
- **A record stored under `None` can never be seen by a member.** It is the
  least key, so it is the missing entry reported first.
- **In a control file the line ` .\n` stands for an empty line.** A
  continuation line whose text is a lone `.` with other spacing adds `.`.
- **Key lines keep the spacing of their key.** Only the value is stripped.
- **`del ret[None]` in `parse_control` is dead code.** The key is `None`
  only before the first key line, and a continuation line there raises the
  `KeyError` of `ret[None]` first. So the model's dictionary has string
  keys, and `Control.ContinuationWithoutKeyIff` states exactly when the
  error is raised.
- **`_determine_compression` guesses back the compression of the file
  `_open_writeable_tarfile` writes for the base name `b` exactly when the
  last path component of `b` has a character other than `.`.** That is
  how `os.path.splitext` handles leading dots. Orig tarballs always meet
  the condition.

Inputs that come from outside are parameters:

- the lines of the manifest or control file;
- the archive members, in stream order;
- the `ignore_case` flag;
- the `compression` and `outputdir` arguments, whose defaults are supplied
  by the caller.

## Model

| member | source | states |
|---|---|---|
| ManifestHandlers.Mention | dpu/manifest.py:11-14 | the entry gets a record, an empty one when new; no other record changes |
| ManifestHandlers.SplitUserGroup | dpu/manifest.py:17-26 | the colon unpacking, then the slash fallback; its behaviour is stated by `HandlerProps.SplitUserGroupNeedsTrailingColon` and `HandlerProps.SplitUserGroupSlashFails` |
| ManifestHandlers.PresentStep | dpu/manifest.py:29-33 | `__is_present` on a record value; stated by `HandlerProps.PresentStepSpec` |
| ManifestHandlers.FileTypeStep | dpu/manifest.py:36-46 | `__is_file_type` on a record value; stated by `HandlerProps.FileTypeStepSpec` |
| ManifestHandlers.LinkTargetArgs | dpu/manifest.py:49-58 | the target and entry of `link-target`; stated by `HandlerProps.LinkTargetEntry` and `HandlerProps.LinkTargetArity` |
| ManifestHandlers.LinkTarget | dpu/manifest.py:48-66 | `__parse_link_target` on the dictionary's value; stated by `HandlerProps.LinkTargetSucceedsIff`, `LinkTargetFrame` and `LinkTargetArity` |
| ManifestHandlers.SetLinkTarget | dpu/manifest.py:60-66 | the second half of `__parse_link_target`; stated by `HandlerProps.SetLinkTargetExtends` |
| ManifestHandlers.NotPresent | dpu/manifest.py:69-75 | `__parse_not_present` on the dictionary's value; stated by `HandlerProps.NotPresentSucceedsIff` and `SingleArgArity` |
| ManifestHandlers.ContainsX | dpu/manifest.py:78-85 | `__parse_contains_X` on the dictionary's value; stated by `HandlerProps.ContainsXSucceedsIff` and `SingleArgArity` |
| ManifestHandlers.PermArgs | dpu/manifest.py:92-103 | the argument reading of `_parse_perm`; stated by `HandlerProps.PermArgsSpec` |
| ManifestHandlers.Perm | dpu/manifest.py:87-121 | `_parse_perm` on the dictionary's value; stated by `HandlerProps.PermSucceedsIff` and `PermFrame` |
| ManifestHandlers.SetPerm | dpu/manifest.py:105-121 | the second half of `_parse_perm`; stated by `HandlerProps.SetPermFrame`, `SetPermExtends` and `SetPermOwnerFails` |
| ManifestHandlers.Commands | dpu/manifest.py:127-138 | the `COMMANDS` table; stated by `HandlerProps.KnownCommands` |
| ManifestHandlers.Handle | dpu/manifest.py:153 | the call of the table's handler; stated by `HandlerProps.HandlerFrame`, `HandlerOnlyAddsAttributes` and `HandlerKeepsTableInvariant` |
| ManifestHandlers.EntryTable.GetEdata | dpu/manifest.py:11-14 | the dictionary afterwards is the one with a record for the entry |
| ManifestHandlers.EntryTable.IsPresent | dpu/manifest.py:29-33 | a presence flag that differs raises a conflict and leaves the record alone; otherwise the flag is recorded |
| ManifestHandlers.EntryTable.IsFileType | dpu/manifest.py:36-46 | presence, then a type conflict, then the symlink-with-mode clash, keeping the type it stored before raising |
| ManifestHandlers.EntryTable.ParseLinkTarget | dpu/manifest.py:48-66 | one or two arguments; the new state and result, including the records changed before an error |
| ManifestHandlers.EntryTable.ParseNotPresent | dpu/manifest.py:69-75 | exactly one argument; records the path not present and hands on no entry |
| ManifestHandlers.EntryTable.ParseContainsX | dpu/manifest.py:78-85 | exactly one argument; records presence and the type named by the command |
| ManifestHandlers.EntryTable.ReadPermArgs | dpu/manifest.py:92-103 | reads the argument as `PermArgs` does, whose cases `HandlerProps.PermArgsSpec` states |
| ManifestHandlers.EntryTable.StorePerm | dpu/manifest.py:105-121 | presence, then refusal on a symlink, a mode conflict, and the owner refused after the mode is stored |
| ManifestHandlers.EntryTable.ParsePerm | dpu/manifest.py:87-121 | the whole of `_parse_perm`, as its two halves |
| ManifestHandlers.EntryTable.NotImplementedHandlerCall | dpu/manifest.py:124-125 | the command is refused as not implemented |
| ManifestHandlers.EntryTable.Dispatch | dpu/manifest.py:127-138 | each handler of the table acts as its function says |
| HandlerProps.PresentStepSpec | dpu/manifest.py:29-33 | the flag can be set exactly when it is unset or equal; a conflict changes nothing |
| HandlerProps.FileTypeStepSpec | dpu/manifest.py:36-46 | the type step succeeds exactly when presence, type and mode allow it, and never changes a set attribute |
| HandlerProps.ContainsXSucceedsIff | dpu/manifest.py:78-85 | `contains-X` succeeds iff there is one argument and the record can be typed X; the new dictionary on success |
| HandlerProps.NotPresentSucceedsIff | dpu/manifest.py:69-75 | `not-present` succeeds iff there is one argument and the path was never declared present; the new dictionary |
| HandlerProps.LinkTargetSucceedsIff | dpu/manifest.py:48-66 | `link-target` succeeds iff it has one or two arguments, the entry can be a symlink and any earlier target agrees |
| HandlerProps.PermSucceedsIff | dpu/manifest.py:87-121 | `perm` succeeds iff its arguments parse, there is no owner, the entry is not a symlink and any earlier mode agrees |
| HandlerProps.PermWithOwnerFails | dpu/manifest.py:97-98 | two or three arguments always fail, whatever the owner |
| HandlerProps.PermArgsOwner | dpu/manifest.py:97-98 | two or three arguments that parse carry an owner |
| HandlerProps.SetPermOwnerFails | dpu/manifest.py:115-119 | an owner is refused |
| HandlerProps.PermArgsSpec | dpu/manifest.py:92-103 | a read request has one to three fields, the octal mode of the first, an owner iff there is a second, and the third field or the last entry as its entry; no argument or a wrong field count is the arity error, a non-octal mode the mode error, and no entry at all an error |
| HandlerProps.LinkTargetArity | dpu/manifest.py:51-58 | no argument, or none or more than two fields, is the arity error with the dictionary unchanged |
| HandlerProps.SingleArgArity | dpu/manifest.py:70-71 | `not-present` and `contains-X` without exactly one argument raise the arity error with the dictionary unchanged |
| HandlerProps.KnownCommands | dpu/manifest.py:127-138 | the table has exactly the nine commands, three of them not implemented |
| HandlerProps.PermOneArgument | dpu/manifest.py:94-96 | a `perm` without an owner applies to the last entry |
| PyStr.OctalLeadingZero | dpu/manifest.py:95 | `int(x, 8)` ignores leading zeros: mode `0644` is mode `644` |
| HandlerProps.SplitUserGroupNeedsTrailingColon | dpu/manifest.py:17-21 | `user:group` fails to unpack, while `user:group:` gives (user, group) |
| HandlerProps.SplitUserGroupSlashFails | dpu/manifest.py:21-25 | every accepted value has a non-empty group from the colon split, so the slash form never succeeds |
| HandlerProps.LinkTargetEntry | dpu/manifest.py:49-56 | `link-target` acts on the path its second argument names, or on the last entry |
| HandlerProps.PermEntry | dpu/manifest.py:96-100 | `perm` acts on the path its third argument names, or on the last entry |
| HandlerProps.LinkTargetFrame | dpu/manifest.py:48-66 | no record but that of the named entry changes; success returns that entry |
| HandlerProps.PermFrame | dpu/manifest.py:87-121 | no record but that of the named entry changes; success returns that entry |
| HandlerProps.SetPermFrame | dpu/manifest.py:105-121 | no record but that of the request's entry changes |
| HandlerProps.HandlerFrame | dpu/manifest.py:48-138 | every command changes only the record of the entry it names, and hands that entry on (`not-present` hands on `None`) |
| HandlerProps.SetLinkTargetExtends | dpu/manifest.py:60-65 | storing a target never removes or changes a set attribute |
| HandlerProps.SetPermExtends | dpu/manifest.py:105-113 | storing a mode never removes or changes a set attribute |
| HandlerProps.HandlerOnlyAddsAttributes | dpu/manifest.py:11-138 | whatever the outcome, even an error, no record is removed and no set attribute changes |
| HandlerProps.HandlerIdempotent | dpu/manifest.py:48-138 | repeating a successful command gives the same dictionary and result |
| HandlerProps.PermBlocksSymlink | dpu/manifest.py:45-46 | a path with a mode cannot become a symlink |
| HandlerProps.SymlinkBlocksPerm | dpu/manifest.py:108-109 | a symlink cannot be given a mode |
| HandlerProps.SymlinkAfterPermKeepsType | dpu/manifest.py:36-46 | `contains-symlink` on a path with a mode stores the type, then raises |
| HandlerProps.EntryTypeOfCommand | dpu/manifest.py:79 | the table's `contains-X` commands store the known type X |
| HandlerProps.SymlinkCommandType | dpu/manifest.py:79 | `contains-symlink` stores the type `symlink` |
| HandlerProps.ContainsXKeepsTableInvariant | dpu/manifest.py:78-85 | a successful `contains-X` keeps every record well formed and the last entry typed |
| HandlerProps.NotPresentKeepsTableInvariant | dpu/manifest.py:69-75 | a successful `not-present` keeps the invariant |
| HandlerProps.LinkTargetKeepsTableInvariant | dpu/manifest.py:48-66 | a successful `link-target` keeps the invariant |
| HandlerProps.SetPermKeepsTableInvariant | dpu/manifest.py:105-121 | storing a mode on a typed entry keeps the invariant |
| HandlerProps.PermKeepsTableInvariant | dpu/manifest.py:87-121 | a successful `perm` keeps the invariant |
| HandlerProps.HandlerKeepsTableInvariant | dpu/manifest.py:127-138 | every successful command of the table keeps the invariant |
| HandlerProps.WordIsSingleArg | dpu/manifest.py:70 | a path without white space is accepted as one argument |
| ManifestParse.ParseManifest | dpu/manifest.py:141-154 | the dictionary, or the first error, of the loop over all lines |
| ManifestParse.LineCommand | dpu/manifest.py:145-152 | the command and argument of a line; stated by `CommandLineFields`, `CommandLine` and `ThirdTokenDropped` |
| ManifestParse.ParseFrom | dpu/manifest.py:144-153 | the line loop from a given state; stated by `CommentsIgnored`, `UnknownCommandRaises`, `ParseKeepsTableInvariant` and `ParseOnlyAddsAttributes` |
| ManifestParse.UnknownCommandRaises | dpu/manifest.py:149-150 | a command not in the table ends the parse with the unknown-command error |
| ManifestParse.CommentsIgnored | dpu/manifest.py:145-147 | blank lines and comments make no difference anywhere |
| ManifestParse.CommandLineFields | dpu/manifest.py:145-153 | a line starting with neither white space nor `#` is a command and its first argument |
| ManifestParse.CommandLine | dpu/manifest.py:148-153 | `<cmd> <arg>` hands `arg` to the handler of `cmd` |
| ManifestParse.ThirdTokenDropped | dpu/manifest.py:148-153 | of `cmd a rest`, only `a` reaches the handler |
| ManifestParse.SameCommandSameParse | dpu/manifest.py:145-153 | two lines that read as the same command parse alike |
| ManifestParse.LinkTargetPathDropped | dpu/manifest.py:48-56 | `link-target t p` read from a file acts exactly like `link-target t` |
| ManifestParse.ParseKeepsTableInvariant | dpu/manifest.py:141-154 | every dictionary a parse returns has only well-formed records |
| ManifestParse.ParsedManifestChecksCleanly | dpu/manifest.py:161-236 | a parsed manifest never trips the assertions or the `KeyError` of `check_tarball` |
| ManifestParse.ParseOnlyAddsAttributes | dpu/manifest.py:141-154 | a later line never takes back what an earlier one declared |
| ManifestParse.SymlinkGetsTarget | dpu/manifest.py:60-66 | `link-target` on a symlink without a target records the target |
| ManifestParse.FileConflict | dpu/manifest.py:38-41 | `contains-file` on a directory is a type conflict |
| ManifestParse.DeclareLine | dpu/manifest.py:78-85 | `contains-X p` on an empty dictionary records p as a present X |
| ManifestParse.KnownLine | dpu/manifest.py:145-153 | the example command lines read as their command and argument |
| ManifestParse.TwoLines | dpu/manifest.py:141-154 | two accepted lines compose |
| ManifestParse.SecondLineFails | dpu/manifest.py:141-154 | a refused second line is the error of the file |
| ManifestParse.LastEntryChaining | dpu/manifest.py:130-132 | `contains-symlink p` then `link-target t` gives p the target t |
| ManifestParse.DirThenFileConflict | dpu/manifest.py:38-41 | a directory then a file at one path is refused with the type conflict |
| ManifestCheck.NormName | dpu/manifest.py:189-198 | the root maps to `None`; an empty name fails; an absolute name is kept; any other loses its leading dots and slashes |
| ManifestCheck.PresentKeys | dpu/manifest.py:163 | the `KeyError` of a record without a presence flag, or exactly the keys declared present |
| ManifestCheck.CheckEntry | dpu/manifest.py:200-236 | `__check_tar_entry`; stated by `CheckProps.CheckEntryPassIff`, `CheckEntryOrder` and `ParsedRecordNoFault` |
| ManifestCheck.ScanMembers | dpu/manifest.py:164-169 | the member loop; stated by `CheckProps.ScanMembersSpec` and `ScanMembersAppend` |
| ManifestCheck.Manifest.CheckTarball | dpu/manifest.py:161-172 | the outcome of the member loop followed by the least missing key |
| Py2Order.Least | dpu/manifest.py:171 | the least element of a non-empty key set in Python 2 order |
| Py2Order.SmallestKey | dpu/manifest.py:171 | `sorted(missing)[0]`: an element no other key is below |
| Py2Order.LeastUnique | dpu/manifest.py:171 | the least key is unique |
| Py2Order.KeyLessStrictTotal | dpu/manifest.py:171 | the key order is irreflexive, transitive and total |
| CheckProps.CheckEntryPassIff | dpu/manifest.py:200-236 | an entry check passes exactly when the member agrees with the record |
| CheckProps.CheckEntryOrder | dpu/manifest.py:204-236 | presence, then type, then link target, then mode: the first failing check decides the error whatever the later attributes hold |
| CheckProps.ParsedRecordNoFault | dpu/manifest.py:200-236 | on a parsed record only the `ManifestCheckError` family is raised |
| CheckProps.ScanMembersSpec | dpu/manifest.py:164-169 | the member loop fails iff some member fails, and removes just the keys seen |
| CheckProps.ScanMembersAppend | dpu/manifest.py:164-169 | the loop over two stretches is the loop over the first continued |
| CheckProps.ScanMembersNoFault | dpu/manifest.py:164-169 | over parsed records the loop raises no fault |
| CheckProps.CheckTarballPassIff | dpu/manifest.py:161-172 | an archive passes iff every record has a flag, every member agrees, and every present path appears |
| CheckProps.MissingEntryReported | dpu/manifest.py:170-172 | the error names the least present path never seen |
| CheckProps.NoneKeyReported | dpu/manifest.py:166-172 | a present record under `None` is always the one reported |
| CheckProps.FirstFailureReported | dpu/manifest.py:164-168 | the first failing member decides the error |
| CheckProps.UnmentionedMemberIgnored | dpu/manifest.py:166-167 | a member whose path is not mentioned changes nothing |
| CheckProps.ParsedManifestNoFault | dpu/manifest.py:161-236 | on parsed records `check_tarball` raises only check errors or the empty-name `IndexError` |
| CheckProps.NormNameIdempotent | dpu/manifest.py:189-198 | normalising a normalised name changes nothing |
| CheckProps.NormNameLeadingDots | dpu/manifest.py:194-197 | `./.profile` is looked up as `profile`; `/etc/passwd` is kept |
| CheckProps.CheckEntryExamples | dpu/manifest.py:204-236 | the errors for a wrong mode, a wrong link target, a wrong type and an unexpected file |
| Control.ParseControl | dpu/control.py:3-31 | the dictionary, or the first error, of the loop over all lines |
| Control.ControlStep | dpu/control.py:19-27 | one turn of the loop; stated by `FieldLine`, `NoColonFails`, `ContinuationLine` and `MarkerLineIsBlank` |
| Control.ControlFrom | dpu/control.py:18-27 | the loop from a given state; stated by `ContinuationsAppend`, `OpenFieldStaysOpen`, `ControlFromKeys` and `ControlFromLowerKeys` |
| Control.FieldLine | dpu/control.py:24-27 | a key line sets its (cased) key to the stripped value, whatever it held before |
| Control.NoColonFails | dpu/control.py:24 | a key line without a colon is refused |
| Control.MarkerLineIsBlank | dpu/control.py:20-22 | the marker line adds only a newline |
| Control.ContinuationLine | dpu/control.py:19-22 | a continuation line appends its stripped text on a new line |
| Control.ContinuationsAppend | dpu/control.py:18-22 | a run of continuation lines appends one line each to the open field |
| Control.OneField | dpu/control.py:18-27 | a file of one field is its stripped value followed by its continuations |
| Control.RepeatedKeyOverwrites | dpu/control.py:24-27 | a key given twice keeps its second value |
| Control.OpenFieldStaysOpen | dpu/control.py:18-27 | once a field is open, no later line raises the `KeyError` |
| Control.ContinuationWithoutKeyIff | dpu/control.py:19-30 | the `KeyError` is raised exactly when the file starts with a continuation line |
| Control.ControlFromKeys | dpu/control.py:18-27 | the keys of the result are those the key lines open |
| Control.ControlKeys | dpu/control.py:3-31 | a parsed file has exactly the keys its key lines open |
| Control.ControlFromLowerKeys | dpu/control.py:25-26 | with `ignore_case` every key stays in lower case |
| Control.IgnoreCaseLowersKeys | dpu/control.py:25-26 | with `ignore_case` every key comes back in lower case |
| Control.SanityExample | dpu/control.py:24-27 | `Sane: true` reads as `sane` or `Sane` mapped to `true` |
| Control.ContinuedThree | dpu/control.py:18-22 | what three continuation lines add |
| Control.MultilineExample | dpu/control.py:18-27 | a marker line between two continuation lines leaves an empty line in the value |
| Tarball.SplitExt | dpu/tarball.py:154 | the two halves rebuild the name; a non-empty extension starts at the last dot of a named last component |
| Tarball.PathJoin | dpu/tarball.py:33-39 | the name ends with `b`, and starts with `a` when `b` is relative |
| Tarball.DetermineCompression | dpu/tarball.py:153-164 | a guess is a supported compression; a failure names the file |
| Tarball.DetermineCompressionIff | dpu/tarball.py:153-164 | the guess is `c` exactly when the last extension is the one of `c` |
| Tarball.SplitExtOf | dpu/tarball.py:154 | a named stem plus `.e` splits into the stem and `.e` |
| Tarball.SplitAtLastDot | dpu/tarball.py:154 | a name with a dot-free last extension splits, if at all, before it |
| Tarball.NoNameNoExtension | dpu/tarball.py:154-156 | a last component of dots only has no extension |
| Tarball.OpenWriteable | dpu/tarball.py:107-124 | an unknown compression is refused; the file name is base plus extension; only `xz` and `lzma` use a compressor, streaming through it; `gzip` and `bzip2` use the mode `w:<ext>` |
| Tarball.WriteThenGuess | dpu/tarball.py:107-164 | the compression of the written file is guessed back iff the base's last component has a name |
| Tarball.MakeOrigTarball | dpu/tarball.py:32-40 | the unpack directory is `<upname>-<upversion>` under `rundir`; an unknown compression is refused |
| Tarball.OrigTarballNamed | dpu/tarball.py:34-40 | the tarball is `<upname>_<upversion>.orig.tar.<ext>` in the output directory, and its compression is guessed back |
| Tarball.NoDotNoExtension | dpu/tarball.py:154-156 | a name without a dot has no extension |
| Tarball.GuessExtension | dpu/tarball.py:158-163 | a named stem with a supported extension is guessed |
| Tarball.GuessExamples | dpu/tarball.py:158-163 | `foo.tar.gz`, `.bz2`, `.xz` and `.lzma` are guessed |
| Tarball.RefuseNoExtension | dpu/tarball.py:155-156 | `foo` is refused |
| Tarball.RefuseUnknownExtension | dpu/tarball.py:164 | `bar.baz` is refused |
| Tarball.OrigTarballExample | dpu/tarball.py:32-39 | the orig tarball of `pkgfoo` 2.0 with bzip2 is `./pkgfoo_2.0.orig.tar.bz2` |
| Tarball.PathJoinRelative | dpu/tarball.py:33 | a relative name joined to a directory gets a `/` between them |
| Tarball.InsaneCompressionExample | dpu/tarball.py:118-119 | an unknown compression is refused |

## Left out

- `Manifest.check_apt_tarball` and `__apt_visit_tarball` (dpu/manifest.py:174-187): they walk python-apt's member objects through a callback. The member loop they run is the one `CheckTarball` models.
- The messages of the errors, and `__str__` of the exception classes in `manifestex`: errors are datatype values that carry the data of the message.
- ManifestHandlers.PermArgs: accepts only a non-empty string of octal digits as a mode. Python 2's `int(x, 8)` also accepts a leading sign and a `0o` prefix; those are not modelled.
- Reading files: `open(...)`, `readlines()` and iteration over a file are replaced by the sequence of lines. `parse_control` is given the lines `readlines()` would return.
- The archive members are a sequence of values in stream order. The `tarfile` object and its `isfile`/`islnk`/`isdir`/`issym` tests are reduced to a member kind.
- `tarobj.add`, `tarfile.open`, `subprocess.Popen`, `_close_pipeline` and the context managers (dpu/tarball.py:40-41, 113-131, 134-151): the model states the file name, mode and compressor chosen, not the writing.
- `open_compressed_tarball` (dpu/tarball.py:44-95) is not part of this model.
- `os.path.splitext` and `os.path.join` are modelled for POSIX paths only.
- The commands `contains-entry`, `same-content` and `hardlinks` are modelled as what the source does with them: they raise `NotImplementedError`.
- The rest of the repository (test suites, templates, package building, workspaces, utilities, setup) is not part of this model.
