/** The values the manifest interpreter works on: the per-path record, the
    archive member it is checked against, and the errors both passes raise. */
module ManifestTypes {
  import opened Wrappers

  const ENTRY_TYPE_FILE: string := "file"
  const ENTRY_TYPE_DIR: string := "dir"
  const ENTRY_TYPE_SYMLINK: string := "symlink"

  predicate IsKnownType(t: string) {
    t == ENTRY_TYPE_FILE || t == ENTRY_TYPE_DIR || t == ENTRY_TYPE_SYMLINK
  }

  /** A key of the manifest's dictionary: a path, or `None`, which a
      `link-target` with no current entry stores its record under. */
  type Key = Option<string>

  /** The dictionary kept per path; a field is `None` while its key is absent. */
  datatype Record = Record(
    present: Option<bool>,
    entryType: Option<string>,
    perm: Option<nat>,
    linkTarget: Option<string>)

  const EmptyRecord: Record := Record(None, None, None, None)

  /** The parse-time failures: the `IOError`, `ValueError` and
      `NotImplementedError` raised while reading a manifest. */
  datatype ManifestError =
    | UnknownCommand(command: string)
    | ArityError(command: string, atLeast: nat, atMost: nat)
    | PresenceConflict(entry: Key)
    | TypeConflict(entry: Key, etype: string, existing: string)
    | SymlinkWithPerm(entry: Key)
    | LinkTargetConflict(entry: Key, target: string, existing: string)
    | PermOnSymlink(entry: Key)
    | PermConflict(entry: Key)
    | InvalidMode(text: string)
    | UserGroupUnpack(value: string)
    | TooManyColons(value: string)
    | SlashInUserGroup(value: string)
    | NotImplemented(feature: string)

  /** The kinds of archive member `tarfile` tells apart; `OtherKind` covers
      devices, fifos and the like. */
  datatype MemberKind = RegularFile | HardLink | Directory | SymbolicLink | OtherKind

  /** An archive member, as far as the check looks at it. */
  datatype Member = Member(name: string, kind: MemberKind, mode: nat, linkname: string)

  /** The check-time failures: the `ManifestCheckError` family, and the
      Python failures (`KeyError`, `IndexError`, `AssertionError`) that
      `check_tarball` can run into on a dictionary or member it does not expect. */
  datatype CheckError =
    | EntryPresentAssertion(missing: Key)
    | EntryNotPresentAssertion(entry: string)
    | EntryWrongTypeAssertion(entry: string, expected: string)
    | SymlinkTargetAssertion(entry: string, expected: string, actual: string)
    | EntryPermissionAssertion(entry: string, expectedMode: nat, actualMode: nat)
    | MissingPresenceFlag
    | EmptyMemberName
    | UnknownEntryType(entry: string, etype: string)
    | LinkTargetOnNonSymlink(entry: string)
    | PermOnSymlinkMember(entry: string)

  /** A failure that means the dictionary was not one `parse_manifest` builds. */
  predicate IsManifestFault(e: CheckError) {
    e.MissingPresenceFlag? || e.UnknownEntryType? || e.LinkTargetOnNonSymlink? || e.PermOnSymlinkMember?
  }

  /** What every handler keeps true of every record it leaves behind. */
  predicate RecordWF(r: Record) {
    && r.present.Some?
    && (r.entryType.Some? || r.perm.Some? || r.linkTarget.Some? ==> r.present == Some(true))
    && (r.linkTarget.Some? ==> r.entryType == Some(ENTRY_TYPE_SYMLINK))
    && (r.entryType == Some(ENTRY_TYPE_SYMLINK) ==> r.perm.None?)
  }

  /** What is true of every record of a dictionary `parse_manifest` returns. */
  predicate ParsedRecord(r: Record) {
    && RecordWF(r)
    && (r.entryType.Some? ==> IsKnownType(r.entryType.value))
    && (r.perm.Some? ==> r.entryType.Some?)
  }

  function MapGet(data: map<Key, Record>, k: Key): Option<Record> {
    if k in data then Some(data[k]) else None
  }

  /** Writing a key twice keeps the second record only. */
  lemma UpdateTwice(d: map<Key, Record>, k: Key, a: Record, b: Record)
    ensures d[k := a][k := b] == d[k := b]
  {
  }

  /** Every attribute `before` has set is set to the same value in `after`. */
  predicate Extends(after: Record, before: Record) {
    && (before.present.Some? ==> after.present == before.present)
    && (before.entryType.Some? ==> after.entryType == before.entryType)
    && (before.perm.Some? ==> after.perm == before.perm)
    && (before.linkTarget.Some? ==> after.linkTarget == before.linkTarget)
  }
}
