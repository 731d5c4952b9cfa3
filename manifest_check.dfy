/** The second pass of the manifest interpreter: replaying the members of an
    archive against the dictionary `parse_manifest` built
    (dpu/manifest.py:157-236). */
module ManifestCheck {
  import opened Wrappers
  import opened PyStr
  import opened Py2Order
  import opened ManifestTypes

  /** `__normname`: the dictionary key a member name is looked up under.
      `.` and `./` name the archive root and map to `None`; an empty name
      is the `IndexError` of `normtname[0]`; an absolute name is kept; any
      other name loses every leading `.` and `/`. */
  function NormName(name: string): (r: Result<Key, CheckError>)
    ensures r.Failure? <==> name == []
    ensures r.Failure? ==> r.error == EmptyMemberName
    ensures name == "." || name == "./" ==> r == Success(None)
    ensures r.Success? && r.value.None? ==> name == "." || name == "./"
    ensures r.Success? && r.value.Some? && name[0] == '/' ==> r.value.value == name
    ensures r.Success? && r.value.Some? && name[0] != '/' ==>
      && var n := r.value.value;
         && |n| <= |name| && n == name[|name| - |n|..]
         && (forall i :: 0 <= i < |name| - |n| ==> name[i] == '.' || name[i] == '/')
         && (n == [] || (n[0] != '.' && n[0] != '/'))
  {
    if name == "." || name == "./" then Success(None)
    else if name == [] then Failure(EmptyMemberName)
    else if name[0] != '/' then Success(Some(LStripChars(name, {'.', '/'})))
    else Success(Some(name))
  }

  /** The member kinds an entry type accepts: a hard link passes for a file. */
  predicate Accepts(etype: string, kind: MemberKind) {
    if etype == ENTRY_TYPE_FILE then kind == RegularFile || kind == HardLink
    else if etype == ENTRY_TYPE_DIR then kind == Directory
    else if etype == ENTRY_TYPE_SYMLINK then kind == SymbolicLink
    else false
  }

  /** `__check_tar_entry`: presence, then type, then link target, then mode. */
  function CheckEntry(rec: Record, name: string, m: Member): Outcome<CheckError> {
    if rec.present.None? then Fail(MissingPresenceFlag)
    else if !rec.present.value then Fail(EntryNotPresentAssertion(name))
    else if rec.entryType.Some? && !IsKnownType(rec.entryType.value) then
      Fail(UnknownEntryType(name, rec.entryType.value))
    else if rec.entryType.Some? && !Accepts(rec.entryType.value, m.kind) then
      Fail(EntryWrongTypeAssertion(name, rec.entryType.value))
    else if rec.linkTarget.Some? && m.kind != SymbolicLink then Fail(LinkTargetOnNonSymlink(name))
    else if rec.linkTarget.Some? && rec.linkTarget.value != m.linkname then
      Fail(SymlinkTargetAssertion(name, rec.linkTarget.value, m.linkname))
    else if rec.perm.Some? && m.kind == SymbolicLink then Fail(PermOnSymlinkMember(name))
    else if rec.perm.Some? && rec.perm.value != m.mode then
      Fail(EntryPermissionAssertion(name, rec.perm.value, m.mode))
    else Pass
  }

  /** `set(x for x in data if data[x]["present"])`: the `KeyError` of a
      record without a presence flag, or the keys declared present. */
  function PresentKeys(data: map<Key, Record>): (r: Result<set<Key>, CheckError>)
    ensures r.Failure? <==> exists k :: k in data && data[k].present.None?
    ensures r.Failure? ==> r.error == MissingPresenceFlag
    ensures r.Success? ==> forall k :: k in r.value <==> k in data && data[k].present == Some(true)
  {
    if exists k :: k in data && data[k].present.None? then Failure(MissingPresenceFlag)
    else Success(set k | k in data && data[k].present == Some(true))
  }

  /** The member loop of `check_tarball` from `members[0]` on, starting
      with the keys in `missing` not yet seen: the first error, or the keys
      still missing at the end. */
  function ScanMembers(data: map<Key, Record>, members: seq<Member>, missing: set<Key>): Result<set<Key>, CheckError>
    decreases |members|
  {
    if members == [] then Success(missing)
    else match NormName(members[0].name)
      case Failure(e) => Failure(e)
      case Success(n) =>
        if n.None? || n !in data then ScanMembers(data, members[1..], missing)
        else match CheckEntry(data[n], n.value, members[0])
          case Fail(e) => Failure(e)
          case Pass => ScanMembers(data, members[1..], missing - {n})
  }

  /** `check_tarball`: the present keys, the member loop, then the least
      key never seen. */
  ghost function CheckTarballSpec(data: map<Key, Record>, members: seq<Member>): Outcome<CheckError> {
    match PresentKeys(data)
    case Failure(e) => Fail(e)
    case Success(missing) =>
      match ScanMembers(data, members, missing)
      case Failure(e) => Fail(e)
      case Success(left) => if left == {} then Pass else Fail(EntryPresentAssertion(Least(left)))
  }

  /** A parsed manifest. */
  class Manifest {
    const data: map<Key, Record>

    constructor (data: map<Key, Record>)
      ensures this.data == data
    {
      this.data := data;
    }

    /** `check_tarball`, over the members of the archive in stream order. */
    method CheckTarball(members: seq<Member>) returns (r: Outcome<CheckError>)
      ensures r == CheckTarballSpec(data, members)
    {
      var present := PresentKeys(data);
      if present.Failure? {
        return Fail(present.error);
      }
      var missing := present.value;
      var i := 0;
      while i < |members|
        invariant 0 <= i <= |members|
        invariant ScanMembers(data, members[i..], missing) == ScanMembers(data, members, present.value)
      {
        var tinfo := members[i];
        assert members[i..][1..] == members[i + 1..];
        var normtname := NormName(tinfo.name);
        if normtname.Failure? {
          return Fail(normtname.error);
        }
        if normtname.value.Some? && normtname.value in data {
          var c := CheckEntry(data[normtname.value], normtname.value.value, tinfo);
          if c.Fail? {
            return c;
          }
          missing := missing - {normtname.value};
        }
        i := i + 1;
      }
      if missing != {} {
        var first := SmallestKey(missing);
        LeastUnique(first, Least(missing), missing);
        return Fail(EntryPresentAssertion(first));
      }
      return Pass;
    }
  }
}
