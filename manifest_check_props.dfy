/** What `check_tarball` guarantees (dpu/manifest.py:161-236): when an
    archive passes, which error a failing one reports, and that the Python
    assertions of `__check_tar_entry` never fire on a parsed manifest. */
module CheckProps {
  import opened Wrappers
  import opened PyStr
  import opened Py2Order
  import opened ManifestTypes
  import opened ManifestCheck
  import opened HandlerProps

  /** A member agrees with the record of its path. */
  predicate Matches(rec: Record, m: Member) {
    && rec.present == Some(true)
    && (rec.entryType.Some? ==> Accepts(rec.entryType.value, m.kind))
    && (rec.linkTarget.Some? ==> m.kind == SymbolicLink && m.linkname == rec.linkTarget.value)
    && (rec.perm.Some? ==> m.kind != SymbolicLink && m.mode == rec.perm.value)
  }

  /** `__check_tar_entry` passes exactly when the member agrees with the record. */
  lemma CheckEntryPassIff(rec: Record, name: string, m: Member)
    ensures CheckEntry(rec, name, m) == Pass <==> Matches(rec, m)
  {
  }

  /** The type, if given, accepts the member. */
  predicate TypeAccepts(rec: Record, m: Member) {
    rec.entryType.None? || Accepts(rec.entryType.value, m.kind)
  }

  /** `__check_tar_entry` checks presence, then the type, then the link
      target, then the mode, and the first check that fails decides the
      error whatever the later attributes hold. */
  lemma CheckEntryOrder(rec: Record, name: string, m: Member)
    ensures rec.present == Some(false) ==> CheckEntry(rec, name, m) == Fail(EntryNotPresentAssertion(name))
    ensures rec.present == Some(true) && rec.entryType.Some? && IsKnownType(rec.entryType.value)
            && !Accepts(rec.entryType.value, m.kind) ==>
      CheckEntry(rec, name, m) == Fail(EntryWrongTypeAssertion(name, rec.entryType.value))
    ensures rec.present == Some(true) && TypeAccepts(rec, m)
            && rec.linkTarget.Some? && m.kind == SymbolicLink && m.linkname != rec.linkTarget.value ==>
      CheckEntry(rec, name, m) == Fail(SymlinkTargetAssertion(name, rec.linkTarget.value, m.linkname))
    ensures rec.present == Some(true) && TypeAccepts(rec, m)
            && (rec.linkTarget.None? || (m.kind == SymbolicLink && m.linkname == rec.linkTarget.value))
            && rec.perm.Some? && m.kind != SymbolicLink && m.mode != rec.perm.value ==>
      CheckEntry(rec, name, m) == Fail(EntryPermissionAssertion(name, rec.perm.value, m.mode))
  {
  }

  /** On a record `parse_manifest` builds, `__check_tar_entry` raises only
      the `ManifestCheckError` family: lines 202, 218, 225 and 232 never fire. */
  lemma ParsedRecordNoFault(rec: Record, name: string, m: Member)
    requires ParsedRecord(rec)
    ensures CheckEntry(rec, name, m).Fail? ==> !IsManifestFault(CheckEntry(rec, name, m).error)
  {
  }

  /** The member is looked up in the dictionary. */
  predicate Checked(data: map<Key, Record>, m: Member) {
    && m.name != []
    && NormName(m.name).value.Some?
    && NormName(m.name).value in data
  }

  /** The member passes the loop body of `check_tarball`. */
  predicate MemberOk(data: map<Key, Record>, m: Member) {
    && m.name != []
    && (Checked(data, m) ==> CheckEntry(data[NormName(m.name).value], NormName(m.name).value.value, m) == Pass)
  }

  predicate AllOk(data: map<Key, Record>, members: seq<Member>) {
    forall i :: 0 <= i < |members| ==> MemberOk(data, members[i])
  }

  /** The dictionary keys the members are checked against. */
  function SeenIn(data: map<Key, Record>, members: seq<Member>): (s: set<Key>)
    ensures None !in s
    decreases |members|
  {
    if members == [] then {}
    else
      (if Checked(data, members[0]) then {NormName(members[0].name).value} else {})
      + SeenIn(data, members[1..])
  }

  /** The member loop fails exactly when some member fails, and otherwise
      removes from `missing` just the keys the members are checked against. */
  lemma {:induction false} ScanMembersSpec(data: map<Key, Record>, members: seq<Member>, missing: set<Key>)
    ensures ScanMembers(data, members, missing).Success? <==> AllOk(data, members)
    ensures ScanMembers(data, members, missing).Success? ==>
      ScanMembers(data, members, missing).value == missing - SeenIn(data, members)
    decreases |members|
  {
    if members != [] {
      var m := members[0];
      var tail := members[1..];
      assert forall i :: 1 <= i < |members| ==> members[i] == tail[i - 1];
      assert AllOk(data, members) <==> MemberOk(data, m) && AllOk(data, tail) by {
        if MemberOk(data, m) && AllOk(data, tail) {
          forall i | 0 <= i < |members| ensures MemberOk(data, members[i]) {
            if i > 0 {
              assert members[i] == tail[i - 1];
            }
          }
        }
      }
      if Checked(data, m) {
        ScanMembersSpec(data, tail, missing - {NormName(m.name).value});
      } else {
        ScanMembersSpec(data, tail, missing);
      }
    }
  }

  /** The member loop over two stretches of the stream is the loop over the
      first, continued with what it left missing. */
  lemma {:induction false} ScanMembersAppend(data: map<Key, Record>, front: seq<Member>, back: seq<Member>, missing: set<Key>)
    ensures ScanMembers(data, front + back, missing) ==
      match ScanMembers(data, front, missing)
      case Failure(e) => Failure(e)
      case Success(left) => ScanMembers(data, back, left)
    decreases |front|
  {
    if front == [] {
      assert front + back == back;
    } else {
      assert (front + back)[0] == front[0];
      assert (front + back)[1..] == front[1..] + back;
      var n := NormName(front[0].name);
      if n.Success? {
        if n.value.None? || n.value !in data {
          ScanMembersAppend(data, front[1..], back, missing);
        } else {
          ScanMembersAppend(data, front[1..], back, missing - {n.value});
        }
      }
    }
  }

  /** An archive passes exactly when every record has its presence flag,
      every member agrees with the record of its path, and every path
      declared present is among the members. */
  lemma CheckTarballPassIff(data: map<Key, Record>, members: seq<Member>)
    ensures CheckTarballSpec(data, members) == Pass <==>
      && (forall k :: k in data ==> data[k].present.Some?)
      && AllOk(data, members)
      && (forall k :: k in data && data[k].present == Some(true) ==> k in SeenIn(data, members))
  {
    var present := PresentKeys(data);
    if present.Success? {
      ScanMembersSpec(data, members, present.value);
    }
  }

  /** When the members all agree but some present path never appears, the
      error names the least such path in Python 2 order. */
  lemma MissingEntryReported(data: map<Key, Record>, members: seq<Member>, k: Key)
    requires forall j :: j in data ==> data[j].present.Some?
    requires AllOk(data, members)
    requires k in data && data[k].present == Some(true) && k !in SeenIn(data, members)
    ensures CheckTarballSpec(data, members).Fail?
    ensures var e := CheckTarballSpec(data, members).error;
      && e.EntryPresentAssertion?
      && e.missing in data && data[e.missing].present == Some(true)
      && e.missing !in SeenIn(data, members)
      && KeyLessEq(e.missing, k)
  {
    var present := PresentKeys(data);
    ScanMembersSpec(data, members, present.value);
    var left := present.value - SeenIn(data, members);
    assert k in left;
  }

  /** A record stored under `None` by a `link-target` with no current entry
      can never be seen, and being the least key it is the one reported. */
  lemma NoneKeyReported(data: map<Key, Record>, members: seq<Member>)
    requires forall j :: j in data ==> data[j].present.Some?
    requires AllOk(data, members)
    requires None in data && data[None].present == Some(true)
    ensures CheckTarballSpec(data, members) == Fail(EntryPresentAssertion(None))
  {
    MissingEntryReported(data, members, None);
  }

  /** The first member that fails decides the error. */
  lemma FirstFailureReported(data: map<Key, Record>, members: seq<Member>, i: nat)
    requires forall j :: j in data ==> data[j].present.Some?
    requires i < |members| && AllOk(data, members[..i]) && !MemberOk(data, members[i])
    ensures CheckTarballSpec(data, members) ==
      if members[i].name == [] then Fail(EmptyMemberName)
      else CheckEntry(data[NormName(members[i].name).value], NormName(members[i].name).value.value, members[i])
  {
    var missing := PresentKeys(data).value;
    assert members == members[..i] + members[i..];
    ScanMembersAppend(data, members[..i], members[i..], missing);
    ScanMembersSpec(data, members[..i], missing);
  }

  /** A member whose path the manifest does not mention changes nothing. */
  lemma UnmentionedMemberIgnored(data: map<Key, Record>, front: seq<Member>, m: Member, back: seq<Member>)
    requires m.name != [] && !Checked(data, m)
    ensures CheckTarballSpec(data, front + [m] + back) == CheckTarballSpec(data, front + back)
  {
    var present := PresentKeys(data);
    if present.Success? {
      ScanMembersAppend(data, front, [m] + back, present.value);
      ScanMembersAppend(data, front, back, present.value);
      assert front + [m] + back == front + ([m] + back);
      assert ([m] + back)[1..] == back;
    }
  }

  lemma {:induction false} ScanMembersNoFault(data: map<Key, Record>, members: seq<Member>, missing: set<Key>)
    requires AllParsed(data)
    ensures ScanMembers(data, members, missing).Failure? ==> !IsManifestFault(ScanMembers(data, members, missing).error)
    decreases |members|
  {
    if members != [] {
      var n := NormName(members[0].name);
      if n.Success? && n.value.Some? && n.value in data {
        ParsedRecordNoFault(data[n.value], n.value.value, members[0]);
        ScanMembersNoFault(data, members[1..], missing - {n.value});
      } else {
        ScanMembersNoFault(data, members[1..], missing);
      }
    }
  }

  /** On a dictionary `parse_manifest` builds, `check_tarball` raises only
      `ManifestCheckError`s, or the `IndexError` of an empty member name. */
  lemma ParsedManifestNoFault(data: map<Key, Record>, members: seq<Member>)
    requires AllParsed(data)
    ensures CheckTarballSpec(data, members).Fail? ==> !IsManifestFault(CheckTarballSpec(data, members).error)
  {
    assert forall k :: k in data ==> data[k].present.Some?;
    ScanMembersNoFault(data, members, PresentKeys(data).value);
  }

  /** Normalising a normalised name changes nothing. */
  lemma NormNameIdempotent(name: string)
    requires NormName(name).Success? && NormName(name).value.Some?
    requires NormName(name).value.value != []
    ensures NormName(NormName(name).value.value) == NormName(name)
  {
  }

  /** A member name loses every leading dot, so `./.profile` is looked up
      as `profile`; an absolute name is kept as it is. */
  lemma NormNameLeadingDots(name: string, word: string, abs: string)
    requires name == "./.profile" && word == "profile" && abs == "/etc/passwd"
    ensures NormName(name) == Success(Some(word))
    ensures NormName(abs) == Success(Some(abs))
  {
    assert NormName(name) == Success(Some(word)) by {
      var pre := "./.";
      assert name == pre + word;
      LStripCharsPrefix(pre, word, {'.', '/'});
    }
    assert NormName(abs) == Success(Some(abs)) by {
      assert abs[0] == '/' && abs != "." && abs != "./";
    }
  }

  /** `lstrip` drops a prefix drawn from its characters and stops at the
      first character that is not. */
  lemma {:induction false} LStripCharsPrefix(pre: string, s: string, chars: set<char>)
    requires forall i :: 0 <= i < |pre| ==> pre[i] in chars
    requires s != [] && s[0] !in chars
    ensures LStripChars(pre + s, chars) == s
    decreases |pre|
  {
    if pre == [] {
      assert pre + s == s;
    } else {
      assert (pre + s)[0] == pre[0];
      assert (pre + s)[1..] == pre[1..] + s;
      LStripCharsPrefix(pre[1..], s, chars);
    }
  }

  /** The failures the manifest tests expect of a broken mode, a broken
      symlink, a file replaced by a directory and an unexpected file. */
  lemma CheckEntryExamples()
    ensures CheckEntry(Record(Some(true), Some("file"), Some(420), None), "usr/share/doc/foo/copyright",
                       Member("usr/share/doc/foo/copyright", RegularFile, 511, ""))
      == Fail(EntryPermissionAssertion("usr/share/doc/foo/copyright", 420, 511))
    ensures CheckEntry(Record(Some(true), Some("symlink"), None, Some("symlink-target")), "usr/share/doc/foo/symlink-source",
                       Member("usr/share/doc/foo/symlink-source", SymbolicLink, 511, "debian/rules"))
      == Fail(SymlinkTargetAssertion("usr/share/doc/foo/symlink-source", "symlink-target", "debian/rules"))
    ensures CheckEntry(Record(Some(true), Some("file"), Some(420), None), "usr/share/doc/foo/copyright",
                       Member("usr/share/doc/foo/copyright", Directory, 493, ""))
      == Fail(EntryWrongTypeAssertion("usr/share/doc/foo/copyright", "file"))
    ensures CheckEntry(Record(Some(false), None, None, None), "usr/random/place",
                       Member("usr/random/place", RegularFile, 420, ""))
      == Fail(EntryNotPresentAssertion("usr/random/place"))
  {
  }
}
