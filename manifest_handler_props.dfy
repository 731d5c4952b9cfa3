/** What the manifest handlers guarantee (dpu/manifest.py:11-138): which
    entry a command touches, that a set attribute never changes, exactly
    when each command is accepted, and the invariants of the records a
    successful command leaves behind. */
module HandlerProps {
  import opened Wrappers
  import opened PyStr
  import opened ManifestTypes
  import opened ManifestHandlers

  /** The record of `k`, or the empty one `__get_edata` would create. */
  function Current(data: map<Key, Record>, k: Key): Record {
    if k in data then data[k] else EmptyRecord
  }

  /** The entry a command line names: the path among its arguments, or the
      last-entry register when it names none. */
  function NamedEntry(h: Handler, last: Key, arg: Option<string>): Key {
    match h
    case ContainsXHandler => if arg.Some? then Some(arg.value) else None
    case NotPresentHandler => if arg.Some? then Some(arg.value) else None
    case LinkTargetHandler =>
      if IsTruthy(arg) && |SplitWs(arg.value, 3)| == 2 then Some(SplitWs(arg.value, 3)[1]) else last
    case PermHandler =>
      if IsTruthy(arg) && |SplitWs(arg.value, 4)| == 3 then Some(SplitWs(arg.value, 4)[2]) else last
    case NotImplementedHandler => last
  }

  /** Writing a record over a fresh mention is writing it outright. */
  lemma MentionUpdate(data: map<Key, Record>, k: Key, x: Record)
    ensures Mention(data, k)[k := x] == data[k := x]
    ensures Mention(data, k)[k] == Current(data, k)
  {
    if k !in data {
      UpdateTwice(data, k, EmptyRecord, x);
    }
  }

  /** `present` can be recorded for a record without a conflict. */
  predicate CanBePresent(rec: Record, present: bool) {
    rec.present.None? || rec.present == Some(present)
  }

  /** `etype` can be recorded for a record without a conflict. */
  predicate CanBeTyped(rec: Record, etype: string) {
    && CanBePresent(rec, true)
    && (rec.entryType.None? || rec.entryType == Some(etype))
    && !(etype == ENTRY_TYPE_SYMLINK && rec.perm.Some?)
  }

  lemma PresentStepSpec(entry: Key, rec: Record, present: bool)
    ensures var s := PresentStep(entry, rec, present);
      && (s.err.None? <==> CanBePresent(rec, present))
      && (s.err.None? ==> s.rec == rec.(present := Some(present)))
      && (s.err.Some? ==> s.rec == rec && s.err == Some(PresenceConflict(entry)))
  {
  }

  lemma FileTypeStepSpec(entry: Key, rec: Record, etype: string)
    ensures var s := FileTypeStep(entry, rec, etype);
      && (s.err.None? <==> CanBeTyped(rec, etype))
      && (s.err.None? ==> s.rec == rec.(present := Some(true), entryType := Some(etype)))
      && Extends(s.rec, rec)
  {
  }

  /** The entry `link-target` works on is the one its line names. */
  lemma LinkTargetEntry(last: Key, arg: Option<string>)
    requires LinkTargetArgs(last, arg).Some?
    ensures LinkTargetArgs(last, arg).value.1 == NamedEntry(LinkTargetHandler, last, arg)
  {
  }

  /** The entry `perm` works on is the one its line names. */
  lemma PermEntry(cmd: string, last: Key, arg: Option<string>)
    requires PermArgs(cmd, last, arg).Success?
    ensures PermArgs(cmd, last, arg).value.entry == NamedEntry(PermHandler, last, arg)
  {
  }

  lemma OnlyEntryChanges(data: map<Key, Record>, e: Key, x: Record)
    ensures forall k :: k != e ==> MapGet(Mention(data, e)[e := x], k) == MapGet(data, k)
  {
  }

  lemma LinkTargetFrame(data: map<Key, Record>, cmd: string, last: Key, arg: Option<string>)
    ensures var r := LinkTarget(data, cmd, last, arg);
      && (forall k :: k != NamedEntry(LinkTargetHandler, last, arg) ==> MapGet(r.data, k) == MapGet(data, k))
      && (r.result.Success? ==> r.result.value == NamedEntry(LinkTargetHandler, last, arg))
  {
    var args := LinkTargetArgs(last, arg);
    if args.Some? {
      LinkTargetEntry(last, arg);
      var (target, e) := args.value;
      var s := FileTypeStep(e, Mention(data, e)[e], ENTRY_TYPE_SYMLINK);
      OnlyEntryChanges(data, e, s.rec);
      OnlyEntryChanges(data, e, s.rec.(linkTarget := Some(target)));
    }
  }

  lemma PermFrame(data: map<Key, Record>, cmd: string, last: Key, arg: Option<string>)
    ensures var r := Perm(data, cmd, last, arg);
      && (forall k :: k != NamedEntry(PermHandler, last, arg) ==> MapGet(r.data, k) == MapGet(data, k))
      && (r.result.Success? ==> r.result.value == NamedEntry(PermHandler, last, arg))
  {
    var req := PermArgs(cmd, last, arg);
    if req.Success? {
      PermEntry(cmd, last, arg);
      SetPermFrame(data, req.value);
    }
  }

  lemma SetPermFrame(data: map<Key, Record>, req: PermRequest)
    ensures var r := SetPerm(data, req);
      && (forall k :: k != req.entry ==> MapGet(r.data, k) == MapGet(data, k))
      && (r.result.Success? ==> r.result.value == req.entry)
  {
    var e := req.entry;
    var s := PresentStep(e, Mention(data, e)[e], true);
    OnlyEntryChanges(data, e, s.rec);
    OnlyEntryChanges(data, e, s.rec.(perm := Some(req.mode)));
  }

  /** A command changes the record of the entry it names and no other, and
      a successful one hands that entry on as the new last entry
      (`not-present` hands on `None`). */
  lemma HandlerFrame(h: Handler, data: map<Key, Record>, cmd: string, last: Key, arg: Option<string>)
    ensures var r := Handle(h, data, cmd, last, arg);
      && (forall k :: k != NamedEntry(h, last, arg) ==> MapGet(r.data, k) == MapGet(data, k))
      && (r.result.Success? ==> r.result.value == if h == NotPresentHandler then None else NamedEntry(h, last, arg))
  {
    match h
    case ContainsXHandler =>
    case NotPresentHandler =>
    case LinkTargetHandler => LinkTargetFrame(data, cmd, last, arg);
    case PermHandler => PermFrame(data, cmd, last, arg);
    case NotImplementedHandler =>
  }

  /** Every record of `after` extends the record of `before` under its key. */
  predicate TableExtends(after: map<Key, Record>, before: map<Key, Record>) {
    && before.Keys <= after.Keys
    && forall k :: k in before ==> Extends(after[k], before[k])
  }

  lemma UpdateExtends(data: map<Key, Record>, e: Key, x: Record)
    requires Extends(x, Current(data, e))
    ensures TableExtends(Mention(data, e)[e := x], data)
  {
  }

  lemma SetLinkTargetExtends(data: map<Key, Record>, e: Key, target: string)
    ensures TableExtends(SetLinkTarget(data, e, target).data, data)
  {
    var rec := Current(data, e);
    FileTypeStepSpec(e, rec, ENTRY_TYPE_SYMLINK);
    var s := FileTypeStep(e, rec, ENTRY_TYPE_SYMLINK);
    UpdateExtends(data, e, s.rec);
    if s.err.None? && (s.rec.linkTarget.None? || s.rec.linkTarget == Some(target)) {
      UpdateExtends(data, e, s.rec.(linkTarget := Some(target)));
    }
  }

  lemma SetPermExtends(data: map<Key, Record>, req: PermRequest)
    ensures TableExtends(SetPerm(data, req).data, data)
  {
    var e := req.entry;
    var rec := Current(data, e);
    PresentStepSpec(e, rec, true);
    var s := PresentStep(e, rec, true);
    UpdateExtends(data, e, s.rec);
    if s.err.None? && (s.rec.perm.None? || s.rec.perm == Some(req.mode)) {
      UpdateExtends(data, e, s.rec.(perm := Some(req.mode)));
    }
  }

  /** Whatever the outcome, even a raised error, no record is removed and no
      attribute that was set changes its value. */
  lemma HandlerOnlyAddsAttributes(h: Handler, data: map<Key, Record>, cmd: string, last: Key, arg: Option<string>)
    ensures TableExtends(Handle(h, data, cmd, last, arg).data, data)
  {
    match h
    case ContainsXHandler =>
      if SingleArg(arg) {
        var e := Some(arg.value);
        FileTypeStepSpec(e, Current(data, e), EntryTypeOf(cmd));
        UpdateExtends(data, e, FileTypeStep(e, Current(data, e), EntryTypeOf(cmd)).rec);
      }
    case NotPresentHandler =>
      if SingleArg(arg) {
        var e := Some(arg.value);
        PresentStepSpec(e, Current(data, e), false);
        UpdateExtends(data, e, PresentStep(e, Current(data, e), false).rec);
      }
    case LinkTargetHandler =>
      if LinkTargetArgs(last, arg).Some? {
        SetLinkTargetExtends(data, LinkTargetArgs(last, arg).value.1, LinkTargetArgs(last, arg).value.0);
      }
    case PermHandler =>
      if PermArgs(cmd, last, arg).Success? {
        SetPermExtends(data, PermArgs(cmd, last, arg).value);
      }
    case NotImplementedHandler =>
  }

  /** `contains-X` is accepted exactly when it has one argument and the
      record takes presence and the type; the record then has both. */
  lemma ContainsXSucceedsIff(data: map<Key, Record>, cmd: string, last: Key, arg: Option<string>)
    ensures var r := ContainsX(data, cmd, last, arg);
      && (r.result.Success? <==> SingleArg(arg) && CanBeTyped(Current(data, Some(arg.value)), EntryTypeOf(cmd)))
      && (r.result.Success? ==>
            r.data == data[Some(arg.value) := Current(data, Some(arg.value)).(present := Some(true), entryType := Some(EntryTypeOf(cmd)))])
  {
    if SingleArg(arg) {
      var e := Some(arg.value);
      var rec := Current(data, e);
      FileTypeStepSpec(e, rec, EntryTypeOf(cmd));
      MentionUpdate(data, e, rec.(present := Some(true), entryType := Some(EntryTypeOf(cmd))));
    }
  }

  /** `not-present` is accepted exactly when it has one argument and the
      path was not declared present. */
  lemma NotPresentSucceedsIff(data: map<Key, Record>, cmd: string, last: Key, arg: Option<string>)
    ensures var r := NotPresent(data, cmd, last, arg);
      && (r.result.Success? <==> SingleArg(arg) && CanBePresent(Current(data, Some(arg.value)), false))
      && (r.result.Success? ==> r.data == data[Some(arg.value) := Current(data, Some(arg.value)).(present := Some(false))])
  {
    if SingleArg(arg) {
      var e := Some(arg.value);
      var rec := Current(data, e);
      PresentStepSpec(e, rec, false);
      MentionUpdate(data, e, rec.(present := Some(false)));
    }
  }

  /** `link-target` is accepted exactly when it has one or two arguments,
      the entry can be a symlink, and it has no other target. */
  lemma LinkTargetSucceedsIff(data: map<Key, Record>, cmd: string, last: Key, arg: Option<string>)
    ensures var r := LinkTarget(data, cmd, last, arg);
      && (r.result.Success? <==>
            && LinkTargetArgs(last, arg).Some?
            && var (target, entry) := LinkTargetArgs(last, arg).value;
               && CanBeTyped(Current(data, entry), ENTRY_TYPE_SYMLINK)
               && (Current(data, entry).linkTarget.None? || Current(data, entry).linkTarget == Some(target)))
      && (r.result.Success? ==>
            var (target, entry) := LinkTargetArgs(last, arg).value;
            r.data == data[entry := Current(data, entry).(present := Some(true), entryType := Some(ENTRY_TYPE_SYMLINK), linkTarget := Some(target))])
  {
    if LinkTargetArgs(last, arg).Some? {
      var (target, entry) := LinkTargetArgs(last, arg).value;
      var rec := Current(data, entry);
      FileTypeStepSpec(entry, rec, ENTRY_TYPE_SYMLINK);
      var typed := rec.(present := Some(true), entryType := Some(ENTRY_TYPE_SYMLINK));
      MentionUpdate(data, entry, typed);
      UpdateTwice(data, entry, typed, typed.(linkTarget := Some(target)));
      MentionUpdate(data, entry, typed.(linkTarget := Some(target)));
    }
  }

  /** `perm` is accepted exactly when its arguments are a mode and an entry
      with no owner, and the entry is present, not a symlink, and has no
      other mode. */
  lemma PermSucceedsIff(data: map<Key, Record>, cmd: string, last: Key, arg: Option<string>)
    ensures var r := Perm(data, cmd, last, arg);
      && (r.result.Success? <==>
            && PermArgs(cmd, last, arg).Success?
            && var req := PermArgs(cmd, last, arg).value;
               && req.owner.None?
               && CanBePresent(Current(data, req.entry), true)
               && Current(data, req.entry).entryType != Some(ENTRY_TYPE_SYMLINK)
               && (Current(data, req.entry).perm.None? || Current(data, req.entry).perm == Some(req.mode)))
      && (r.result.Success? ==>
            var req := PermArgs(cmd, last, arg).value;
            r.data == data[req.entry := Current(data, req.entry).(present := Some(true), perm := Some(req.mode))])
  {
    if PermArgs(cmd, last, arg).Success? {
      var req := PermArgs(cmd, last, arg).value;
      var rec := Current(data, req.entry);
      PresentStepSpec(req.entry, rec, true);
      var present := rec.(present := Some(true));
      MentionUpdate(data, req.entry, present);
      UpdateTwice(data, req.entry, present, present.(perm := Some(req.mode)));
      MentionUpdate(data, req.entry, present.(perm := Some(req.mode)));
    }
  }

  /** Only the one-argument form of `perm` can succeed: an owner argument
      always ends in an error. */
  lemma PermWithOwnerFails(data: map<Key, Record>, cmd: string, last: Key, arg: Option<string>)
    requires IsTruthy(arg) && 2 <= |SplitWs(arg.value, 4)| <= 3
    ensures Perm(data, cmd, last, arg).result.Failure?
  {
    var req := PermArgs(cmd, last, arg);
    if req.Success? {
      PermArgsOwner(cmd, last, arg);
      assert Perm(data, cmd, last, arg) == SetPerm(data, req.value);
      SetPermOwnerFails(data, req.value);
    }
  }

  /** What `_parse_perm` makes of its argument (dpu/manifest.py:92-103):
      one to three fields, an octal mode first, an owner exactly when there
      is a second field, and an entry, the third field or else the last
      entry; otherwise the arity error, or the `ValueError` of the mode. */
  lemma PermArgsSpec(cmd: string, last: Key, arg: Option<string>)
    ensures var r := PermArgs(cmd, last, arg);
      r.Success? ==>
        && IsTruthy(arg)
        && var args := SplitWs(arg.value, 4);
           && 1 <= |args| <= 3
           && ParseOctal(args[0]) == Some(r.value.mode)
           && (r.value.owner.Some? <==> |args| >= 2)
           && (r.value.owner.Some? ==> SplitUserGroup(args[1]) == Success(r.value.owner.value))
           && r.value.entry == (if |args| == 3 then Some(args[2]) else last)
           && r.value.entry.Some?
    ensures !IsTruthy(arg) ==> PermArgs(cmd, last, arg) == Failure(ArityError(cmd, 1, 3))
    ensures IsTruthy(arg) && !(1 <= |SplitWs(arg.value, 4)| <= 3) ==>
      PermArgs(cmd, last, arg) == Failure(ArityError(cmd, 1, 3))
    ensures IsTruthy(arg) && 1 <= |SplitWs(arg.value, 4)| <= 3 && ParseOctal(SplitWs(arg.value, 4)[0]).None? ==>
      PermArgs(cmd, last, arg) == Failure(InvalidMode(SplitWs(arg.value, 4)[0]))
    ensures IsTruthy(arg) && 1 <= |SplitWs(arg.value, 4)| <= 2 && last.None? ==> PermArgs(cmd, last, arg).Failure?
  {
    if IsTruthy(arg) {
      assert PermArgs(cmd, last, arg) == PermFields(cmd, last, SplitWs(arg.value, 4));
    }
  }

  /** `link-target` without an argument, or with none or more than two
      fields, raises the arity error and changes nothing. */
  lemma LinkTargetArity(data: map<Key, Record>, cmd: string, last: Key, arg: Option<string>)
    ensures !IsTruthy(arg) || !(1 <= |SplitWs(arg.value, 3)| <= 2) ==>
      LinkTarget(data, cmd, last, arg) == HandlerResult(data, Failure(ArityError(cmd, 1, 2)))
  {
  }

  /** `not-present` and `contains-X` take exactly one argument: anything
      else raises the arity error and changes nothing. */
  lemma SingleArgArity(data: map<Key, Record>, cmd: string, last: Key, arg: Option<string>)
    ensures !SingleArg(arg) ==> NotPresent(data, cmd, last, arg) == HandlerResult(data, Failure(ArityError(cmd, 1, 1)))
    ensures !SingleArg(arg) ==> ContainsX(data, cmd, last, arg) == HandlerResult(data, Failure(ArityError(cmd, 1, 1)))
  {
  }

  /** The `COMMANDS` table has exactly nine commands. */
  lemma KnownCommands(cmd: string)
    ensures Commands(cmd).Some? <==>
      cmd in {"contains-file", "contains-dir", "contains-symlink", "not-present", "link-target", "perm",
              "contains-entry", "same-content", "hardlinks"}
    ensures Commands(cmd) == Some(NotImplementedHandler) <==> cmd in {"contains-entry", "same-content", "hardlinks"}
  {
  }

  /** Two or three `perm` arguments carry an owner. */
  lemma PermArgsOwner(cmd: string, last: Key, arg: Option<string>)
    requires IsTruthy(arg) && 2 <= |SplitWs(arg.value, 4)| <= 3
    requires PermArgs(cmd, last, arg).Success?
    ensures PermArgs(cmd, last, arg).value.owner.Some?
  {
    var args := SplitWs(arg.value, 4);
    assert PermArgs(cmd, last, arg) == PermFields(cmd, last, args);
  }

  /** dpu/manifest.py:115-119: an owner is refused after the mode is stored. */
  lemma SetPermOwnerFails(data: map<Key, Record>, req: PermRequest)
    requires req.owner.Some?
    ensures SetPerm(data, req).result.Failure?
  {
  }

  /** `_split_usergroup` accepts the colon form only with a trailing colon:
      the three-way unpacking of `split(":", 2)` refuses `user:group`. */
  lemma SplitUserGroupNeedsTrailingColon(user: string, group: string)
    requires ':' !in user && ':' !in group && group != []
    ensures SplitUserGroup(user + ":" + group) == Failure(UserGroupUnpack(user + ":" + group))
    ensures SplitUserGroup(user + ":" + group + ":") == Success((user, group))
  {
    SplitOnCons(user, ':', group, 1);
    SplitOnNoSep(group, ':', 1);
    assert user + ":" + group + ":" == user + [':'] + (group + [':'] + []);
    SplitOnCons(user, ':', group + [':'] + [], 1);
    SplitOnCons(group, ':', [], 0);
  }

  /** The slash form of `_split_usergroup` is never accepted: the group is
      empty only for a value `user::`, and its slash split then ends in the
      non-empty `::`. */
  lemma SplitUserGroupSlashFails(value: string)
    ensures SplitUserGroup(value).Success? ==> SplitOn(value, ':', 2)[1] != []
  {
    var parts := SplitOn(value, ':', 2);
    if |parts| == 3 && parts[2] == [] && parts[1] == [] {
      assert value == parts[0] + ":" + ":" by { JoinThree(parts, ':'); }
      var alt := SplitOn(value, '/', 2);
      if |alt| == 3 {
        JoinThree(alt, '/');
        assert value[|value| - 1] == ':';
      }
    }
  }

  /** A command that succeeded once succeeds again with the same arguments
      and changes nothing more. */
  lemma HandlerIdempotent(h: Handler, data: map<Key, Record>, cmd: string, last: Key, arg: Option<string>)
    requires Handle(h, data, cmd, last, arg).result.Success?
    ensures var r := Handle(h, data, cmd, last, arg);
      Handle(h, r.data, cmd, last, arg) == r
  {
    var r := Handle(h, data, cmd, last, arg);
    HandlerFrame(h, data, cmd, last, arg);
    HandlerFrame(h, r.data, cmd, last, arg);
    match h
    case ContainsXHandler =>
      ContainsXSucceedsIff(data, cmd, last, arg);
      var e := Some(arg.value);
      var x := Current(data, e).(present := Some(true), entryType := Some(EntryTypeOf(cmd)));
      assert Current(r.data, e) == x;
      ContainsXSucceedsIff(r.data, cmd, last, arg);
      UpdateTwice(data, e, x, x);
    case NotPresentHandler =>
      NotPresentSucceedsIff(data, cmd, last, arg);
      var e := Some(arg.value);
      var x := Current(data, e).(present := Some(false));
      assert Current(r.data, e) == x;
      NotPresentSucceedsIff(r.data, cmd, last, arg);
      UpdateTwice(data, e, x, x);
    case LinkTargetHandler =>
      LinkTargetSucceedsIff(data, cmd, last, arg);
      var (target, e) := LinkTargetArgs(last, arg).value;
      var x := Current(data, e).(present := Some(true), entryType := Some(ENTRY_TYPE_SYMLINK), linkTarget := Some(target));
      assert Current(r.data, e) == x;
      LinkTargetSucceedsIff(r.data, cmd, last, arg);
      UpdateTwice(data, e, x, x);
    case PermHandler =>
      PermSucceedsIff(data, cmd, last, arg);
      var req := PermArgs(cmd, last, arg).value;
      var x := Current(data, req.entry).(present := Some(true), perm := Some(req.mode));
      assert Current(r.data, req.entry) == x;
      PermSucceedsIff(r.data, cmd, last, arg);
      UpdateTwice(data, req.entry, x, x);
    case NotImplementedHandler =>
  }

  /** `contains-symlink` names the symlink type. */
  lemma SymlinkCommandType()
    ensures EntryTypeOf("contains-symlink") == ENTRY_TYPE_SYMLINK
  {
    assert "contains-symlink" == "contains-" + "symlink";
    ReplaceFirstAtStart("contains-", "symlink", "");
  }

  /** A path with a mode cannot become a symlink. */
  lemma PermBlocksSymlink(data: map<Key, Record>, last: Key, arg: Option<string>)
    requires SingleArg(arg) && Current(data, Some(arg.value)).perm.Some?
    ensures ContainsX(data, "contains-symlink", last, arg).result.Failure?
  {
    SymlinkCommandType();
    ContainsXSucceedsIff(data, "contains-symlink", last, arg);
  }

  /** A symlink cannot be given a mode. */
  lemma SymlinkBlocksPerm(data: map<Key, Record>, cmd: string, last: Key, arg: Option<string>)
    requires PermArgs(cmd, last, arg).Success?
    requires Current(data, PermArgs(cmd, last, arg).value.entry).entryType == Some(ENTRY_TYPE_SYMLINK)
    ensures Perm(data, cmd, last, arg).result.Failure?
  {
    PermSucceedsIff(data, cmd, last, arg);
  }

  /** `contains-symlink` on a path that already has a mode raises only
      after it has recorded the path as a symlink. */
  lemma SymlinkAfterPermKeepsType(data: map<Key, Record>, path: string, mode: nat, last: Key)
    requires Some(path) in data && data[Some(path)] == Record(Some(true), None, Some(mode), None)
    requires path != [] && NoSpace(path)
    ensures ContainsX(data, "contains-symlink", last, Some(path)) ==
      HandlerResult(data[Some(path) := Record(Some(true), Some(ENTRY_TYPE_SYMLINK), Some(mode), None)],
                    Failure(SymlinkWithPerm(Some(path))))
  {
    SymlinkCommandType();
    SplitWsWord(path, 1);
  }

  /** `contains-X` with X the type in the command's name. */
  lemma EntryTypeOfCommand(cmd: string)
    requires Commands(cmd) == Some(ContainsXHandler)
    ensures IsKnownType(EntryTypeOf(cmd))
    ensures cmd == "contains-" + EntryTypeOf(cmd)
  {
    if cmd == "contains-file" {
      ReplaceFirstAtStart("contains-", "file", "");
    } else if cmd == "contains-dir" {
      ReplaceFirstAtStart("contains-", "dir", "");
    } else {
      ReplaceFirstAtStart("contains-", "symlink", "");
    }
  }

  /** Every record is one `parse_manifest` can build. */
  predicate AllParsed(data: map<Key, Record>) {
    forall k :: k in data ==> ParsedRecord(data[k])
  }

  /** What every dictionary and last entry the parse loop goes through
      satisfies: records are ones the check expects, and the last entry has
      a type. */
  predicate TableInvariant(data: map<Key, Record>, last: Key) {
    && AllParsed(data)
    && (last.Some? ==> last in data && data[last].entryType.Some?)
  }

  lemma RecordsAfterUpdate(data: map<Key, Record>, e: Key, x: Record)
    requires AllParsed(data)
    requires ParsedRecord(x)
    ensures AllParsed(data[e := x])
  {
  }

  lemma ContainsXKeepsTableInvariant(data: map<Key, Record>, cmd: string, last: Key, arg: Option<string>)
    requires Commands(cmd) == Some(ContainsXHandler)
    requires TableInvariant(data, last)
    ensures var r := ContainsX(data, cmd, last, arg);
      r.result.Success? ==> TableInvariant(r.data, r.result.value)
  {
    var r := ContainsX(data, cmd, last, arg);
    ContainsXSucceedsIff(data, cmd, last, arg);
    if r.result.Success? {
      EntryTypeOfCommand(cmd);
      var e := Some(arg.value);
      var x := Current(data, e).(present := Some(true), entryType := Some(EntryTypeOf(cmd)));
      RecordsAfterUpdate(data, e, x);
      HandlerFrame(ContainsXHandler, data, cmd, last, arg);
    }
  }

  lemma NotPresentKeepsTableInvariant(data: map<Key, Record>, cmd: string, last: Key, arg: Option<string>)
    requires TableInvariant(data, last)
    ensures var r := NotPresent(data, cmd, last, arg);
      r.result.Success? ==> TableInvariant(r.data, r.result.value)
  {
    var r := NotPresent(data, cmd, last, arg);
    NotPresentSucceedsIff(data, cmd, last, arg);
    if r.result.Success? {
      var e := Some(arg.value);
      var x := Current(data, e).(present := Some(false));
      RecordsAfterUpdate(data, e, x);
    }
  }

  lemma LinkTargetKeepsTableInvariant(data: map<Key, Record>, cmd: string, last: Key, arg: Option<string>)
    requires TableInvariant(data, last)
    ensures var r := LinkTarget(data, cmd, last, arg);
      r.result.Success? ==> TableInvariant(r.data, r.result.value)
  {
    var r := LinkTarget(data, cmd, last, arg);
    LinkTargetSucceedsIff(data, cmd, last, arg);
    if r.result.Success? {
      var (target, e) := LinkTargetArgs(last, arg).value;
      var x := Current(data, e).(present := Some(true), entryType := Some(ENTRY_TYPE_SYMLINK), linkTarget := Some(target));
      RecordsAfterUpdate(data, e, x);
      LinkTargetFrame(data, cmd, last, arg);
      LinkTargetEntry(last, arg);
    }
  }

  lemma SetPermKeepsTableInvariant(data: map<Key, Record>, req: PermRequest)
    requires AllParsed(data)
    requires req.entry in data && data[req.entry].entryType.Some?
    ensures var r := SetPerm(data, req);
      r.result.Success? ==> TableInvariant(r.data, r.result.value)
  {
    var r := SetPerm(data, req);
    if r.result.Success? {
      var x := data[req.entry].(present := Some(true), perm := Some(req.mode));
      UpdateTwice(data, req.entry, data[req.entry].(present := Some(true)), x);
      assert r.data == data[req.entry := x];
      RecordsAfterUpdate(data, req.entry, x);
    }
  }

  lemma PermKeepsTableInvariant(data: map<Key, Record>, cmd: string, last: Key, arg: Option<string>)
    requires TableInvariant(data, last)
    ensures var r := Perm(data, cmd, last, arg);
      r.result.Success? ==> TableInvariant(r.data, r.result.value)
  {
    var request := PermArgs(cmd, last, arg);
    if request.Success? {
      assert Perm(data, cmd, last, arg) == SetPerm(data, request.value);
      if request.value.owner.None? {
        PermOneArgument(cmd, last, arg);
        SetPermKeepsTableInvariant(data, request.value);
      } else {
        SetPermOwnerFails(data, request.value);
      }
    }
  }

  /** A successful command of the `COMMANDS` table keeps `TableInvariant`. */
  lemma HandlerKeepsTableInvariant(h: Handler, data: map<Key, Record>, cmd: string, last: Key, arg: Option<string>)
    requires Commands(cmd) == Some(h)
    requires TableInvariant(data, last)
    ensures var r := Handle(h, data, cmd, last, arg);
      r.result.Success? ==> TableInvariant(r.data, r.result.value)
  {
    match h
    case ContainsXHandler => ContainsXKeepsTableInvariant(data, cmd, last, arg);
    case NotPresentHandler => NotPresentKeepsTableInvariant(data, cmd, last, arg);
    case LinkTargetHandler => LinkTargetKeepsTableInvariant(data, cmd, last, arg);
    case PermHandler => PermKeepsTableInvariant(data, cmd, last, arg);
    case NotImplementedHandler =>
  }

  /** A `perm` without an owner applies to the last entry. */
  lemma PermOneArgument(cmd: string, last: Key, arg: Option<string>)
    requires PermArgs(cmd, last, arg).Success? && PermArgs(cmd, last, arg).value.owner.None?
    ensures PermArgs(cmd, last, arg).value.entry == last
  {
  }

  /** A path argument without white space is one argument. */
  lemma WordIsSingleArg(w: string)
    requires w != [] && NoSpace(w)
    ensures SingleArg(Some(w))
  {
    SplitWsWord(w, 1);
  }
}
