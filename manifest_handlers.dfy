/** The command handlers of the manifest language and the dictionary they
    update in place (dpu/manifest.py:11-138).

    Each handler is given twice: as a function on the dictionary's value,
    which the parse loop's specification and the lemmas use, and as a method
    of `EntryTable`, the dictionary object itself, which updates the record
    of one entry step by step as the Python does and is proved to leave
    exactly the state and result the function describes.  This includes the
    state a raising handler leaves behind: a record it created, or an
    attribute it set before it found a conflict. */
module ManifestHandlers {
  import opened Wrappers
  import opened PyStr
  import opened ManifestTypes

  /** A record being updated, and the error that stopped the update, if any. */
  datatype Step = Step(rec: Record, err: Option<ManifestError>)

  /** The dictionary after a handler ran, and the entry it returned or the
      error it raised. */
  datatype HandlerResult = HandlerResult(data: map<Key, Record>, result: Result<Key, ManifestError>)

  /** `__get_edata`: the dictionary with a record for `entry`, an empty one
      if `entry` was not mentioned before. */
  function Mention(data: map<Key, Record>, entry: Key): (d: map<Key, Record>)
    ensures entry in d && d.Keys == data.Keys + {entry}
    ensures forall k :: k in data ==> d[k] == data[k]
    ensures entry !in data ==> d[entry] == EmptyRecord
  {
    if entry in data then data else data[entry := EmptyRecord]
  }

  /** `__is_present`. */
  function PresentStep(entry: Key, rec: Record, present: bool): Step {
    if rec.present.Some? && rec.present.value != present then
      Step(rec, Some(PresenceConflict(entry)))
    else
      Step(rec.(present := Some(present)), None)
  }

  /** `__is_file_type`: present, then the type, then the symlink/perm clash. */
  function FileTypeStep(entry: Key, rec: Record, etype: string): Step {
    var p := PresentStep(entry, rec, true);
    if p.err.Some? then p
    else if p.rec.entryType.Some? && p.rec.entryType.value != etype then
      Step(p.rec, Some(TypeConflict(entry, etype, p.rec.entryType.value)))
    else
      var r := if p.rec.entryType.Some? then p.rec else p.rec.(entryType := Some(etype));
      if etype == ENTRY_TYPE_SYMLINK && r.perm.Some? then Step(r, Some(SymlinkWithPerm(entry)))
      else Step(r, None)
  }

  /** Python's `if arg:` on an argument string or `None`. */
  predicate IsTruthy(arg: Option<string>) {
    arg.Some? && arg.value != []
  }

  /** `arg and len(arg.split(None, 1)) == 1`. */
  predicate SingleArg(arg: Option<string>) {
    IsTruthy(arg) && |SplitWs(arg.value, 1)| == 1
  }

  /** The (target, entry) pair `link-target` reads off its argument. */
  function LinkTargetArgs(last: Key, arg: Option<string>): Option<(string, Key)> {
    if !IsTruthy(arg) then None
    else
      var args := SplitWs(arg.value, 3);
      if |args| == 1 then Some((args[0], last))
      else if |args| == 2 then Some((args[0], Some(args[1])))
      else None
  }

  /** `__parse_link_target`. */
  function LinkTarget(data: map<Key, Record>, cmd: string, last: Key, arg: Option<string>): HandlerResult {
    match LinkTargetArgs(last, arg)
    case None => HandlerResult(data, Failure(ArityError(cmd, 1, 2)))
    case Some(p) => SetLinkTarget(data, p.1, p.0)
  }

  /** dpu/manifest.py:60-66: record that `entry` is a symlink to `target`. */
  function SetLinkTarget(data: map<Key, Record>, entry: Key, target: string): HandlerResult {
      var d := Mention(data, entry);
      var s := FileTypeStep(entry, d[entry], ENTRY_TYPE_SYMLINK);
      if s.err.Some? then HandlerResult(d[entry := s.rec], Failure(s.err.value))
      else if s.rec.linkTarget.Some? && s.rec.linkTarget.value != target then
        HandlerResult(d[entry := s.rec], Failure(LinkTargetConflict(entry, target, s.rec.linkTarget.value)))
      else
        HandlerResult(d[entry := s.rec.(linkTarget := Some(target))], Success(entry))
  }

  /** `__parse_not_present`: the entry is the argument as given. */
  function NotPresent(data: map<Key, Record>, cmd: string, last: Key, arg: Option<string>): HandlerResult {
    if !SingleArg(arg) then HandlerResult(data, Failure(ArityError(cmd, 1, 1)))
    else
      var entry := Some(arg.value);
      var d := Mention(data, entry);
      var s := PresentStep(entry, d[entry], false);
      HandlerResult(d[entry := s.rec], if s.err.Some? then Failure(s.err.value) else Success(None))
  }

  /** `cmd.replace("contains-", "", 1)`. */
  function EntryTypeOf(cmd: string): string {
    ReplaceFirst(cmd, "contains-", "")
  }

  /** `__parse_contains_X`. */
  function ContainsX(data: map<Key, Record>, cmd: string, last: Key, arg: Option<string>): HandlerResult {
    var etype := EntryTypeOf(cmd);
    if !SingleArg(arg) then HandlerResult(data, Failure(ArityError(cmd, 1, 1)))
    else
      var entry := Some(arg.value);
      var d := Mention(data, entry);
      var s := FileTypeStep(entry, d[entry], etype);
      HandlerResult(d[entry := s.rec], if s.err.Some? then Failure(s.err.value) else Success(entry))
  }

  /** `_split_usergroup`: the three-way unpacking of `value.split(":", 2)`,
      then of `value.split("/", 2)` when the group is empty. */
  function SplitUserGroup(value: string): Result<(string, string), ManifestError> {
    var parts := SplitOn(value, ':', 2);
    if |parts| != 3 then Failure(UserGroupUnpack(value))
    else if parts[2] != [] then Failure(TooManyColons(value))
    else if parts[1] != [] then Success((parts[0], parts[1]))
    else
      var alt := SplitOn(value, '/', 2);
      if |alt| != 3 then Failure(UserGroupUnpack(value))
      else if alt[2] != [] then Failure(SlashInUserGroup(value))
      else Success((alt[0], alt[1]))
  }

  /** What `perm` reads off its argument before it touches the dictionary. */
  datatype PermRequest = PermRequest(mode: nat, owner: Option<(string, string)>, entry: Key)

  /** dpu/manifest.py:88-103: the mode, the optional owner and the entry. */
  function PermArgs(cmd: string, last: Key, arg: Option<string>): Result<PermRequest, ManifestError> {
    if !IsTruthy(arg) then Failure(ArityError(cmd, 1, 3))
    else PermFields(cmd, last, SplitWs(arg.value, 4))
  }

  /** The request read off the fields of `arg.split(None, 4)`. */
  function PermFields(cmd: string, last: Key, args: seq<string>): Result<PermRequest, ManifestError> {
    if !(0 < |args| < 4) then Failure(ArityError(cmd, 1, 3))
    else match ParseOctal(args[0])
      case None => Failure(InvalidMode(args[0]))
      case Some(mode) =>
        if |args| == 1 then
          if last.None? then Failure(ArityError(cmd, 1, 3)) else Success(PermRequest(mode, None, last))
        else match SplitUserGroup(args[1])
          case Failure(e) => Failure(e)
          case Success(owner) =>
            var entry := if |args| == 3 then Some(args[2]) else last;
            if entry.None? then Failure(ArityError(cmd, 1, 3))
            else Success(PermRequest(mode, Some(owner), entry))
  }

  /** `_parse_perm`. */
  function Perm(data: map<Key, Record>, cmd: string, last: Key, arg: Option<string>): HandlerResult {
    match PermArgs(cmd, last, arg)
    case Failure(e) => HandlerResult(data, Failure(e))
    case Success(req) => SetPerm(data, req)
  }

  /** dpu/manifest.py:105-121: record the mode of `req.entry`; an owner
      is refused only after the mode has been stored. */
  function SetPerm(data: map<Key, Record>, req: PermRequest): HandlerResult {
      var entry := req.entry;
      var d := Mention(data, entry);
      var s := PresentStep(entry, d[entry], true);
      if s.err.Some? then HandlerResult(d[entry := s.rec], Failure(s.err.value))
      else if s.rec.entryType.Some? && s.rec.entryType.value == ENTRY_TYPE_SYMLINK then
        HandlerResult(d[entry := s.rec], Failure(PermOnSymlink(entry)))
      else if s.rec.perm.Some? && s.rec.perm.value != req.mode then
        HandlerResult(d[entry := s.rec], Failure(PermConflict(entry)))
      else
        var d' := d[entry := s.rec.(perm := Some(req.mode))];
        if req.owner.Some? then HandlerResult(d', Failure(NotImplemented("user:group setting")))
        else HandlerResult(d', Success(entry))
  }

  /** `__not_implemented`. */
  function NotImplementedCmd(data: map<Key, Record>, cmd: string, last: Key, arg: Option<string>): HandlerResult {
    HandlerResult(data, Failure(NotImplemented(cmd)))
  }

  /** The handlers the `COMMANDS` table can name. */
  datatype Handler = ContainsXHandler | NotPresentHandler | LinkTargetHandler | PermHandler | NotImplementedHandler

  /** The `COMMANDS` table. */
  function Commands(cmd: string): Option<Handler> {
    if cmd == "contains-file" || cmd == "contains-dir" || cmd == "contains-symlink" then Some(ContainsXHandler)
    else if cmd == "not-present" then Some(NotPresentHandler)
    else if cmd == "link-target" then Some(LinkTargetHandler)
    else if cmd == "perm" then Some(PermHandler)
    else if cmd == "contains-entry" || cmd == "same-content" || cmd == "hardlinks" then Some(NotImplementedHandler)
    else None
  }

  /** `COMMANDS[cmd](data, cmd, last, arg)`. */
  function Handle(h: Handler, data: map<Key, Record>, cmd: string, last: Key, arg: Option<string>): HandlerResult {
    match h
    case ContainsXHandler => ContainsX(data, cmd, last, arg)
    case NotPresentHandler => NotPresent(data, cmd, last, arg)
    case LinkTargetHandler => LinkTarget(data, cmd, last, arg)
    case PermHandler => Perm(data, cmd, last, arg)
    case NotImplementedHandler => NotImplementedCmd(data, cmd, last, arg)
  }

  /** The `data` dictionary `parse_manifest` hands to every handler. */
  class EntryTable {
    var data: map<Key, Record>

    constructor ()
      ensures data == map[]
    {
      data := map[];
    }

    /** `__get_edata`. */
    method GetEdata(entry: Key)
      modifies this
      ensures data == Mention(old(data), entry)
    {
      if entry !in data {
        data := data[entry := EmptyRecord];
      }
    }

    /** `__is_present`. */
    method IsPresent(entry: Key, present: bool) returns (err: Option<ManifestError>)
      requires entry in data
      modifies this
      ensures data == old(data)[entry := PresentStep(entry, old(data)[entry], present).rec]
      ensures err == PresentStep(entry, old(data)[entry], present).err
    {
      var edata := data[entry];
      if edata.present.Some? && edata.present.value != present {
        return Some(PresenceConflict(entry));
      }
      data := data[entry := edata.(present := Some(present))];
      return None;
    }

    /** `__is_file_type`. */
    method IsFileType(entry: Key, etype: string) returns (err: Option<ManifestError>)
      requires entry in data
      modifies this
      ensures data == old(data)[entry := FileTypeStep(entry, old(data)[entry], etype).rec]
      ensures err == FileTypeStep(entry, old(data)[entry], etype).err
    {
      err := IsPresent(entry, true);
      if err.Some? {
        return;
      }
      var edata := data[entry];
      if edata.entryType.Some? {
        if edata.entryType.value != etype {
          return Some(TypeConflict(entry, etype, edata.entryType.value));
        }
      } else {
        data := data[entry := edata.(entryType := Some(etype))];
      }
      if etype == ENTRY_TYPE_SYMLINK && data[entry].perm.Some? {
        return Some(SymlinkWithPerm(entry));
      }
      return None;
    }

    /** `__parse_link_target`. */
    method ParseLinkTarget(cmd: string, last: Key, arg: Option<string>) returns (r: Result<Key, ManifestError>)
      modifies this
      ensures HandlerResult(data, r) == LinkTarget(old(data), cmd, last, arg)
    {
      var entry := last;
      var target: Option<string> := None;
      if arg.Some? && arg.value != [] {
        var args := SplitWs(arg.value, 3);
        if |args| == 1 || |args| == 2 {
          target := Some(args[0]);
          if |args| > 1 {
            entry := Some(args[1]);
          }
        }
      }
      assert LinkTargetArgs(last, arg) == if target.None? then None else Some((target.value, entry));
      if target.None? {
        return Failure(ArityError(cmd, 1, 2));
      }
      ghost var spec := SetLinkTarget(data, entry, target.value);
      assert LinkTarget(data, cmd, last, arg) == spec;
      GetEdata(entry);
      ghost var d := data;
      var err := IsFileType(entry, ENTRY_TYPE_SYMLINK);
      ghost var s := FileTypeStep(entry, d[entry], ENTRY_TYPE_SYMLINK);
      if err.Some? {
        assert spec == HandlerResult(data, Failure(err.value));
        return Failure(err.value);
      }
      var edata := data[entry];
      assert edata == s.rec;
      if edata.linkTarget.Some? && edata.linkTarget.value != target.value {
        assert spec == HandlerResult(data, Failure(LinkTargetConflict(entry, target.value, edata.linkTarget.value)));
        return Failure(LinkTargetConflict(entry, target.value, edata.linkTarget.value));
      }
      ghost var updated := s.rec.(linkTarget := Some(target.value));
      UpdateTwice(d, entry, s.rec, updated);
      data := data[entry := edata.(linkTarget := target)];
      assert spec == HandlerResult(data, Success(entry));
      return Success(entry);
    }

    /** `__parse_not_present`. */
    method ParseNotPresent(cmd: string, last: Key, arg: Option<string>) returns (r: Result<Key, ManifestError>)
      modifies this
      ensures HandlerResult(data, r) == NotPresent(old(data), cmd, last, arg)
    {
      if !(arg.Some? && arg.value != []) || |SplitWs(arg.value, 1)| != 1 {
        return Failure(ArityError(cmd, 1, 1));
      }
      var entry := Some(arg.value);
      GetEdata(entry);
      var err := IsPresent(entry, false);
      if err.Some? {
        return Failure(err.value);
      }
      return Success(None);
    }

    /** `__parse_contains_X`. */
    method ParseContainsX(cmd: string, last: Key, arg: Option<string>) returns (r: Result<Key, ManifestError>)
      modifies this
      ensures HandlerResult(data, r) == ContainsX(old(data), cmd, last, arg)
    {
      var etype := ReplaceFirst(cmd, "contains-", "");
      if !(arg.Some? && arg.value != []) || |SplitWs(arg.value, 1)| != 1 {
        return Failure(ArityError(cmd, 1, 1));
      }
      var entry := Some(arg.value);
      GetEdata(entry);
      var err := IsFileType(entry, etype);
      if err.Some? {
        return Failure(err.value);
      }
      return Success(entry);
    }

    /** `_parse_perm`. */
    method ParsePerm(cmd: string, last: Key, arg: Option<string>) returns (r: Result<Key, ManifestError>)
      modifies this
      ensures HandlerResult(data, r) == Perm(old(data), cmd, last, arg)
    {
      var req := ReadPermArgs(cmd, last, arg);
      if req.Failure? {
        return Failure(req.error);
      }
      r := StorePerm(req.value);
    }

    /** dpu/manifest.py:88-103, the first half of `_parse_perm`. */
    static method ReadPermArgs(cmd: string, last: Key, arg: Option<string>) returns (r: Result<PermRequest, ManifestError>)
      ensures r == PermArgs(cmd, last, arg)
    {
      if !(arg.Some? && arg.value != []) {
        return Failure(ArityError(cmd, 1, 3));
      }
      var args := SplitWs(arg.value, 4);
      assert PermArgs(cmd, last, arg) == PermFields(cmd, last, args);
      if !(0 < |args| < 4) {
        return Failure(ArityError(cmd, 1, 3));
      }
      var mode := ParseOctal(args[0]);
      if mode.None? {
        return Failure(InvalidMode(args[0]));
      }
      var owner: Option<(string, string)> := None;
      if |args| > 1 {
        var ug := SplitUserGroup(args[1]);
        if ug.Failure? {
          return Failure(ug.error);
        }
        owner := Some(ug.value);
      }
      var entry := if |args| == 3 then Some(args[2]) else last;
      if entry.None? {
        return Failure(ArityError(cmd, 1, 3));
      }
      return Success(PermRequest(mode.value, owner, entry));
    }

    /** dpu/manifest.py:105-121, the second half of `_parse_perm`. */
    method StorePerm(req: PermRequest) returns (r: Result<Key, ManifestError>)
      modifies this
      ensures HandlerResult(data, r) == SetPerm(old(data), req)
    {
      var entry := req.entry;
      GetEdata(entry);
      ghost var d := data;
      var err := IsPresent(entry, true);
      ghost var s := PresentStep(entry, d[entry], true);
      if err.Some? {
        return Failure(err.value);
      }
      var edata := data[entry];
      assert edata == s.rec;
      if edata.entryType.Some? && edata.entryType.value == ENTRY_TYPE_SYMLINK {
        return Failure(PermOnSymlink(entry));
      }
      if edata.perm.Some? && edata.perm.value != req.mode {
        return Failure(PermConflict(entry));
      }
      UpdateTwice(d, entry, s.rec, s.rec.(perm := Some(req.mode)));
      data := data[entry := edata.(perm := Some(req.mode))];
      if req.owner.Some? {
        return Failure(NotImplemented("user:group setting"));
      }
      return Success(entry);
    }

    /** `__not_implemented`. */
    method NotImplementedHandlerCall(cmd: string, last: Key, arg: Option<string>) returns (r: Result<Key, ManifestError>)
      ensures r == NotImplementedCmd(data, cmd, last, arg).result
    {
      return Failure(NotImplemented(cmd));
    }

    /** `COMMANDS[cmd](data, cmd, last, arg)`. */
    method Dispatch(h: Handler, cmd: string, last: Key, arg: Option<string>) returns (r: Result<Key, ManifestError>)
      modifies this
      ensures HandlerResult(data, r) == Handle(h, old(data), cmd, last, arg)
    {
      match h
      case ContainsXHandler => r := ParseContainsX(cmd, last, arg);
      case NotPresentHandler => r := ParseNotPresent(cmd, last, arg);
      case LinkTargetHandler => r := ParseLinkTarget(cmd, last, arg);
      case PermHandler => r := ParsePerm(cmd, last, arg);
      case NotImplementedHandler => r := NotImplementedHandlerCall(cmd, last, arg);
    }
  }
}
