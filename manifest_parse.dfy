/** `parse_manifest` (dpu/manifest.py:141-154): the line loop that feeds
    each command to its handler, threading the last entry from one line to
    the next. */
module ManifestParse {
  import opened Wrappers
  import opened PyStr
  import opened ManifestTypes
  import opened ManifestHandlers
  import opened HandlerProps
  import opened ManifestCheck
  import opened CheckProps

  /** The command and argument of a manifest line, or `None` for a blank
      line or a comment.  Only the second of the three fields of
      `line.split(None, 2)` reaches the handler. */
  function LineCommand(line: string): Option<(string, Option<string>)> {
    var l := LStrip(line);
    if l == [] || l[0] == '#' then None
    else
      var spl := SplitWs(l, 2);
      Some((spl[0], if |spl| == 1 then None else Some(spl[1])))
  }

  /** The loop from `lines[0]` on, with the dictionary and last entry so
      far: the dictionary at the end, or the first error raised. */
  function ParseFrom(data: map<Key, Record>, last: Key, lines: seq<string>): Result<map<Key, Record>, ManifestError>
    decreases |lines|
  {
    if lines == [] then Success(data)
    else match LineCommand(lines[0])
      case None => ParseFrom(data, last, lines[1..])
      case Some((cmd, arg)) =>
        match Commands(cmd)
        case None => Failure(UnknownCommand(cmd))
        case Some(h) =>
          var r := Handle(h, data, cmd, last, arg);
          match r.result
          case Failure(e) => Failure(e)
          case Success(next) => ParseFrom(r.data, next, lines[1..])
  }

  /** `parse_manifest`, over the lines of the file. */
  method ParseManifest(lines: seq<string>) returns (r: Result<Manifest, ManifestError>)
    ensures r.Success? <==> ParseFrom(map[], None, lines).Success?
    ensures r.Success? ==> r.value.data == ParseFrom(map[], None, lines).value
    ensures r.Failure? ==> r.error == ParseFrom(map[], None, lines).error
  {
    var t := new EntryTable();
    var last: Key := None;
    var i := 0;
    while i < |lines|
      invariant 0 <= i <= |lines|
      invariant ParseFrom(t.data, last, lines[i..]) == ParseFrom(map[], None, lines)
    {
      assert lines[i..][1..] == lines[i + 1..];
      var line := LStrip(lines[i]);
      if line == [] || line[0] == '#' {
        i := i + 1;
        continue;
      }
      var spl := SplitWs(line, 2);
      var handler := Commands(spl[0]);
      if handler.None? {
        return Failure(UnknownCommand(spl[0]));
      }
      var arg := if |spl| == 1 then None else Some(spl[1]);
      var res := t.Dispatch(handler.value, spl[0], last, arg);
      if res.Failure? {
        return Failure(res.error);
      }
      last := res.value;
      i := i + 1;
    }
    var m := new Manifest(t.data);
    return Success(m);
  }

  /** A blank line or a comment. */
  predicate Skipped(line: string) {
    LStrip(line) == [] || LStrip(line)[0] == '#'
  }

  /** The lines that are not blank and not comments. */
  function Significant(lines: seq<string>): (r: seq<string>)
    ensures forall i :: 0 <= i < |r| ==> !Skipped(r[i])
    decreases |lines|
  {
    if lines == [] then []
    else if Skipped(lines[0]) then Significant(lines[1..])
    else [lines[0]] + Significant(lines[1..])
  }

  /** Blank lines and comments make no difference anywhere in a manifest. */
  lemma {:induction false} CommentsIgnored(data: map<Key, Record>, last: Key, lines: seq<string>)
    ensures ParseFrom(data, last, lines) == ParseFrom(data, last, Significant(lines))
    decreases |lines|
  {
    if lines != [] {
      if Skipped(lines[0]) {
        CommentsIgnored(data, last, lines[1..]);
      } else {
        var s := [lines[0]] + Significant(lines[1..]);
        assert s[0] == lines[0] && s[1..] == Significant(lines[1..]);
        match LineCommand(lines[0])
        case None =>
        case Some((cmd, arg)) =>
          match Commands(cmd)
          case None =>
          case Some(h) =>
            var r := Handle(h, data, cmd, last, arg);
            if r.result.Success? {
              CommentsIgnored(r.data, r.result.value, lines[1..]);
            }
      }
    }
  }

  /** A line that starts with neither whitespace nor `#` is a command. */
  lemma CommandLineFields(l: string)
    requires l != [] && !IsSpace(l[0]) && l[0] != '#'
    ensures LineCommand(l) == Some((SplitWs(l, 2)[0], if |SplitWs(l, 2)| == 1 then None else Some(SplitWs(l, 2)[1])))
  {
    LStripUnchanged(l);
  }

  /** A line of a command and one argument. */
  lemma CommandLine(cmd: string, arg: string)
    requires cmd != [] && NoSpace(cmd) && cmd[0] != '#' && arg != [] && NoSpace(arg)
    ensures LineCommand(cmd + " " + arg) == Some((cmd, Some(arg)))
  {
    var l := cmd + " " + arg;
    assert l[0] == cmd[0];
    CommandLineFields(l);
    SplitWsWord(arg, 1);
    SplitWsCons(cmd, " ", arg, 1);
    assert SplitWs(l, 2) == [cmd, arg];
  }

  /** Of `cmd a b ...`, only `a` reaches the handler: everything after the
      second field of the line is dropped. */
  lemma ThirdTokenDropped(cmd: string, a: string, rest: string)
    requires cmd != [] && NoSpace(cmd) && cmd[0] != '#' && a != [] && NoSpace(a)
    requires rest != [] && !IsSpace(rest[0])
    ensures LineCommand(cmd + " " + a + " " + rest) == Some((cmd, Some(a)))
  {
    var l := cmd + " " + a + " " + rest;
    assert l == cmd + " " + (a + " " + rest);
    assert l[0] == cmd[0];
    CommandLineFields(l);
    SplitWsCons(cmd, " ", a + " " + rest, 1);
    SplitWsCons(a, " ", rest, 0);
    var spl := SplitWs(l, 2);
    assert spl == [cmd] + ([a] + SplitWs(rest, 0));
    assert |spl| >= 2 && spl[0] == cmd && spl[1] == a;
  }

  /** Lines that read as the same command parse alike. */
  lemma SameCommandSameParse(data: map<Key, Record>, last: Key, l1: string, l2: string, lines: seq<string>)
    requires LineCommand(l1) == LineCommand(l2)
    ensures ParseFrom(data, last, [l1] + lines) == ParseFrom(data, last, [l2] + lines)
  {
    assert ([l1] + lines)[0] == l1 && ([l1] + lines)[1..] == lines;
    assert ([l2] + lines)[0] == l2 && ([l2] + lines)[1..] == lines;
    match LineCommand(l1)
    case None =>
    case Some((cmd, arg)) =>
      match Commands(cmd)
      case None =>
      case Some(h) =>
        ParseStep(data, last, l1, lines, cmd, arg, h);
        ParseStep(data, last, l2, lines, cmd, arg, h);
  }

  /** A command line is handed to the handler its command names, and the
      loop goes on from the handler's dictionary and entry. */
  lemma ParseStep(data: map<Key, Record>, last: Key, l: string, lines: seq<string>, cmd: string, arg: Option<string>, h: Handler)
    requires LineCommand(l) == Some((cmd, arg)) && Commands(cmd) == Some(h)
    ensures ParseFrom(data, last, [l] + lines) ==
      match Handle(h, data, cmd, last, arg).result
      case Failure(e) => Failure(e)
      case Success(next) => ParseFrom(Handle(h, data, cmd, last, arg).data, next, lines)
  {
    assert ([l] + lines)[0] == l && ([l] + lines)[1..] == lines;
  }

  /** A line whose command is not in the `COMMANDS` table ends the parse
      with the unknown-command error, whatever follows. */
  lemma UnknownCommandRaises(data: map<Key, Record>, last: Key, l: string, rest: seq<string>, cmd: string, arg: Option<string>)
    requires LineCommand(l) == Some((cmd, arg)) && Commands(cmd).None?
    ensures ParseFrom(data, last, [l] + rest) == Failure(UnknownCommand(cmd))
  {
    assert ([l] + rest)[0] == l;
  }

  /** A line its handler accepts leaves the rest of the file to go on from
      the handler's dictionary and entry. */
  lemma ParseStepOk(data: map<Key, Record>, last: Key, lines: seq<string>, cmd: string, arg: Option<string>, h: Handler, after: map<Key, Record>, next: Key)
    requires lines != [] && LineCommand(lines[0]) == Some((cmd, arg)) && Commands(cmd) == Some(h)
    requires Handle(h, data, cmd, last, arg) == HandlerResult(after, Success(next))
    ensures ParseFrom(data, last, lines) == ParseFrom(after, next, lines[1..])
  {
  }

  /** A line its handler refuses ends the parse with the handler's error. */
  lemma ParseStepFails(data: map<Key, Record>, last: Key, lines: seq<string>, cmd: string, arg: Option<string>, h: Handler, e: ManifestError)
    requires lines != [] && LineCommand(lines[0]) == Some((cmd, arg)) && Commands(cmd) == Some(h)
    requires Handle(h, data, cmd, last, arg).result == Failure(e)
    ensures ParseFrom(data, last, lines) == Failure(e)
  {
  }

  /** So `link-target <target> <path>` read from a file sets the target of
      the last entry, exactly as `link-target <target>` does, and never of
      `<path>`. */
  lemma LinkTargetPathDropped(data: map<Key, Record>, last: Key, target: string, path: string, lines: seq<string>)
    requires target != [] && NoSpace(target) && path != [] && !IsSpace(path[0])
    ensures ParseFrom(data, last, ["link-target " + target + " " + path] + lines)
         == ParseFrom(data, last, ["link-target " + target] + lines)
  {
    var cmd := "link-target";
    assert NoSpace(cmd);
    assert "link-target " + target + " " + path == cmd + " " + target + " " + path;
    assert "link-target " + target == cmd + " " + target;
    ThirdTokenDropped(cmd, target, path);
    CommandLine(cmd, target);
    SameCommandSameParse(data, last, "link-target " + target + " " + path, "link-target " + target, lines);
  }

  /** Every dictionary a successful parse returns satisfies `TableInvariant`. */
  lemma {:induction false} ParseKeepsTableInvariant(data: map<Key, Record>, last: Key, lines: seq<string>)
    requires TableInvariant(data, last)
    ensures ParseFrom(data, last, lines).Success? ==> AllParsed(ParseFrom(data, last, lines).value)
    decreases |lines|
  {
    if lines != [] {
      match LineCommand(lines[0])
      case None => ParseKeepsTableInvariant(data, last, lines[1..]);
      case Some((cmd, arg)) =>
        match Commands(cmd)
        case None =>
        case Some(h) =>
          var r := Handle(h, data, cmd, last, arg);
          HandlerKeepsTableInvariant(h, data, cmd, last, arg);
          if r.result.Success? {
            ParseKeepsTableInvariant(r.data, r.result.value, lines[1..]);
          }
    }
  }

  /** A parsed manifest never trips the assertions of `check_tarball`, and
      never lacks a presence flag: a check of it fails only with a
      `ManifestCheckError`, or the `IndexError` of an empty member name. */
  lemma ParsedManifestChecksCleanly(lines: seq<string>, members: seq<Member>)
    requires ParseFrom(map[], None, lines).Success?
    ensures var data := ParseFrom(map[], None, lines).value;
      CheckTarballSpec(data, members).Fail? ==> !IsManifestFault(CheckTarballSpec(data, members).error)
  {
    ParseKeepsTableInvariant(map[], None, lines);
    ParsedManifestNoFault(ParseFrom(map[], None, lines).value, members);
  }

  /** `TableExtends` composes. */
  lemma TableExtendsTransitive(a: map<Key, Record>, b: map<Key, Record>, c: map<Key, Record>)
    requires TableExtends(b, a) && TableExtends(c, b)
    ensures TableExtends(c, a)
  {
  }

  /** A later line never takes back what an earlier one declared. */
  lemma {:induction false} ParseOnlyAddsAttributes(data: map<Key, Record>, last: Key, lines: seq<string>)
    ensures ParseFrom(data, last, lines).Success? ==> TableExtends(ParseFrom(data, last, lines).value, data)
    decreases |lines|
  {
    if lines != [] {
      match LineCommand(lines[0])
      case None => ParseOnlyAddsAttributes(data, last, lines[1..]);
      case Some((cmd, arg)) =>
        match Commands(cmd)
        case None =>
        case Some(h) =>
          var r := Handle(h, data, cmd, last, arg);
          if r.result.Success? {
            HandlerOnlyAddsAttributes(h, data, cmd, last, arg);
            ParseOnlyAddsAttributes(r.data, r.result.value, lines[1..]);
            if ParseFrom(data, last, lines).Success? {
              TableExtendsTransitive(data, r.data, ParseFrom(data, last, lines).value);
            }
          }
    }
  }

  /** The handlers of the commands the examples use. */
  lemma CommandTable()
    ensures Commands("contains-file") == Some(ContainsXHandler) && NoSpace("contains-file")
    ensures Commands("contains-dir") == Some(ContainsXHandler) && NoSpace("contains-dir")
    ensures Commands("contains-symlink") == Some(ContainsXHandler) && NoSpace("contains-symlink")
    ensures Commands("link-target") == Some(LinkTargetHandler) && NoSpace("link-target")
  {
  }

  /** The manifest line `<cmd> <arg>`. */
  function Line(cmd: string, arg: string): string {
    cmd + " " + arg
  }

  /** `link-target <target>` on a symlink that has no target yet. */
  lemma SymlinkGetsTarget(path: string, target: string)
    requires target != [] && NoSpace(target)
    ensures var e := Some(path);
      Handle(LinkTargetHandler, map[e := Record(Some(true), Some(ENTRY_TYPE_SYMLINK), None, None)], "link-target", e, Some(target))
        == HandlerResult(map[e := Record(Some(true), Some(ENTRY_TYPE_SYMLINK), None, Some(target))], Success(e))
  {
    var e := Some(path);
    var rec := Record(Some(true), Some(ENTRY_TYPE_SYMLINK), None, None);
    var d1 := map[e := rec];
    SplitWsWord(target, 1);
    assert LinkTargetArgs(e, Some(target)) == Some((target, e));
    assert Mention(d1, e) == d1;
    assert FileTypeStep(e, rec, ENTRY_TYPE_SYMLINK) == Step(rec, None);
    assert d1[e := rec.(linkTarget := Some(target))] == map[e := Record(Some(true), Some(ENTRY_TYPE_SYMLINK), None, Some(target))];
  }

  /** `contains-file <path>` on a directory. */
  lemma FileConflict(path: string)
    requires path != [] && NoSpace(path)
    ensures Handle(ContainsXHandler, map[Some(path) := Record(Some(true), Some(ENTRY_TYPE_DIR), None, None)], "contains-file", Some(path), Some(path)).result
         == Failure(TypeConflict(Some(path), ENTRY_TYPE_FILE, ENTRY_TYPE_DIR))
  {
    WordIsSingleArg(path);
    EntryTypeOfCommand("contains-file");
    CommandTable();
    assert "contains-file" == "contains-" + ENTRY_TYPE_FILE;
  }

  /** `contains-<type> <path>` on an empty dictionary. */
  lemma DeclareLine(cmd: string, etype: string, path: string)
    requires cmd == "contains-file" || cmd == "contains-dir" || cmd == "contains-symlink"
    requires cmd == "contains-" + etype
    requires path != [] && NoSpace(path)
    ensures LineCommand(Line(cmd, path)) == Some((cmd, Some(path)))
    ensures Commands(cmd) == Some(ContainsXHandler)
    ensures Handle(ContainsXHandler, map[], cmd, None, Some(path))
         == HandlerResult(map[Some(path) := Record(Some(true), Some(etype), None, None)], Success(Some(path)))
  {
    CommandTable();
    EntryTypeOfCommand(cmd);
    assert EntryTypeOf(cmd) == etype;
    CommandLine(cmd, path);
    WordIsSingleArg(path);
    ContainsXSucceedsIff(map[], cmd, None, Some(path));
  }

  /** `<cmd> <arg>` for a command of the examples. */
  lemma KnownLine(cmd: string, arg: string)
    requires cmd == "contains-file" || cmd == "contains-dir" || cmd == "contains-symlink" || cmd == "link-target"
    requires arg != [] && NoSpace(arg)
    ensures LineCommand(Line(cmd, arg)) == Some((cmd, Some(arg)))
  {
    CommandTable();
    CommandLine(cmd, arg);
  }

  /** A file of two lines that both handlers accept. */
  lemma TwoLines(l1: string, l2: string, c1: string, a1: Option<string>, h1: Handler, d1: map<Key, Record>, n1: Key,
                 c2: string, a2: Option<string>, h2: Handler, d2: map<Key, Record>, n2: Key)
    requires LineCommand(l1) == Some((c1, a1)) && Commands(c1) == Some(h1)
    requires Handle(h1, map[], c1, None, a1) == HandlerResult(d1, Success(n1))
    requires LineCommand(l2) == Some((c2, a2)) && Commands(c2) == Some(h2)
    requires Handle(h2, d1, c2, n1, a2) == HandlerResult(d2, Success(n2))
    ensures ParseFrom(map[], None, [l1, l2]) == Success(d2)
  {
    var lines := [l1, l2];
    var rest := lines[1..];
    assert |rest| == 1 && rest[0] == l2;
    ParseStepOk(map[], None, lines, c1, a1, h1, d1, n1);
    ParseStepOk(d1, n1, rest, c2, a2, h2, d2, n2);
    assert rest[1..] == [];
  }

  /** A file of two lines whose second line its handler refuses. */
  lemma SecondLineFails(l1: string, l2: string, c1: string, a1: Option<string>, h1: Handler, d1: map<Key, Record>, n1: Key,
                        c2: string, a2: Option<string>, h2: Handler, e: ManifestError)
    requires LineCommand(l1) == Some((c1, a1)) && Commands(c1) == Some(h1)
    requires Handle(h1, map[], c1, None, a1) == HandlerResult(d1, Success(n1))
    requires LineCommand(l2) == Some((c2, a2)) && Commands(c2) == Some(h2)
    requires Handle(h2, d1, c2, n1, a2).result == Failure(e)
    ensures ParseFrom(map[], None, [l1, l2]) == Failure(e)
  {
    var lines := [l1, l2];
    var rest := lines[1..];
    assert |rest| == 1 && rest[0] == l2;
    ParseStepOk(map[], None, lines, c1, a1, h1, d1, n1);
    ParseStepFails(d1, n1, rest, c2, a2, h2, e);
  }

  /** `contains-symlink <path>` then `link-target <target>` gives `<path>`
      the target `<target>`: the second line applies to the entry of the
      first. */
  lemma LastEntryChaining(path: string, target: string)
    requires path != [] && NoSpace(path) && target != [] && NoSpace(target)
    ensures ParseFrom(map[], None, [Line("contains-symlink", path), Line("link-target", target)])
         == Success(map[Some(path) := Record(Some(true), Some(ENTRY_TYPE_SYMLINK), None, Some(target))])
  {
    var e := Some(path);
    var d1 := map[e := Record(Some(true), Some(ENTRY_TYPE_SYMLINK), None, None)];
    var d2 := map[e := Record(Some(true), Some(ENTRY_TYPE_SYMLINK), None, Some(target))];
    DeclareLine("contains-symlink", ENTRY_TYPE_SYMLINK, path);
    KnownLine("link-target", target);
    CommandTable();
    SymlinkGetsTarget(path, target);
    TwoLines(Line("contains-symlink", path), Line("link-target", target), "contains-symlink", Some(path), ContainsXHandler, d1, e,
             "link-target", Some(target), LinkTargetHandler, d2, e);
  }

  /** A path declared a directory and then a file is refused with the
      message the implicit-directory test expects. */
  lemma DirThenFileConflict(path: string)
    requires path != [] && NoSpace(path)
    ensures ParseFrom(map[], None, [Line("contains-dir", path), Line("contains-file", path)])
         == Failure(TypeConflict(Some(path), ENTRY_TYPE_FILE, ENTRY_TYPE_DIR))
  {
    var e := Some(path);
    var d1 := map[e := Record(Some(true), Some(ENTRY_TYPE_DIR), None, None)];
    DeclareLine("contains-dir", ENTRY_TYPE_DIR, path);
    KnownLine("contains-file", path);
    CommandTable();
    FileConflict(path);
    SecondLineFails(Line("contains-dir", path), Line("contains-file", path), "contains-dir", Some(path), ContainsXHandler, d1, e,
                    "contains-file", Some(path), ContainsXHandler, TypeConflict(e, ENTRY_TYPE_FILE, ENTRY_TYPE_DIR));
  }
}
