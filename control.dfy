/** `parse_control` (dpu/control.py:3-31): a reader for the key/value
    "control" files the suites carry, in the style of a Debian control file.
    A line that does not start with a space opens a field; a line that does
    continues the field opened last. */
module Control {
  import opened Wrappers
  import opened PyStr

  /** What `parse_control` raises. */
  datatype ControlError =
    | EmptyLine                  // `line[0]` on an empty line: IndexError
    | MissingColon(line: string) // the two-way unpacking of `line.split(":", 1)`: ValueError
    | ContinuationWithoutKey     // `ret[key]` with no field open: KeyError

  /** A text with no whitespace at either end. */
  predicate Trimmed(w: string) {
    w == [] || (!IsSpace(w[0]) && !IsSpace(w[|w| - 1]))
  }

  /** A continuation line starts with a space. */
  predicate IsContinuation(line: string) {
    line != [] && line[0] == ' '
  }

  /** The marker line: a space, a full stop and a newline. */
  predicate IsMarker(line: string) {
    |line| == 3 && line[0] == ' ' && line[1] == '.' && line[2] == '\n'
  }

  /** `IsMarker` is the comparison `line == " .\n"`. */
  lemma IsMarkerIff(line: string)
    ensures IsMarker(line) <==> line == " .\n"
  {
  }

  /** The text a continuation line adds after its newline: the marker line
      stands for an empty line. */
  function ContinuationText(line: string): string {
    Strip(if IsMarker(line) then "" else line)
  }

  /** The key a field line opens, cased as `ignore_case` asks. */
  function CasedKey(key: string, ignoreCase: bool): string {
    if ignoreCase then Lower(key) else key
  }

  /** One turn of the loop: the field now open and the dictionary, or the
      error the line raises. */
  function ControlStep(key: Option<string>, ret: map<string, string>, line: string, ignoreCase: bool)
    : Result<(Option<string>, map<string, string>), ControlError>
  {
    if line == [] then Failure(EmptyLine)
    else if line[0] == ' ' then
      if key.None? || key.value !in ret then Failure(ContinuationWithoutKey)
      else Success((key, ret[key.value := ret[key.value] + "\n" + ContinuationText(line)]))
    else
      var parts := SplitOn(line, ':', 1);
      if |parts| != 2 then Failure(MissingColon(line))
      else
        var k := CasedKey(parts[0], ignoreCase);
        Success((Some(k), ret[k := Strip(parts[1])]))
  }

  /** The loop from `lines[0]` on. */
  function ControlFrom(key: Option<string>, ret: map<string, string>, lines: seq<string>, ignoreCase: bool)
    : Result<map<string, string>, ControlError>
    decreases |lines|
  {
    if lines == [] then Success(ret)
    else match ControlStep(key, ret, lines[0], ignoreCase)
      case Failure(e) => Failure(e)
      case Success((k, r)) => ControlFrom(k, r, lines[1..], ignoreCase)
  }

  /** What `parse_control` returns for the lines of a file. */
  function ControlSpec(lines: seq<string>, ignoreCase: bool): Result<map<string, string>, ControlError> {
    ControlFrom(None, map[], lines, ignoreCase)
  }

  /** `parse_control`, over the lines of the file. */
  method ParseControl(lines: seq<string>, ignoreCase: bool) returns (r: Result<map<string, string>, ControlError>)
    ensures r == ControlSpec(lines, ignoreCase)
  {
    var key: Option<string> := None;
    var ret: map<string, string> := map[];
    var i := 0;
    while i < |lines|
      invariant 0 <= i <= |lines|
      invariant ControlFrom(key, ret, lines[i..], ignoreCase) == ControlSpec(lines, ignoreCase)
    {
      assert lines[i..][1..] == lines[i + 1..];
      var line := lines[i];
      if line == [] {
        return Failure(EmptyLine);
      }
      if line[0] == ' ' {
        if IsMarker(line) {
          line := "";
        }
        if key.None? || key.value !in ret {
          return Failure(ContinuationWithoutKey);
        }
        ret := ret[key.value := ret[key.value] + "\n" + Strip(line)];
      } else {
        var parts := SplitOn(line, ':', 1);
        if |parts| != 2 {
          return Failure(MissingColon(line));
        }
        var k := parts[0];
        if ignoreCase {
          k := Lower(k);
        }
        key := Some(k);
        ret := ret[k := Strip(parts[1])];
      }
      i := i + 1;
    }
    return Success(ret);
  }

  // ------------------------------------------------------------ single lines

  /** The field line `<key>:<value>`. */
  function Field(k: string, v: string): string {
    k + ":" + v
  }

  /** A field line `<key>:<value>` sets the key to the stripped value,
      whatever it held before; colons after the first stay in the value. */
  lemma FieldLine(key: Option<string>, ret: map<string, string>, k: string, v: string, ignoreCase: bool)
    requires ':' !in k && (k == [] || k[0] != ' ')
    ensures ControlStep(key, ret, Field(k, v), ignoreCase)
         == Success((Some(CasedKey(k, ignoreCase)), ret[CasedKey(k, ignoreCase) := Strip(v)]))
  {
    var line := Field(k, v);
    assert line == k + [':'] + v;
    SplitOnCons(k, ':', v, 0);
    assert SplitOn(line, ':', 1) == [k, v];
    assert line[0] != ' ' by {
      if k == [] {
        assert line[0] == ':';
      } else {
        assert line[0] == k[0];
      }
    }
  }

  /** A line that opens no continuation and has no colon is refused. */
  lemma NoColonFails(key: Option<string>, ret: map<string, string>, line: string, ignoreCase: bool)
    requires line != [] && line[0] != ' ' && ':' !in line
    ensures ControlStep(key, ret, line, ignoreCase) == Failure(MissingColon(line))
  {
    SplitOnNoSep(line, ':', 1);
  }

  /** The marker line adds nothing but its newline. */
  lemma MarkerLineIsBlank(line: string)
    requires line == " .\n"
    ensures ContinuationText(line) == ""
  {
    IsMarkerIff(line);
  }

  /** A continuation line appends its stripped text on a new line. */
  lemma ContinuationLine(k: string, ret: map<string, string>, body: string, ignoreCase: bool)
    requires k in ret && Trimmed(body)
    ensures ControlStep(Some(k), ret, " " + body, ignoreCase) == Success((Some(k), ret[k := ret[k] + "\n" + body]))
  {
    var line := " " + body;
    if body != [] {
      assert line[|line| - 1] == body[|body| - 1];
    }
    assert !IsMarker(line);
    StripPadded(" ", body, "");
    assert " " + body + "" == line;
  }

  // ------------------------------------------------------------- continuations

  /** Continuation lines, all of them. */
  predicate AllContinuations(lines: seq<string>) {
    forall i :: 0 <= i < |lines| ==> IsContinuation(lines[i])
  }

  lemma ContinuationsTail(lines: seq<string>)
    requires lines != [] && AllContinuations(lines)
    ensures IsContinuation(lines[0]) && AllContinuations(lines[1..])
  {
    assert forall i :: 0 <= i < |lines[1..]| ==> lines[1..][i] == lines[i + 1];
  }

  /** The text a run of continuation lines adds to a value. */
  function Continued(lines: seq<string>): string
    decreases |lines|
  {
    if lines == [] then "" else "\n" + ContinuationText(lines[0]) + Continued(lines[1..])
  }

  /** A field is its first line's value followed by one new line per
      continuation line after it. */
  lemma {:induction false} ContinuationsAppend(k: string, ret: map<string, string>, lines: seq<string>, ignoreCase: bool)
    requires k in ret && AllContinuations(lines)
    ensures ControlFrom(Some(k), ret, lines, ignoreCase) == Success(ret[k := ret[k] + Continued(lines)])
    decreases |lines|
  {
    if lines == [] {
      assert ret[k] + "" == ret[k];
      assert ret[k := ret[k]] == ret;
    } else {
      var next := ret[k := ret[k] + "\n" + ContinuationText(lines[0])];
      ContinuationsTail(lines);
      ContinuationsAppend(k, next, lines[1..], ignoreCase);
      assert next[k] + Continued(lines[1..]) == ret[k] + Continued(lines);
      assert next[k := next[k] + Continued(lines[1..])] == ret[k := ret[k] + Continued(lines)];
    }
  }

  /** A file of one field: its key line, then its continuation lines. */
  lemma OneField(k: string, v: string, lines: seq<string>, ignoreCase: bool)
    requires ':' !in k && (k == [] || k[0] != ' ')
    requires lines != [] && lines[0] == Field(k, v) && AllContinuations(lines[1..])
    ensures ControlSpec(lines, ignoreCase)
         == Success(map[CasedKey(k, ignoreCase) := Strip(v) + Continued(lines[1..])])
  {
    var key := CasedKey(k, ignoreCase);
    var first: map<string, string> := map[key := Strip(v)];
    var value := Strip(v) + Continued(lines[1..]);
    assert ControlStep(None, map[], lines[0], ignoreCase) == Success((Some(key), first)) by {
      FieldLine(None, map[], k, v, ignoreCase);
    }
    assert ControlSpec(lines, ignoreCase) == ControlFrom(Some(key), first, lines[1..], ignoreCase);
    ContinuationsAppend(key, first, lines[1..], ignoreCase);
    SetTwice(key, Strip(v), value);
  }

  /** Setting a key of a one-key dictionary again replaces its value. */
  lemma SetTwice(k: string, a: string, b: string)
    ensures map[k := a][k := b] == map[k := b]
  {
  }

  /** A key given twice keeps only the value of its second field line. */
  lemma RepeatedKeyOverwrites(k: string, v1: string, v2: string, lines: seq<string>, ignoreCase: bool)
    requires ':' !in k && (k == [] || k[0] != ' ')
    requires |lines| == 2 && lines[0] == Field(k, v1) && lines[1] == Field(k, v2)
    ensures ControlSpec(lines, ignoreCase) == Success(map[CasedKey(k, ignoreCase) := Strip(v2)])
  {
    var key := CasedKey(k, ignoreCase);
    var first: map<string, string> := map[key := Strip(v1)];
    assert ControlStep(None, map[], lines[0], ignoreCase) == Success((Some(key), first)) by {
      FieldLine(None, map[], k, v1, ignoreCase);
    }
    assert ControlStep(Some(key), first, lines[1], ignoreCase) == Success((Some(key), first[key := Strip(v2)])) by {
      FieldLine(Some(key), first, k, v2, ignoreCase);
    }
    var rest := lines[1..];
    assert rest[0] == lines[1] && |rest[1..]| == 0;
    assert ControlFrom(Some(key), first, rest, ignoreCase) == ControlFrom(Some(key), first[key := Strip(v2)], rest[1..], ignoreCase);
    SetTwice(key, Strip(v1), Strip(v2));
  }

  // ------------------------------------------------------------ whole files

  /** A state in which a field is open. */
  predicate FieldOpen(key: Option<string>, ret: map<string, string>) {
    key.Some? && key.value in ret
  }

  /** Once a field is open, no later line can raise the `KeyError`. */
  lemma {:induction false} OpenFieldStaysOpen(key: Option<string>, ret: map<string, string>, lines: seq<string>, ignoreCase: bool)
    requires FieldOpen(key, ret)
    ensures ControlFrom(key, ret, lines, ignoreCase) != Failure(ContinuationWithoutKey)
    decreases |lines|
  {
    if lines != [] {
      var s := ControlStep(key, ret, lines[0], ignoreCase);
      if s.Success? {
        OpenFieldStaysOpen(s.value.0, s.value.1, lines[1..], ignoreCase);
      }
    }
  }

  /** The `KeyError` is raised exactly when the file starts with a
      continuation line. */
  lemma ContinuationWithoutKeyIff(lines: seq<string>, ignoreCase: bool)
    ensures ControlSpec(lines, ignoreCase) == Failure(ContinuationWithoutKey)
        <==> lines != [] && IsContinuation(lines[0])
  {
    if lines != [] && !IsContinuation(lines[0]) {
      var s := ControlStep(None, map[], lines[0], ignoreCase);
      if s.Success? {
        OpenFieldStaysOpen(s.value.0, s.value.1, lines[1..], ignoreCase);
      }
    }
  }

  /** The key a line opens, if it is a field line. */
  function LineKey(line: string, ignoreCase: bool): Option<string> {
    if line == [] || line[0] == ' ' then None
    else
      var parts := SplitOn(line, ':', 1);
      if |parts| != 2 then None else Some(CasedKey(parts[0], ignoreCase))
  }

  /** The keys the field lines of a file open. */
  function FieldKeys(lines: seq<string>, ignoreCase: bool): set<string>
    decreases |lines|
  {
    if lines == [] then {}
    else
      (if LineKey(lines[0], ignoreCase).Some? then {LineKey(lines[0], ignoreCase).value} else {})
      + FieldKeys(lines[1..], ignoreCase)
  }

  /** A parsed file has exactly the keys its field lines open: continuation
      lines add none, and `None` is never among them. */
  lemma {:induction false} ControlFromKeys(key: Option<string>, ret: map<string, string>, lines: seq<string>, ignoreCase: bool)
    ensures ControlFrom(key, ret, lines, ignoreCase).Success? ==>
      ControlFrom(key, ret, lines, ignoreCase).value.Keys == ret.Keys + FieldKeys(lines, ignoreCase)
    decreases |lines|
  {
    if lines != [] {
      var s := ControlStep(key, ret, lines[0], ignoreCase);
      if s.Success? {
        ControlFromKeys(s.value.0, s.value.1, lines[1..], ignoreCase);
      }
    }
  }

  lemma ControlKeys(lines: seq<string>, ignoreCase: bool)
    ensures ControlSpec(lines, ignoreCase).Success? ==> ControlSpec(lines, ignoreCase).value.Keys == FieldKeys(lines, ignoreCase)
  {
    ControlFromKeys(None, map[], lines, ignoreCase);
  }

  /** All keys are in lower case. */
  predicate LowerKeys(ret: map<string, string>) {
    forall k :: k in ret ==> Lower(k) == k
  }

  lemma {:induction false} ControlFromLowerKeys(key: Option<string>, ret: map<string, string>, lines: seq<string>)
    requires LowerKeys(ret)
    ensures ControlFrom(key, ret, lines, true).Success? ==> LowerKeys(ControlFrom(key, ret, lines, true).value)
    decreases |lines|
  {
    if lines != [] {
      var s := ControlStep(key, ret, lines[0], true);
      if s.Success? {
        if lines[0][0] != ' ' {
          LowerIdempotent(SplitOn(lines[0], ':', 1)[0]);
        }
        ControlFromLowerKeys(s.value.0, s.value.1, lines[1..]);
      }
    }
  }

  /** With `ignore_case` every key comes back in lower case. */
  lemma IgnoreCaseLowersKeys(lines: seq<string>)
    ensures ControlSpec(lines, true).Success? ==> LowerKeys(ControlSpec(lines, true).value)
  {
    ControlFromLowerKeys(None, map[], lines);
  }

  // ---------------------------------------------------------------- examples

  /** The sanity file, `Sane: true`, reads as `{"sane": "true"}`, or as
      `{"Sane": "true"}` when case is kept. */
  lemma SanityExample(k: string, v: string)
    requires k == "Sane" && v == " true\n"
    ensures ControlSpec([Field(k, v)], true) == Success(map["sane" := "true"])
    ensures ControlSpec([Field(k, v)], false) == Success(map["Sane" := "true"])
  {
    var lines := [Field(k, v)];
    assert ':' !in k && k[0] != ' ';
    assert Strip(v) == "true" by {
      StripPadded(" ", "true", "\n");
      assert " " + "true" + "\n" == v;
    }
    assert Lower(k) == "sane";
    assert |lines[1..]| == 0;
    assert Strip(v) + Continued(lines[1..]) == "true";
    OneField(k, v, lines, true);
    OneField(k, v, lines, false);
    assert CasedKey(k, true) == "sane" && CasedKey(k, false) == "Sane";
  }

  /** A continuation line ` <text>` adds `<text>`, unless the text is the
      lone `.` of the marker line. */
  lemma ContinuationTextOf(w: string)
    requires Trimmed(w) && w != "."
    ensures ContinuationText(" " + w + "\n") == w
  {
    var line := " " + w + "\n";
    assert line[1..|line| - 1] == w;
    assert !IsMarker(line) by {
      if |line| == 3 {
        assert w == [line[1]];
      }
    }
    StripOne(w);
  }

  /** Three continuation lines. */
  lemma ContinuedThree(lines: seq<string>)
    requires |lines| == 3
    ensures Continued(lines) == "\n" + ContinuationText(lines[0])
      + ("\n" + ContinuationText(lines[1]) + ("\n" + ContinuationText(lines[2])))
  {
    var r1 := lines[1..];
    var r2 := r1[1..];
    assert r1[0] == lines[1] && r2[0] == lines[2] && |r2| == 1;
    var last := "\n" + ContinuationText(lines[2]);
    assert Continued(r2) == last by {
      assert Continued(r2[1..]) == "";
      assert Continued(r2) == last + Continued(r2[1..]);
    }
    assert Continued(r1) == "\n" + ContinuationText(lines[1]) + last;
  }

  /** The multi-line description: a marker line between two continuation
      lines leaves an empty line in the value. */
  lemma MultilineExample(k: string, first: string, second: string, third: string, ignoreCase: bool)
    requires ':' !in k && (k == [] || k[0] != ' ')
    requires Trimmed(first) && Trimmed(second) && Trimmed(third)
    requires second != "." && third != "."
    ensures ControlSpec([Field(k, " " + first + "\n"), " " + second + "\n", " .\n", " " + third + "\n"], ignoreCase)
         == Success(map[CasedKey(k, ignoreCase) := first + "\n" + second + "\n\n" + third])
  {
    var lines := [Field(k, " " + first + "\n"), " " + second + "\n", " .\n", " " + third + "\n"];
    var cont := lines[1..];
    assert |cont| == 3 && cont[0] == lines[1] && cont[1] == lines[2] && cont[2] == lines[3];
    assert AllContinuations(cont) by {
      assert IsContinuation(cont[0]) && IsContinuation(cont[1]) && IsContinuation(cont[2]);
    }
    assert Continued(cont) == "\n" + second + ("\n" + "" + ("\n" + third)) by {
      ContinuedThree(cont);
      ContinuationTextOf(second);
      ContinuationTextOf(third);
      MarkerLineIsBlank(cont[1]);
    }
    StripOne(first);
    OneField(k, " " + first + "\n", lines, ignoreCase);
    BlankLineBetween(first, second, third);
  }

  /** The value of three lines with an empty line between the last two. */
  lemma BlankLineBetween(a: string, b: string, c: string)
    ensures a + ("\n" + b + ("\n" + "" + ("\n" + c))) == a + "\n" + b + "\n\n" + c
  {
    assert "\n" + "" + "\n" == "\n\n";
  }

  /** A text padded by a space and a newline strips back to itself. */
  lemma StripOne(w: string)
    requires Trimmed(w)
    ensures Strip(" " + w + "\n") == w
  {
    StripPadded(" ", w, "\n");
  }
}
