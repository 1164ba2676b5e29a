/**
 * The xinput helper: it reads the device listing printed by `xinput --list`,
 * keeps the lines that describe slave pointers other than the XTEST virtual
 * pointer, optionally drops touchpads, tablets and similar built-in devices,
 * cuts the device id out of each kept line, and turns an id list
 * into `xinput --enable`/`--disable` commands.
 *
 * Running a command is not modelled: the result of spawning `xinput --list`
 * is an `Option<string>`, `None` when spawning threw, otherwise the text the
 * command wrote to standard output. Commands to run are returned as strings.
 */
module XinputMouse {
  import opened Wrappers
  import opened Text
  import opened Lines

  /** Device names (matched case-insensitively as substrings) that are never
      reported as external mice. */
  const ExcludeDevices: seq<string> := [
    "touchpad", "glidepoint", "fingersensingpad", "bcm5974", "trackpad", "smartpad",
    "trackpoint", "accu point", "trackstick", "touchstyk", "pointing stick", "dualpoint stick",
    "touchscreen", "maxtouch", "touch",
    "pen stylus", "pen eraser"
  ]

  /** The entries are already lower case, so lower-casing them before the
      comparison changes nothing. */
  lemma ExcludeDevicesLowerCase()
    ensures |ExcludeDevices| == 17
    ensures forall k :: 0 <= k < |ExcludeDevices| ==> Lower(ExcludeDevices[k]) == ExcludeDevices[k]
  {
    forall k | 0 <= k < |ExcludeDevices|
      ensures Lower(ExcludeDevices[k]) == ExcludeDevices[k]
    {
      LowerOfLowerCase(ExcludeDevices[k]);
    }
  }

  /** The JavaScript code throws a TypeError when a kept line has no `=`;
      the model returns that line instead. */
  datatype ListError = MissingIdSeparator(line: string)

  /** A line that lists a slave pointer which is not the XTEST pointer. */
  predicate IsPointerLine(line: string)
  {
    Contains(line, "slave  pointer") && !Contains(line, "XTEST")
  }

  /** Some entry of `entries`, lower-cased, occurs in the lower-cased line. */
  predicate ExcludedBy(line: string, entries: seq<string>)
  {
    exists k :: 0 <= k < |entries| && Contains(Lower(line), Lower(entries[k]))
  }

  predicate IsMouseLine(line: string)
  {
    IsPointerLine(line) && !ExcludedBy(line, ExcludeDevices)
  }

  predicate NotExcluded(line: string)
  {
    !ExcludedBy(line, ExcludeDevices)
  }

  /** `line.split('=')[1].split('[')[0].split('\t')[0]`, or `None` where the
      first `split` has no second piece and the JavaScript code throws. */
  function CutId(line: string): Option<string>
  {
    var fields := Split(line, '=');
    if |fields| < 2 then None else Some(Split(Split(fields[1], '[')[0], '\t')[0])
  }

  /** The ids of the given lines, in order; the first line without an id is
      the error. */
  function CutAll(lines: seq<string>): Result<seq<string>, ListError>
  {
    if lines == [] then Ok([])
    else
      match CutId(lines[0])
      case None => Err(MissingIdSeparator(lines[0]))
      case Some(id) =>
        match CutAll(lines[1..])
        case Err(e) => Err(e)
        case Ok(ids) => Ok([id] + ids)
  }

  /** The lines of the listing: `stdout.split('\n')`. */
  function ListLines(text: string): seq<string>
  {
    Split(text, '\n')
  }

  /** What `get_pointer_ids` returns for a given result of `xinput --list`. */
  function PointerIds(listing: Option<string>): Result<seq<string>, ListError>
  {
    match listing
    case None => Ok([])
    case Some(text) => CutAll(Filter(ListLines(text), IsPointerLine))
  }

  /** What `get_mouse_ids` returns for a given result of `xinput --list`. */
  function MouseIds(listing: Option<string>): Result<seq<string>, ListError>
  {
    match listing
    case None => Ok([])
    case Some(text) => CutAll(Filter(ListLines(text), IsMouseLine))
  }

  /** `xinput_installed`: listing devices did not throw. */
  function XinputInstalled(listing: Option<string>): bool
  {
    listing.Some?
  }

  // ---------------------------------------------------------------------
  // The helper's loops

  method GetPointerIds(listing: Option<string>) returns (r: Result<seq<string>, ListError>)
    ensures listing.None? ==> r == Ok([])
    ensures r == PointerIds(listing)
  {
    if listing.None? {
      return Ok([]);
    }
    var lines := ListLines(listing.value);
    var pointerIds: seq<string> := [];
    var y := 0;
    var line := 0;
    while line < |lines|
      invariant 0 <= line <= |lines|
      invariant y == |pointerIds|
      invariant CutAll(Filter(lines[..line], IsPointerLine)) == Ok(pointerIds)
    {
      FilterStep(lines, line, IsPointerLine);
      if IsPointerLine(lines[line]) {
        var id := CutId(lines[line]);
        CutAllSnoc(Filter(lines[..line], IsPointerLine), lines[line]);
        if id.None? {
          FailureStops(lines, line, IsPointerLine);
          return Err(MissingIdSeparator(lines[line]));
        }
        pointerIds := pointerIds + [id.value];
        y := y + 1;
      }
      line := line + 1;
    }
    assert lines[..line] == lines;
    r := Ok(pointerIds);
  }

  method GetMouseIds(listing: Option<string>) returns (r: Result<seq<string>, ListError>)
    ensures listing.None? ==> r == Ok([])
    ensures r == MouseIds(listing)
  {
    if listing.None? {
      return Ok([]);
    }
    var lines := ListLines(listing.value);
    var mouseIds: seq<string> := [];
    var y := 0;
    var line := 0;
    while line < |lines|
      invariant 0 <= line <= |lines|
      invariant y == |mouseIds|
      invariant CutAll(Filter(lines[..line], IsMouseLine)) == Ok(mouseIds)
    {
      FilterStep(lines, line, IsMouseLine);
      if IsPointerLine(lines[line]) {
        // check for devices on the exclude list
        var checkOk := CheckNotExcluded(lines[line], ExcludeDevices);
        if checkOk {
          var id := CutId(lines[line]);
          CutAllSnoc(Filter(lines[..line], IsMouseLine), lines[line]);
          if id.None? {
            FailureStops(lines, line, IsMouseLine);
            return Err(MissingIdSeparator(lines[line]));
          }
          mouseIds := mouseIds + [id.value];
          y := y + 1;
        }
      }
      line := line + 1;
    }
    assert lines[..line] == lines;
    r := Ok(mouseIds);
  }

  /** The inner loop of `get_mouse_ids`: every entry is tried, and a single
      match clears the flag. */
  method CheckNotExcluded(line: string, entries: seq<string>) returns (checkOk: bool)
    ensures checkOk <==> forall k :: 0 <= k < |entries| ==> !Contains(Lower(line), Lower(entries[k]))
  {
    checkOk := true;
    var check := 0;
    while check < |entries|
      invariant 0 <= check <= |entries|
      invariant checkOk <==> forall k :: 0 <= k < check ==> !Contains(Lower(line), Lower(entries[k]))
    {
      if Contains(Lower(line), Lower(entries[check])) {
        checkOk := false;
      }
      check := check + 1;
    }
  }

  /** `switch_devices`: one enable command per id for mode "on", one disable
      command per id for mode "off", nothing for any other mode. */
  method SwitchDevices(mode: string, deviceIds: seq<string>) returns (commands: seq<string>)
    ensures mode == "on" ==>
              && |commands| == |deviceIds|
              && forall k :: 0 <= k < |deviceIds| ==> commands[k] == "xinput --enable " + deviceIds[k]
    ensures mode == "off" ==>
              && |commands| == |deviceIds|
              && forall k :: 0 <= k < |deviceIds| ==> commands[k] == "xinput --disable " + deviceIds[k]
    ensures mode != "on" && mode != "off" ==> commands == []
  {
    commands := [];
    for i := 0 to |deviceIds|
      invariant mode == "on" ==>
                  && |commands| == i
                  && forall k :: 0 <= k < i ==> commands[k] == "xinput --enable " + deviceIds[k]
      invariant mode == "off" ==>
                  && |commands| == i
                  && forall k :: 0 <= k < i ==> commands[k] == "xinput --disable " + deviceIds[k]
      invariant mode != "on" && mode != "off" ==> commands == []
    {
      if mode == "on" {
        commands := commands + ["xinput --enable " + deviceIds[i]];
      } else if mode == "off" {
        commands := commands + ["xinput --disable " + deviceIds[i]];
      }
    }
  }

  // ---------------------------------------------------------------------
  // Cutting ids

  /** A line has an id exactly when it has an `=`. */
  lemma CutIdDefined(line: string)
    ensures CutId(line).Some? <==> '=' in line
  {
    SplitTail(line, '=');
  }

  /** The text between the first `=` and the next one, cut at the first `[`
      and then at the first tab. */
  function IdOf(rest: string): string
  {
    Split(Split(Split(rest, '=')[0], '[')[0], '\t')[0]
  }

  lemma CutIdAfterFirstEquals(line: string)
    requires '=' in line
    ensures var i := |Split(line, '=')[0]|;
      && i < |line| && line[i] == '=' && '=' !in line[..i]
      && CutId(line) == Some(IdOf(line[i + 1..]))
  {
    SplitTail(line, '=');
    SplitHead(line, '=');
    var i := |Split(line, '=')[0]|;
    assert line[..i] == Split(line, '=')[0];
    assert Split(line, '=')[1] == Split(line[i + 1..], '=')[0];
  }

  lemma IdOfShape(rest: string)
    ensures var id := IdOf(rest);
      && '=' !in id && '[' !in id && '\t' !in id
      && id <= rest
      && (|id| < |rest| ==> rest[|id|] in "=[\t")
  {
    var f1 := Split(rest, '=')[0];
    var f2 := Split(f1, '[')[0];
    var id := Split(f2, '\t')[0];
    assert id == IdOf(rest);
    SplitHead(rest, '=');
    SplitHead(f1, '[');
    SplitHead(f2, '\t');
    PrefixOfPrefix(id, f2, f1);
    PrefixOfPrefix(id, f1, rest);
    if |id| < |rest| {
      var next := rest[|id|];
      if |id| < |f2| {
        assert next == f2[|id|] == '\t';
      } else if |f2| < |f1| {
        assert next == f1[|f2|] == '[';
      } else {
        assert next == rest[|f1|] == '=';
      }
    }
  }

  lemma PrefixOfPrefix(a: string, b: string, c: string)
    requires a <= b && b <= c
    ensures a <= c && (forall i :: 0 <= i < |b| ==> b[i] == c[i]) && (forall i :: 0 <= i < |a| ==> a[i] == c[i])
  {
  }

  /** The id is the longest prefix of the text after the first `=` that holds
      no `=`, `[` or tab. */
  lemma CutIdShape(line: string, id: string)
    requires CutId(line) == Some(id)
    ensures '=' !in id && '[' !in id && '\t' !in id
    ensures exists i ::
              && 0 <= i < |line| && line[i] == '=' && '=' !in line[..i]
              && id <= line[i + 1..]
              && (i + 1 + |id| < |line| ==> line[i + 1 + |id|] in "=[\t")
  {
    CutIdDefined(line);
    CutIdAfterFirstEquals(line);
    var i := |Split(line, '=')[0]|;
    IdOfShape(line[i + 1..]);
    if i + 1 + |id| < |line| {
      assert line[i + 1 + |id|] == line[i + 1..][|id|];
    }
  }

  /** One more line at the end of the kept lines. */
  lemma CutAllSnoc(lines: seq<string>, x: string)
    ensures CutAll(lines + [x]) ==
      match CutAll(lines)
      case Err(e) => Err(e)
      case Ok(ids) =>
        match CutId(x)
        case None => Err(MissingIdSeparator(x))
        case Some(id) => Ok(ids + [id])
  {
    CutAllConcat(lines, [x]);
    assert [x][1..] == [];
    match CutId(x)
    case None =>
    case Some(id) => assert [id] + [] == [id];
  }

  lemma {:induction false} CutAllConcat(a: seq<string>, b: seq<string>)
    ensures CutAll(a + b) ==
      match CutAll(a)
      case Err(e) => Err(e)
      case Ok(ids) =>
        match CutAll(b)
        case Err(e) => Err(e)
        case Ok(more) => Ok(ids + more)
  {
    if a == [] {
      assert a + b == b;
      match CutAll(b)
      case Err(e) =>
      case Ok(more) => assert [] + more == more;
    } else {
      assert (a + b)[1..] == a[1..] + b;
      assert (a + b)[0] == a[0];
      CutAllConcat(a[1..], b);
      match CutId(a[0])
      case None =>
      case Some(id) =>
        match CutAll(a[1..])
        case Err(e) =>
        case Ok(ids) =>
          match CutAll(b)
          case Err(e) =>
          case Ok(more) =>
            assert [id] + (ids + more) == ([id] + ids) + more;
    }
  }

  /** `CutAll` succeeds exactly when every line has an id, and then returns
      one id per line, in order; otherwise it reports the first line
      without one. */
  lemma {:induction false} CutAllSpec(lines: seq<string>)
    ensures CutAll(lines).Ok? <==> forall k :: 0 <= k < |lines| ==> '=' in lines[k]
    ensures CutAll(lines).Ok? ==>
              && |CutAll(lines).value| == |lines|
              && forall k :: 0 <= k < |lines| ==> CutId(lines[k]) == Some(CutAll(lines).value[k])
    ensures CutAll(lines).Err? ==>
              exists k ::
                && 0 <= k < |lines|
                && CutAll(lines).error == MissingIdSeparator(lines[k])
                && '=' !in lines[k]
                && forall j :: 0 <= j < k ==> '=' in lines[j]
  {
    if lines != [] {
      CutAllSpec(lines[1..]);
      CutIdDefined(lines[0]);
      forall k | 1 <= k < |lines| ensures lines[k] == lines[1..][k - 1] { }
      if CutAll(lines).Err? && CutId(lines[0]).Some? {
        var k :| 0 <= k < |lines[1..]| &&
          CutAll(lines[1..]).error == MissingIdSeparator(lines[1..][k]) &&
          '=' !in lines[1..][k] && forall j :: 0 <= j < k ==> '=' in lines[1..][j];
        assert CutAll(lines).error == MissingIdSeparator(lines[k + 1]);
        forall j | 0 <= j < k + 1 ensures '=' in lines[j] {
          if j > 0 { assert lines[j] == lines[1..][j - 1]; }
        }
      }
    }
  }

  /** A kept line without an id ends the whole list with that line as error. */
  lemma FailureStops(lines: seq<string>, line: nat, p: string -> bool)
    requires line < |lines| && p(lines[line]) && CutId(lines[line]).None?
    requires CutAll(Filter(lines[..line], p)).Ok?
    ensures CutAll(Filter(lines, p)) == Err(MissingIdSeparator(lines[line]))
  {
    assert lines == lines[..line + 1] + lines[line + 1..];
    FilterConcat(lines[..line + 1], lines[line + 1..], p);
    FilterStep(lines, line, p);
    CutAllSnoc(Filter(lines[..line], p), lines[line]);
    CutAllConcat(Filter(lines[..line + 1], p), Filter(lines[line + 1..], p));
  }

  /** Cutting ids from a subsequence of lines gives a subsequence of ids. */
  lemma {:induction false} CutAllSubseq(a: seq<string>, b: seq<string>)
    requires IsSubseq(a, b) && CutAll(b).Ok?
    ensures CutAll(a).Ok? && IsSubseq(CutAll(a).value, CutAll(b).value)
    decreases |b|
  {
    if a != [] {
      var bs := CutAll(b).value;
      assert bs == [CutId(b[0]).value] + CutAll(b[1..]).value;
      if a[0] == b[0] && IsSubseq(a[1..], b[1..]) {
        CutAllSubseq(a[1..], b[1..]);
        var ids := CutAll(a).value;
        assert ids == [CutId(a[0]).value] + CutAll(a[1..]).value;
        assert ids[1..] == CutAll(a[1..]).value && bs[1..] == CutAll(b[1..]).value;
      } else {
        CutAllSubseq(a, b[1..]);
        assert bs[1..] == CutAll(b[1..]).value;
      }
    }
  }

  // ---------------------------------------------------------------------
  // What the two id lists are

  /** When listing fails there is no xinput, and both id lists are empty. */
  lemma NotInstalledMeansNoIds(listing: Option<string>)
    ensures XinputInstalled(listing) <==> listing.Some?
    ensures !XinputInstalled(listing) ==> PointerIds(listing) == Ok([]) && MouseIds(listing) == Ok([])
  {
  }

  /** Ids cut from the lines that pass `p`: one per such line, in line order,
      or, if one of those lines has no `=`, the first such line as error. */
  lemma KeptLineIds(lines: seq<string>, p: string -> bool)
    ensures CutAll(Filter(lines, p)).Ok? <==>
              forall i :: 0 <= i < |lines| && p(lines[i]) ==> '=' in lines[i]
    ensures var idx := KeptIndices(lines, p);
      CutAll(Filter(lines, p)).Ok? ==>
        var ids := CutAll(Filter(lines, p)).value;
        && |ids| == |idx|
        && (forall k :: 0 <= k < |idx| ==>
              idx[k] < |lines| && p(lines[idx[k]]) && CutId(lines[idx[k]]) == Some(ids[k]))
        && (forall k, l :: 0 <= k < l < |idx| ==> idx[k] < idx[l])
        && (forall i :: 0 <= i < |lines| && p(lines[i]) ==> i in idx)
    ensures CutAll(Filter(lines, p)).Err? ==>
              exists i ::
                && 0 <= i < |lines|
                && CutAll(Filter(lines, p)).error == MissingIdSeparator(lines[i])
                && p(lines[i]) && '=' !in lines[i]
                && forall j :: 0 <= j < i && p(lines[j]) ==> '=' in lines[j]
  {
    FilterKeeps(lines, p);
    CutAllSpec(Filter(lines, p));
    if CutAll(Filter(lines, p)).Ok? {
      KeptLinesHaveIds(lines, p);
    } else {
      FirstKeptLineWithoutId(lines, p);
    }
  }

  lemma KeptLinesHaveIds(lines: seq<string>, p: string -> bool)
    requires CutAll(Filter(lines, p)).Ok?
    ensures forall i :: 0 <= i < |lines| && p(lines[i]) ==> '=' in lines[i]
  {
    var kept, idx := Filter(lines, p), KeptIndices(lines, p);
    FilterKeeps(lines, p);
    CutAllSpec(kept);
    forall i | 0 <= i < |lines| && p(lines[i]) ensures '=' in lines[i] {
      var k :| 0 <= k < |idx| && idx[k] == i;
      assert kept[k] == lines[i];
    }
  }

  lemma {:induction false} FirstKeptLineWithoutId(lines: seq<string>, p: string -> bool)
    requires CutAll(Filter(lines, p)).Err?
    ensures exists i ::
              && 0 <= i < |lines|
              && CutAll(Filter(lines, p)).error == MissingIdSeparator(lines[i])
              && p(lines[i]) && '=' !in lines[i]
              && forall j :: 0 <= j < i && p(lines[j]) ==> '=' in lines[j]
  {
    var e := CutAll(Filter(lines, p)).error;
    var tail := Filter(lines[1..], p);
    CutIdDefined(lines[0]);
    if p(lines[0]) && CutId(lines[0]).None? {
      assert Filter(lines, p) == [lines[0]] + tail;
      assert e == MissingIdSeparator(lines[0]);
    } else {
      if p(lines[0]) {
        assert Filter(lines, p) == [lines[0]] + tail;
        assert CutAll(tail).Err? && CutAll(tail).error == e;
      } else {
        assert Filter(lines, p) == tail;
      }
      FirstKeptLineWithoutId(lines[1..], p);
      var i' :| && 0 <= i' < |lines[1..]|
                && e == MissingIdSeparator(lines[1..][i'])
                && p(lines[1..][i']) && '=' !in lines[1..][i']
                && forall j :: 0 <= j < i' && p(lines[1..][j]) ==> '=' in lines[1..][j];
      var i := i' + 1;
      assert lines[i] == lines[1..][i'];
      forall j | 0 <= j < i && p(lines[j]) ensures '=' in lines[j] {
        if j > 0 {
          assert lines[j] == lines[1..][j - 1];
        }
      }
    }
  }

  /** `get_pointer_ids`: one id per slave-pointer line that is not XTEST, in
      line order, and nothing from any other line. */
  lemma PointerIdsFromPointerLines(text: string)
    ensures var lines, idx := ListLines(text), KeptIndices(ListLines(text), IsPointerLine);
      PointerIds(Some(text)).Ok? ==>
        var ids := PointerIds(Some(text)).value;
        && |ids| == |idx|
        && (forall k :: 0 <= k < |idx| ==>
              && idx[k] < |lines|
              && Contains(lines[idx[k]], "slave  pointer") && !Contains(lines[idx[k]], "XTEST")
              && CutId(lines[idx[k]]) == Some(ids[k]))
        && (forall k, l :: 0 <= k < l < |idx| ==> idx[k] < idx[l])
        && (forall i :: 0 <= i < |lines| && IsPointerLine(lines[i]) ==> i in idx)
    ensures PointerIds(Some(text)).Err? <==>
              exists i :: 0 <= i < |ListLines(text)| && IsPointerLine(ListLines(text)[i]) && '=' !in ListLines(text)[i]
  {
    KeptLineIds(ListLines(text), IsPointerLine);
  }

  /** `get_mouse_ids`: the same, restricted to lines that name no excluded
      device. */
  lemma MouseIdsFromMouseLines(text: string)
    ensures var lines, idx := ListLines(text), KeptIndices(ListLines(text), IsMouseLine);
      MouseIds(Some(text)).Ok? ==>
        var ids := MouseIds(Some(text)).value;
        && |ids| == |idx|
        && (forall k :: 0 <= k < |idx| ==>
              && idx[k] < |lines|
              && IsPointerLine(lines[idx[k]])
              && (forall e :: 0 <= e < |ExcludeDevices| ==>
                    !Contains(Lower(lines[idx[k]]), Lower(ExcludeDevices[e])))
              && CutId(lines[idx[k]]) == Some(ids[k]))
        && (forall k, l :: 0 <= k < l < |idx| ==> idx[k] < idx[l])
        && (forall i :: 0 <= i < |lines| && IsMouseLine(lines[i]) ==> i in idx)
    ensures MouseIds(Some(text)).Err? <==>
              exists i :: 0 <= i < |ListLines(text)| && IsMouseLine(ListLines(text)[i]) && '=' !in ListLines(text)[i]
  {
    KeptLineIds(ListLines(text), IsMouseLine);
  }

  /** Every id `get_mouse_ids` reports is reported by `get_pointer_ids` too,
      in the same relative order; and where the pointer list is cut without
      error, so is the mouse list. */
  lemma MouseIdsSubseqOfPointerIds(listing: Option<string>)
    ensures PointerIds(listing).Ok? ==>
              && MouseIds(listing).Ok?
              && IsSubseq(MouseIds(listing).value, PointerIds(listing).value)
  {
    if listing.Some? {
      var lines := ListLines(listing.value);
      FilterFilter(lines, IsPointerLine, NotExcluded, IsMouseLine);
      FilterIsSubseq(Filter(lines, IsPointerLine), NotExcluded);
      if PointerIds(listing).Ok? {
        CutAllSubseq(Filter(lines, IsMouseLine), Filter(lines, IsPointerLine));
      }
    }
  }

  lemma ExcludedByIncluded(line: string, a: seq<string>, b: seq<string>)
    requires forall x :: x in a ==> x in b
    ensures ExcludedBy(line, a) ==> ExcludedBy(line, b)
  {
    if ExcludedBy(line, a) {
      var k :| 0 <= k < |a| && Contains(Lower(line), Lower(a[k]));
      assert a[k] in b;
      var j :| 0 <= j < |b| && b[j] == a[k];
    }
  }

  /** Whether a line is excluded does not depend on the order of entries. */
  lemma ExclusionOrderIrrelevant(line: string, a: seq<string>, b: seq<string>)
    requires multiset(a) == multiset(b)
    ensures ExcludedBy(line, a) <==> ExcludedBy(line, b)
  {
    forall x | x in a ensures x in b {
      assert x in multiset(a);
    }
    forall x | x in b ensures x in a {
      assert x in multiset(b);
    }
    ExcludedByIncluded(line, a, b);
    ExcludedByIncluded(line, b, a);
  }
}
