/** `parse_layer`: the full G-code file, as the list of its lines, is split into the setup
    segment (`layer_0.gcode`), one structural segment and one support segment per layer, and the
    end segment (`end.gcode`). The files are not written here: the model returns what each file
    would receive, segments in the order they are emitted. */
module LayerParsing {
  import opened Wrappers
  import opened Text

  /** The setup segment ends with the first line that mentions this command (fan off). */
  const SetupEnd := "M107"
  /** Ends the structural (bellow) segment of the current layer. */
  const StopBellow := "; stop printing object SmallBellow"
  /** Ends the support (wiping pattern) segment of the current layer, then the layer advances. */
  const StopWiping := "; stop printing object wiping_pattern_z"

  /** One emitted per-layer file: the directory it goes to, its layer number and its lines. */
  datatype Segment =
    | Structural(layer: nat, lines: seq<string>)   // `bellow_dir/layer_{n}.gcode`
    | Support(layer: nat, lines: seq<string>)      // `triangle_dir/layer_{n}.gcode`

  /** Everything `parse_layer` writes: the setup file if an `M107` line was found, the per-layer
      files in emission order, and the end file. */
  datatype Parsed = Parsed(setup: Option<seq<string>>, segments: seq<Segment>, end: seq<string>)

  /** The state of the main loop: `layer_num`, `temp_list` and the segments emitted so far. */
  datatype Acc = Acc(layer: nat, pending: seq<string>, segments: seq<Segment>)

  // ---------------------------------------------------------------------------------------------
  // Setup phase

  predicate EndsSetup(line: string) {
    Contains(Strip(line), SetupEnd)
  }

  /** The index of the first line that ends the setup, or `|lines|` when there is none. */
  function FirstSetupEnd(lines: seq<string>): (k: nat)
    ensures k <= |lines|
  {
    if lines == [] || EndsSetup(lines[0]) then 0 else 1 + FirstSetupEnd(lines[1..])
  }

  /** `FirstSetupEnd` is the first line that ends the setup. */
  lemma {:induction false} FirstSetupEndIsFirst(lines: seq<string>)
    ensures var k := FirstSetupEnd(lines);
      (forall i :: 0 <= i < k ==> !EndsSetup(lines[i])) && (k < |lines| ==> EndsSetup(lines[k]))
  {
    if lines != [] && !EndsSetup(lines[0]) {
      FirstSetupEndIsFirst(lines[1..]);
      var k := FirstSetupEnd(lines);
      forall i | 0 <= i < k
        ensures !EndsSetup(lines[i])
      {
        if i > 0 {
          assert lines[i] == lines[1..][i - 1];
        }
      }
      if k < |lines| {
        assert lines[k] == lines[1..][k - 1];
      }
    }
  }

  // ---------------------------------------------------------------------------------------------
  // Blank-line removal and the main loop

  /** `filter(None, map(lambda x: x.replace('\n', ''), lines))`. */
  function Blankless(lines: seq<string>): (r: seq<string>)
    ensures |r| <= |lines|
    ensures forall i :: 0 <= i < |r| ==> r[i] != [] && '\n' !in r[i]
  {
    if lines == [] then []
    else
      var t := RemoveNewlines(lines[|lines| - 1]);
      Blankless(lines[..|lines| - 1]) + (if t == [] then [] else [t])
  }

  /** One line of the main loop: whitespace-only lines are skipped; any other line is stripped
      and appended to the pending lines; a bellow sentinel emits them as the structural segment
      of the current layer, else a wiping sentinel emits them as its support segment and moves to
      the next layer. */
  function Step(a: Acc, line: string): Acc {
    var t := Strip(line);
    if t == [] then a
    else if Contains(t, StopBellow) then
      Acc(a.layer, [], a.segments + [Structural(a.layer, a.pending + [t])])
    else if Contains(t, StopWiping) then
      Acc(a.layer + 1, [], a.segments + [Support(a.layer, a.pending + [t])])
    else
      Acc(a.layer, a.pending + [t], a.segments)
  }

  function Run(a: Acc, lines: seq<string>): Acc {
    if lines == [] then a else Step(Run(a, lines[..|lines| - 1]), lines[|lines| - 1])
  }

  /** The setup file: the stripped lines up to and including the first `M107` line, if any. */
  function Setup(lines: seq<string>): Option<seq<string>> {
    var k := FirstSetupEnd(lines);
    if k < |lines| then Some(StripAll(lines[..k + 1])) else None
  }

  /** The main loop starts at layer 1 with nothing pending after a setup; without an `M107` line
      the setup loop keeps every line, stripped, in the pending list. */
  function MainStart(lines: seq<string>): Acc {
    if FirstSetupEnd(lines) < |lines| then Acc(1, [], []) else Acc(1, StripAll(lines), [])
  }

  /** The lines the main loop reads: those after the `M107` line without blank lines; the
      setup loop leaves none when there is no `M107` line. */
  function MainInput(lines: seq<string>): seq<string> {
    var k := FirstSetupEnd(lines);
    if k < |lines| then Blankless(lines[k + 1..]) else []
  }

  /** What `parse_layer` writes for the lines of a file. */
  function Parse(lines: seq<string>): Parsed {
    var a := Run(MainStart(lines), MainInput(lines));
    Parsed(Setup(lines), a.segments, a.pending)
  }

  /** `parse_layer`: the setup loop, blank-line removal, then the main loop. */
  method ParseLayer(lines: seq<string>) returns (r: Parsed)
    ensures r == Parse(lines)
  {
    var setup, temp, remaining := ReadSetup(lines);
    var kept := Blankless(remaining);
    var layer, pending, segments := SplitLayers(temp, kept);
    r := Parsed(setup, segments, pending);
  }

  /** The setup loop: lines are stripped and collected until one mentions `M107`; `remaining`
      loses its head at every turn, so it is empty when no line ends the setup. */
  method ReadSetup(lines: seq<string>) returns (setup: Option<seq<string>>, temp: seq<string>, remaining: seq<string>)
    ensures setup == Setup(lines)
    ensures Acc(1, temp, []) == MainStart(lines)
    ensures Blankless(remaining) == MainInput(lines)
  {
    temp := [];
    remaining := lines;
    setup := None;
    var i := 0;
    while i < |lines|
      invariant 0 <= i <= |lines|
      invariant remaining == lines[i..]
      invariant temp == StripAll(lines[..i])
      invariant forall j :: 0 <= j < i ==> !EndsSetup(lines[j])
    {
      var line := Strip(lines[i]);
      temp := temp + [line];
      assert lines[..i + 1][..i] == lines[..i];
      remaining := remaining[1..];
      i := i + 1;
      if Contains(line, SetupEnd) {
        setup := Some(temp);
        temp := [];
        break;
      }
    }
    FirstSetupEndIsFirst(lines);
    var k := FirstSetupEnd(lines);
    if setup.Some? {
      assert i - 1 == k;
    } else {
      assert i == |lines| == k && lines[..i] == lines;
    }
  }

  /** The main loop over the kept lines, from the pending lines the setup loop left. */
  method SplitLayers(first: seq<string>, kept: seq<string>)
    returns (layer: nat, temp: seq<string>, segments: seq<Segment>)
    ensures Acc(layer, temp, segments) == Run(Acc(1, first, []), kept)
  {
    layer, temp, segments := 1, first, [];
    var j := 0;
    while j < |kept|
      invariant 0 <= j <= |kept|
      invariant Run(Acc(1, first, []), kept[..j]) == Acc(layer, temp, segments)
    {
      assert kept[..j + 1][..j] == kept[..j];
      layer, temp, segments := MainStep(layer, temp, segments, kept[j]);
      j := j + 1;
    }
    assert kept[..j] == kept;
  }

  /** The body of the main loop for one line. */
  method MainStep(layer: nat, temp: seq<string>, segments: seq<Segment>, line: string)
    returns (layer': nat, temp': seq<string>, segments': seq<Segment>)
    ensures Acc(layer', temp', segments') == Step(Acc(layer, temp, segments), line)
  {
    layer', temp', segments' := layer, temp, segments;
    if Strip(line) != [] {
      var t := Strip(line);
      temp' := temp' + [t];
      if Contains(t, StopBellow) {
        segments' := segments' + [Structural(layer', temp')];
        temp' := [];
      } else if Contains(t, StopWiping) {
        segments' := segments' + [Support(layer', temp')];
        temp' := [];
        layer' := layer' + 1;
      }
    }
  }

  // ---------------------------------------------------------------------------------------------
  // The setup segment

  /** The setup file exists iff some line mentions `M107`; it then holds every line up to and
      including the first such line, stripped, blank lines kept, and its last line is the only
      one that mentions `M107`. Without such a line everything stripped lands in the end file. */
  lemma ParseSetup(lines: seq<string>)
    ensures Parse(lines).setup.Some? <==> exists i :: 0 <= i < |lines| && EndsSetup(lines[i])
    ensures Parse(lines).setup.Some? ==>
      var s := Parse(lines).setup.value;
      var k := |s| - 1;
      0 <= k < |lines| && s == StripAll(lines[..k + 1]) && EndsSetup(lines[k])
      && forall i :: 0 <= i < k ==> !EndsSetup(lines[i])
    ensures Parse(lines).setup.None? ==> Parse(lines).segments == [] && Parse(lines).end == StripAll(lines)
  {
    FirstSetupEndIsFirst(lines);
    var k := FirstSetupEnd(lines);
    if k < |lines| {
      assert Parse(lines).setup == Some(StripAll(lines[..k + 1]));
    } else {
      assert MainInput(lines) == [];
      assert Parse(lines) == Parsed(None, [], StripAll(lines));
    }
  }

  // ---------------------------------------------------------------------------------------------
  // No line is lost or duplicated

  /** The non-blank lines of `lines`, stripped, in order: what the main loop appends. */
  function Kept(lines: seq<string>): (r: seq<string>)
    ensures |r| <= |lines|
    ensures forall i :: 0 <= i < |r| ==> r[i] != []
  {
    if lines == [] then []
    else
      var t := Strip(lines[|lines| - 1]);
      Kept(lines[..|lines| - 1]) + (if t == [] then [] else [t])
  }

  /** The lines of the segments, one segment after the other. */
  function Flatten(segs: seq<Segment>): seq<string> {
    if segs == [] then [] else Flatten(segs[..|segs| - 1]) + segs[|segs| - 1].lines
  }

  /** Everything the loop has appended, emitted or still pending. */
  function Written(a: Acc): seq<string> {
    Flatten(a.segments) + a.pending
  }

  lemma StepWritten(a: Acc, line: string)
    ensures Written(Step(a, line)) == Written(a) + Kept([line])
  {
    var t := Strip(line);
    assert Kept([line]) == if t == [] then [] else [t] by {
      assert [line][..0] == [];
    }
    var segs := a.segments;
    if t != [] && (Contains(t, StopBellow) || Contains(t, StopWiping)) {
      var s := Step(a, line).segments;
      assert s[..|s| - 1] == segs;
      assert Written(Step(a, line)) == Flatten(segs) + (a.pending + [t]) + [];
    }
  }

  /** The main loop appends every non-blank line once, in order: the emitted segments followed
      by what is still pending are the lines it started with, then the kept input lines. */
  lemma {:induction false} RunWritten(a: Acc, lines: seq<string>)
    ensures Written(Run(a, lines)) == Written(a) + Kept(lines)
  {
    if lines == [] {
      assert Written(a) + [] == Written(a);
    } else {
      var init, last := lines[..|lines| - 1], lines[|lines| - 1];
      RunWritten(a, init);
      StepWritten(Run(a, init), last);
      assert [last][..0] == [];
      assert Kept(lines) == Kept(init) + Kept([last]);
    }
  }

  /** Setup, the segments in emission order and the end file together are the input lines with
      the blank ones after the setup removed, all stripped, none lost, none repeated. */
  lemma ParseKeepsEveryLine(lines: seq<string>)
    ensures var r := Parse(lines);
      r.setup.Some? ==> Flatten(r.segments) + r.end == Kept(Blankless(lines[|r.setup.value|..]))
    ensures var r := Parse(lines);
      r.setup.None? ==> Flatten(r.segments) + r.end == StripAll(lines)
  {
    var r := Parse(lines);
    var a := Run(MainStart(lines), MainInput(lines));
    assert Flatten(r.segments) + r.end == Written(a);
    RunWritten(MainStart(lines), MainInput(lines));
    var k := FirstSetupEnd(lines);
    if k < |lines| {
      assert Written(MainStart(lines)) == [];
      assert |r.setup.value| == k + 1;
    } else {
      assert Written(MainStart(lines)) == StripAll(lines);
      assert MainInput(lines) == [];
    }
  }

  // ---------------------------------------------------------------------------------------------
  // Segment shape and layer numbers

  /** A line that mentions neither sentinel. */
  predicate Quiet(line: string) {
    !Contains(line, StopBellow) && !Contains(line, StopWiping)
  }

  predicate AllQuiet(lines: seq<string>) {
    forall i :: 0 <= i < |lines| ==> Quiet(lines[i])
  }

  /** A segment ends with its own sentinel and no earlier line mentions either sentinel; a
      support segment's last line does not mention the bellow sentinel, which takes precedence. */
  predicate Closes(s: Segment) {
    |s.lines| > 0 && AllQuiet(s.lines[..|s.lines| - 1]) &&
    match s
    case Structural(_, ls) => Contains(ls[|ls| - 1], StopBellow)
    case Support(_, ls) => !Contains(ls[|ls| - 1], StopBellow) && Contains(ls[|ls| - 1], StopWiping)
  }

  /** How many support segments `segs` holds: each one advances the layer number. */
  function Supports(segs: seq<Segment>): nat {
    if segs == [] then 0 else Supports(segs[..|segs| - 1]) + (if segs[|segs| - 1].Support? then 1 else 0)
  }

  /** Every segment closes, and each one carries `start` plus the number of support segments
      emitted before it. */
  predicate Numbered(segs: seq<Segment>, start: nat) {
    (forall i :: 0 <= i < |segs| ==> Closes(segs[i]))
    && (forall i :: 0 <= i < |segs| ==> segs[i].layer == start + Supports(segs[..i]))
  }

  /** The loop state as the loop keeps it, for a loop started at layer `start`: pending lines are
      quiet, the segments are numbered from `start`, and the current layer is `start` plus the
      number of support segments. */
  predicate Shaped(a: Acc, start: nat) {
    AllQuiet(a.pending) && Numbered(a.segments, start) && a.layer == start + Supports(a.segments)
  }

  lemma EmitShaped(a: Acc, seg: Segment, start: nat)
    requires Shaped(a, start) && Closes(seg) && seg.layer == a.layer
    ensures var segs := a.segments + [seg];
      Numbered(segs, start) && Supports(segs) == Supports(a.segments) + (if seg.Support? then 1 else 0)
  {
    var segs := a.segments + [seg];
    assert segs[..|segs| - 1] == a.segments;
    forall i | 0 <= i < |segs|
      ensures segs[i].layer == start + Supports(segs[..i])
    {
      if i < |a.segments| {
        assert segs[..i] == a.segments[..i];
      } else {
        assert segs[..i] == a.segments;
      }
    }
  }

  lemma StepShaped(a: Acc, line: string, start: nat)
    requires Shaped(a, start)
    ensures Shaped(Step(a, line), start)
  {
    var t := Strip(line);
    if t != [] {
      var ls := a.pending + [t];
      assert ls[..|ls| - 1] == a.pending;
      if Contains(t, StopBellow) {
        EmitShaped(a, Structural(a.layer, ls), start);
      } else if Contains(t, StopWiping) {
        EmitShaped(a, Support(a.layer, ls), start);
      } else {
        assert AllQuiet(ls);
      }
    }
  }

  lemma {:induction false} RunShaped(a: Acc, lines: seq<string>, start: nat)
    requires Shaped(a, start)
    ensures Shaped(Run(a, lines), start)
  {
    if lines != [] {
      RunShaped(a, lines[..|lines| - 1], start);
      StepShaped(Run(a, lines[..|lines| - 1]), lines[|lines| - 1], start);
    }
  }

  /** Every emitted segment ends with the sentinel that closed it and holds no other sentinel
      line; the first layer is 1, a structural segment keeps the layer number and a support
      segment ends it, so each segment's layer is one more than the support segments before it.
      After the setup the end file holds no sentinel line. */
  lemma ParseShaped(lines: seq<string>)
    ensures Numbered(Parse(lines).segments, 1)
    ensures Parse(lines).setup.Some? ==> AllQuiet(Parse(lines).end)
  {
    if FirstSetupEnd(lines) < |lines| {
      RunShaped(MainStart(lines), MainInput(lines), 1);
    }
  }

  /** Every segment after a support segment has a larger layer number; in particular two support
      segments never share one. */
  lemma SupportLayersIncrease(lines: seq<string>, i: int, j: int)
    requires var segs := Parse(lines).segments;
      0 <= i < j < |segs| && segs[i].Support?
    ensures Parse(lines).segments[i].layer < Parse(lines).segments[j].layer
  {
    var segs := Parse(lines).segments;
    ParseShaped(lines);
    SupportsGrow(segs, i, j);
  }

  lemma {:induction false} SupportsGrow(segs: seq<Segment>, i: int, j: int)
    requires 0 <= i < j <= |segs| && segs[i].Support?
    ensures Supports(segs[..i]) < Supports(segs[..j])
  {
    assert segs[..j][..j - 1] == segs[..j - 1];
    if j - 1 > i {
      SupportsGrow(segs, i, j - 1);
    }
  }

  // ---------------------------------------------------------------------------------------------
  // The files left on disk

  /** The per-layer file a segment is written to: `bellow_dir/layer_{n}.gcode` or
      `triangle_dir/layer_{n}.gcode`. */
  datatype FileName = BellowFile(layer: nat) | TriangleFile(layer: nat)

  function FileOf(s: Segment): FileName {
    match s
    case Structural(n, _) => BellowFile(n)
    case Support(n, _) => TriangleFile(n)
  }

  /** The per-layer files after the segments are written in order: each is opened with mode "w",
      so a later segment with the same file name replaces the earlier one. */
  function OnDisk(segs: seq<Segment>): map<FileName, seq<string>> {
    if segs == [] then map[]
    else OnDisk(segs[..|segs| - 1])[FileOf(segs[|segs| - 1]) := segs[|segs| - 1].lines]
  }

  /** Segment `i` is the last one written to `f`. */
  predicate LastWrite(segs: seq<Segment>, f: FileName, i: int) {
    0 <= i < |segs| && FileOf(segs[i]) == f && forall j :: i < j < |segs| ==> FileOf(segs[j]) != f
  }

  /** A file exists iff some segment is written to it, and it holds the last such segment. */
  lemma {:induction false} OnDiskMeaning(segs: seq<Segment>, f: FileName)
    ensures f in OnDisk(segs) <==> exists i :: 0 <= i < |segs| && FileOf(segs[i]) == f
    ensures f in OnDisk(segs) ==> exists i :: LastWrite(segs, f, i) && OnDisk(segs)[f] == segs[i].lines
  {
    if segs != [] {
      var init, last := segs[..|segs| - 1], segs[|segs| - 1];
      OnDiskMeaning(init, f);
      if FileOf(last) == f {
        assert LastWrite(segs, f, |segs| - 1);
      } else {
        if exists i :: 0 <= i < |segs| && FileOf(segs[i]) == f {
          var i :| 0 <= i < |segs| && FileOf(segs[i]) == f;
          assert init[i] == segs[i];
        }
        if f in OnDisk(segs) {
          var i :| LastWrite(init, f, i) && OnDisk(init)[f] == init[i].lines;
          assert segs[i] == init[i];
          forall j | i < j < |segs|
            ensures FileOf(segs[j]) != f
          {
            if j < |init| {
              assert segs[j] == init[j];
            }
          }
          assert LastWrite(segs, f, i);
        }
      }
    }
  }

  /** A segment whose file no later segment is written to is on disk as emitted. */
  lemma UniqueFileKept(segs: seq<Segment>, i: int)
    requires 0 <= i < |segs| && LastWrite(segs, FileOf(segs[i]), i)
    ensures FileOf(segs[i]) in OnDisk(segs) && OnDisk(segs)[FileOf(segs[i])] == segs[i].lines
  {
    var f := FileOf(segs[i]);
    OnDiskMeaning(segs, f);
    var k :| LastWrite(segs, f, k) && OnDisk(segs)[f] == segs[k].lines;
    if k != i {
      assert false;
    }
  }

  /** Support files are never replaced: each support segment of the split is on disk as emitted.
      (Two bellow sentinels before a wiping one share a layer number, and only the second
      structural segment survives.) */
  lemma SupportFilesKept(lines: seq<string>, i: int)
    requires 0 <= i < |Parse(lines).segments| && Parse(lines).segments[i].Support?
    ensures var segs := Parse(lines).segments;
      TriangleFile(segs[i].layer) in OnDisk(segs) && OnDisk(segs)[TriangleFile(segs[i].layer)] == segs[i].lines
  {
    var segs := Parse(lines).segments;
    forall j | i < j < |segs|
      ensures FileOf(segs[j]) != FileOf(segs[i])
    {
      SupportLayersIncrease(lines, i, j);
    }
    UniqueFileKept(segs, i);
  }
}
