/** Perimeter extraction from a sliced G-code file (`get_layer_coordinates`): a tagging pass
    that labels each command line with the layer number and feature type in force, then an
    extraction pass that gathers the X/Y points of one layer's moves of one type into contours. */
module LayerGeometry {
  import opened Wrappers
  import Text
  import Numbers

  /** A command line as the tagging pass records it: layer number, feature-type code and the
      stripped text. */
  datatype TaggedLine = TaggedLine(layer: int, kind: int, code: string)

  /** What the tagging pass has built after a prefix of the file. */
  datatype TagState = TagState(layer: int, kind: int, tagged: seq<TaggedLine>, z: map<int, real>)

  const LayerChange := ";LAYER_CHANGE"

  /** The code a stripped line sets the feature type to, if it is one of the type comments
      (1 perimeter, 2 external perimeter, ... 9 custom). */
  function TypeCode(t: string): (c: Option<int>)
    ensures c.Some? ==> 1 <= c.value <= 9
  {
    if t == ";TYPE:Perimeter" then Some(1)
    else if t == ";TYPE:External perimeter" then Some(2)
    else if t == ";TYPE:Overhang perimeter" then Some(3)
    else if t == ";TYPE:Internal infill" then Some(4)
    else if t == ";TYPE:Solid infill" then Some(5)
    else if t == ";TYPE:Top solid infill" then Some(6)
    else if t == ";TYPE:Bridge infill" then Some(7)
    else if t == ";TYPE:Skirt/Brim" then Some(8)
    else if t == ";TYPE:Custom" then Some(9)
    else None
  }

  /** A raw line is recorded unless it is exactly a newline or starts with ';'. */
  predicate Recorded(line: string) {
    !(line == "\n" || Text.StartsWith(line, ";"))
  }

  predicate IsLayerChange(line: string) {
    Text.Strip(line) == LayerChange
  }

  predicate IsZComment(line: string) {
    Text.Strip(line) != LayerChange && Text.StartsWith(Text.Strip(line), ";Z:")
  }

  /** The text after `;Z:` that `float` is applied to. */
  function ZText(line: string): string
    requires IsZComment(line)
  {
    Text.Strip(line)[3..]
  }

  /** One iteration of the tagging loop: record the line first, then act on the comment. */
  function TagStep(s: TagState, line: string): Result<TagState>
  {
    var tagged := if Recorded(line) then s.tagged + [TaggedLine(s.layer, s.kind, Text.Strip(line))]
                  else s.tagged;
    var t := Text.Strip(line);
    if t == LayerChange then Ok(TagState(s.layer + 1, 0, tagged, s.z))
    else if Text.StartsWith(t, ";Z:") then
      match Numbers.ParseDecimal(t[3..])
      case None => Err(ValueError(t[3..]))
      case Some(d) => Ok(TagState(s.layer, s.kind, tagged, s.z[s.layer := Numbers.Value(d)]))
    else
      match TypeCode(t)
      case Some(c) => Ok(TagState(s.layer, c, tagged, s.z))
      case None => Ok(TagState(s.layer, s.kind, tagged, s.z))
  }

  /** The tagging pass over a prefix of the file. */
  function TagLines(lines: seq<string>): Result<TagState>
  {
    if lines == [] then Ok(TagState(0, 0, [], map[]))
    else
      match TagLines(lines[..|lines| - 1])
      case Err(e) => Err(e)
      case Ok(s) => TagStep(s, lines[|lines| - 1])
  }

  /** The tagging loop (lines 21-54). */
  method TagGcode(lines: seq<string>) returns (r: Result<TagState>)
    ensures r == TagLines(lines)
  {
    var numLayer, layerType := 0, 0;
    var tagged: seq<TaggedLine> := [];
    var zValues: map<int, real> := map[];
    var i := 0;
    while i < |lines|
      invariant 0 <= i <= |lines|
      invariant TagLines(lines[..i]) == Ok(TagState(numLayer, layerType, tagged, zValues))
    {
      var line := lines[i];
      ghost var before := TagState(numLayer, layerType, tagged, zValues);
      TagLinesSnoc(lines, i, before);
      if !(line == "\n" || Text.StartsWith(line, ";")) {
        tagged := tagged + [TaggedLine(numLayer, layerType, Text.Strip(line))];
      }
      var t := Text.Strip(line);
      if t == LayerChange {
        numLayer := numLayer + 1;
        layerType := 0;
      } else if Text.StartsWith(t, ";Z:") {
        var z := Numbers.ParseDecimal(t[3..]);
        if z.None? {
          r := Err(ValueError(t[3..]));
          assert TagStep(before, line) == r;
          TagLinesErrorSticks(lines, i + 1);
          return;
        }
        zValues := zValues[numLayer := Numbers.Value(z.value)];
      } else {
        var c := TypeCode(t);
        if c.Some? {
          layerType := c.value;
        }
      }
      assert TagStep(before, line) == Ok(TagState(numLayer, layerType, tagged, zValues));
      i := i + 1;
    }
    assert lines[..i] == lines;
    r := Ok(TagState(numLayer, layerType, tagged, zValues));
  }

  lemma TagLinesSnoc(lines: seq<string>, i: nat, s: TagState)
    requires i < |lines| && TagLines(lines[..i]) == Ok(s)
    ensures TagLines(lines[..i + 1]) == TagStep(s, lines[i])
  {
    assert lines[..i + 1][..i] == lines[..i];
  }

  /** Once the tagging pass has failed on a prefix, it fails on the whole file with that error. */
  lemma {:induction false} TagLinesErrorSticks(lines: seq<string>, n: nat)
    requires n <= |lines| && TagLines(lines[..n]).Err?
    ensures TagLines(lines) == TagLines(lines[..n])
    decreases |lines| - n
  {
    if n < |lines| {
      assert lines[..n + 1][..n] == lines[..n];
      TagLinesErrorSticks(lines, n + 1);
    } else {
      assert lines[..n] == lines;
    }
  }

  // ---- what the tagging pass computes, stated field by field ----

  /** Every type comment starts with `;T`, so no `;Z:` comment is one. */
  lemma ZCommentIsNoType(t: string)
    requires Text.StartsWith(t, ";Z:")
    ensures TypeCode(t).None?
  {
    assert t[1] == 'Z';
  }

  /** A `;Z:` comment carries a number `float` can read (other lines have nothing to read). */
  predicate ZLineReadable(line: string) {
    IsZComment(line) ==> Numbers.ParseDecimal(ZText(line)).Some?
  }

  /** How much a line adds to the layer count. */
  function LayerBump(line: string): nat {
    if IsLayerChange(line) then 1 else 0
  }

  /** The feature type after `line`, given the one before it. */
  function KindStep(kind: int, line: string): int {
    if IsLayerChange(line) then 0
    else match TypeCode(Text.Strip(line))
      case Some(c) => c
      case None => kind
  }

  /** What `line` adds to the recorded lines, read in layer `layer` with type `kind`. */
  function Recording(layer: int, kind: int, line: string): seq<TaggedLine> {
    if Recorded(line) then [TaggedLine(layer, kind, Text.Strip(line))] else []
  }

  /** The z map after `line`, read in layer `layer`. */
  function ZStep(z: map<int, real>, layer: int, line: string): map<int, real>
    requires ZLineReadable(line)
  {
    if IsZComment(line) then z[layer := Numbers.Value(Numbers.ParseDecimal(ZText(line)).value)] else z
  }

  /** The state one tagging step leads to when it does not fail: each field moves on its own. */
  function Fields(s: TagState, line: string): TagState
    requires ZLineReadable(line)
  {
    TagState(s.layer + LayerBump(line), KindStep(s.kind, line),
             s.tagged + Recording(s.layer, s.kind, line), ZStep(s.z, s.layer, line))
  }

  /** One tagging step fails exactly on an unreadable `;Z:` value and otherwise moves each field
      of the state independently of the others. */
  lemma TagStepFields(s: TagState, line: string)
    ensures TagStep(s, line).Ok? <==> ZLineReadable(line)
    ensures ZLineReadable(line) ==> TagStep(s, line) == Ok(Fields(s, line))
  {
    var t := Text.Strip(line);
    if t == LayerChange {
      TagStepLayerChange(s, line);
    } else if Text.StartsWith(t, ";Z:") {
      TagStepZ(s, line);
    } else {
      TagStepOther(s, line);
    }
  }

  lemma TagStepLayerChange(s: TagState, line: string)
    requires Text.Strip(line) == LayerChange
    ensures ZLineReadable(line) && TagStep(s, line) == Ok(Fields(s, line))
  {
    assert !IsZComment(line);
    assert !Recorded(line) ==> s.tagged + Recording(s.layer, s.kind, line) == s.tagged;
  }

  lemma TagStepZ(s: TagState, line: string)
    requires IsZComment(line)
    ensures TagStep(s, line).Ok? <==> ZLineReadable(line)
    ensures ZLineReadable(line) ==> TagStep(s, line) == Ok(Fields(s, line))
  {
    ZCommentIsNoType(Text.Strip(line));
    assert KindStep(s.kind, line) == s.kind;
    assert !Recorded(line) ==> s.tagged + Recording(s.layer, s.kind, line) == s.tagged;
  }

  lemma TagStepOther(s: TagState, line: string)
    requires Text.Strip(line) != LayerChange && !Text.StartsWith(Text.Strip(line), ";Z:")
    ensures ZLineReadable(line) && TagStep(s, line) == Ok(Fields(s, line))
  {
    assert !IsZComment(line);
    assert !Recorded(line) ==> s.tagged + Recording(s.layer, s.kind, line) == s.tagged;
  }

  /** Number of `;LAYER_CHANGE` lines. */
  function LayerChanges(lines: seq<string>): nat {
    if lines == [] then 0
    else LayerChanges(lines[..|lines| - 1]) + LayerBump(lines[|lines| - 1])
  }

  /** The feature type in force after `lines`: set by the last `;TYPE:` comment, unless a
      `;LAYER_CHANGE` came after it (then 0); 0 when there is neither. */
  function KindAfter(lines: seq<string>): int {
    if lines == [] then 0 else KindStep(KindAfter(lines[..|lines| - 1]), lines[|lines| - 1])
  }

  /** The recorded lines, each stripped and tagged with the layer and type in force when read. */
  function Tags(lines: seq<string>): seq<TaggedLine> {
    if lines == [] then []
    else
      var init := lines[..|lines| - 1];
      Tags(init) + Recording(LayerChanges(init), KindAfter(init), lines[|lines| - 1])
  }

  /** Every `;Z:` comment of `lines` carries a number `float` can read. */
  predicate ZReadable(lines: seq<string>) {
    lines == [] || (ZReadable(lines[..|lines| - 1]) && ZLineReadable(lines[|lines| - 1]))
  }

  /** The z map: for each layer, the value of the last `;Z:` comment read in it. */
  function ZMap(lines: seq<string>): map<int, real>
    requires ZReadable(lines)
  {
    if lines == [] then map[]
    else
      var init := lines[..|lines| - 1];
      ZStep(ZMap(init), LayerChanges(init), lines[|lines| - 1])
  }

  /** `ZReadable` says of every line what `ZLineReadable` says of one. */
  lemma {:induction false} ZReadableEvery(lines: seq<string>)
    ensures ZReadable(lines) <==> forall k :: 0 <= k < |lines| ==> ZLineReadable(lines[k])
  {
    if lines != [] {
      var init := lines[..|lines| - 1];
      ZReadableEvery(init);
      if ZReadable(lines) {
        forall k | 0 <= k < |lines| ensures ZLineReadable(lines[k]) {
          if k < |init| {
            assert init[k] == lines[k];
            assert ZLineReadable(init[k]);
          } else {
            assert k == |lines| - 1;
          }
        }
      }
      if forall k :: 0 <= k < |lines| ==> ZLineReadable(lines[k]) {
        forall k | 0 <= k < |init| ensures ZLineReadable(init[k]) {
          assert init[k] == lines[k];
        }
      }
    }
  }

  /** The declarative description of the tagging state after `lines`. */
  function Described(lines: seq<string>): TagState
    requires ZReadable(lines)
  {
    TagState(LayerChanges(lines), KindAfter(lines), Tags(lines), ZMap(lines))
  }

  /** One tagging step takes the description of a prefix to the description of the longer prefix. */
  lemma TagStepMeaning(lines: seq<string>)
    requires lines != [] && ZReadable(lines)
    ensures ZReadable(lines[..|lines| - 1])
    ensures TagStep(Described(lines[..|lines| - 1]), lines[|lines| - 1]) == Ok(Described(lines))
  {
    var init, line := lines[..|lines| - 1], lines[|lines| - 1];
    assert ZReadable(init) && ZLineReadable(line);
    var d := Described(init);
    TagStepFields(d, line);
    assert LayerChanges(lines) == d.layer + LayerBump(line);
    assert KindAfter(lines) == KindStep(d.kind, line);
    assert Tags(lines) == d.tagged + Recording(d.layer, d.kind, line);
    assert ZMap(lines) == ZStep(d.z, d.layer, line);
    var next := TagStep(d, line);
    assert next.value == Described(lines);
    assert next == Ok(next.value);
  }

  /** The tagging pass fails exactly when some `;Z:` value is unreadable; otherwise it tags every
      recorded line with the layer count and feature type in force when the line is read, and
      keeps the last `;Z:` value of each layer. */
  lemma {:induction false} TagLinesMeaning(lines: seq<string>)
    ensures TagLines(lines).Ok? <==> ZReadable(lines)
    ensures ZReadable(lines) ==> TagLines(lines) == Ok(Described(lines))
  {
    if lines != [] {
      var init := lines[..|lines| - 1];
      var line := lines[|lines| - 1];
      TagLinesMeaning(init);
      if ZReadable(lines) {
        TagStepMeaning(lines);
      } else if ZReadable(init) {
        assert IsZComment(line) && Numbers.ParseDecimal(ZText(line)).None?;
        assert TagStep(Described(init), line).Err?;
      }
    }
  }

  /** Layer numbers that never decrease and lie in `0..n`, with feature types in `0..9`. */
  predicate WellTagged(tags: seq<TaggedLine>, n: int) {
    (forall a, b :: 0 <= a <= b < |tags| ==> tags[a].layer <= tags[b].layer)
    && (forall a :: 0 <= a < |tags| ==> 0 <= tags[a].layer <= n && 0 <= tags[a].kind <= 9)
  }

  lemma WellTaggedSnoc(tags: seq<TaggedLine>, extra: seq<TaggedLine>, n: int, m: int)
    requires WellTagged(tags, n) && 0 <= n <= m
    requires forall a :: 0 <= a < |extra| ==> extra[a].layer == n && 0 <= extra[a].kind <= 9
    ensures WellTagged(tags + extra, m)
  {
    var all := tags + extra;
    forall a, b | 0 <= a <= b < |all| ensures all[a].layer <= all[b].layer {
      if b >= |tags| {
        assert all[b] == extra[b - |tags|];
        if a >= |tags| {
          assert all[a] == extra[a - |tags|];
        } else {
          assert all[a] == tags[a];
        }
      } else {
        assert all[a] == tags[a] && all[b] == tags[b];
      }
    }
    forall a | 0 <= a < |all| ensures 0 <= all[a].layer <= m && 0 <= all[a].kind <= 9 {
      if a >= |tags| {
        assert all[a] == extra[a - |tags|];
      } else {
        assert all[a] == tags[a];
      }
    }
  }

  lemma {:induction false} KindAfterRange(lines: seq<string>)
    ensures 0 <= KindAfter(lines) <= 9
  {
    if lines != [] {
      KindAfterRange(lines[..|lines| - 1]);
    }
  }

  /** Tagged layer numbers never decrease and never pass the number of layer changes seen, and
      every tagged type is 0 or one of the codes 1..9. */
  lemma {:induction false} TagsLayersOrdered(lines: seq<string>)
    ensures WellTagged(Tags(lines), LayerChanges(lines))
  {
    if lines != [] {
      var init := lines[..|lines| - 1];
      TagsLayersOrdered(init);
      KindAfterRange(init);
      WellTaggedSnoc(Tags(init), Recording(LayerChanges(init), KindAfter(init), lines[|lines| - 1]),
                     LayerChanges(init), LayerChanges(lines));
    }
  }

  /** Only lines that are neither a bare newline nor a `;` comment are recorded, stripped, in order. */
  lemma {:induction false} TagsAreRecordedLines(lines: seq<string>)
    ensures |Tags(lines)| == |RecordedLines(lines)|
    ensures forall k :: 0 <= k < |Tags(lines)| ==> Tags(lines)[k].code == Text.Strip(RecordedLines(lines)[k])
  {
    if lines != [] {
      TagsAreRecordedLines(lines[..|lines| - 1]);
    }
  }

  function RecordedLines(lines: seq<string>): (r: seq<string>)
    ensures forall k :: 0 <= k < |r| ==> Recorded(r[k])
  {
    if lines == [] then []
    else RecordedLines(lines[..|lines| - 1]) + (if Recorded(lines[|lines| - 1]) then [lines[|lines| - 1]] else [])
  }

  // ---- the extraction pass ----

  /** The X and Y values gathered so far for the contour being built. */
  datatype Points = Points(xs: seq<real>, ys: seq<real>)

  /** The extraction loop's variables: the open contour, the contours closed so far and `z_val`. */
  datatype Scan = Scan(open: Points, shapesX: seq<seq<real>>, shapesY: seq<seq<real>>, z: Option<real>)

  /** What the pass returns: the contours' X lists, their Y lists and the layer's z. */
  datatype Contours = Contours(xs: seq<seq<real>>, ys: seq<seq<real>>, z: Option<real>)

  /** `float(ele[1:])` for a coordinate token such as `X12.5`. */
  function Coordinate(ele: string): (r: Result<real>)
    requires ele != []
    ensures r.Err? <==> Numbers.ParseDecimal(ele[1..]).None?
  {
    match Numbers.ParseDecimal(ele[1..])
    case None => Err(ValueError(ele[1..]))
    case Some(d) => Ok(Numbers.Value(d))
  }

  /** One pass of the inner loop: an `X` token adds an X value, a `Y` token a Y value, any other
      token nothing; an empty token has no first character. */
  function PointStep(p: Points, ele: string): Result<Points> {
    if ele == [] then Err(IndexError)
    else if ele[0] == 'X' then
      match Coordinate(ele)
      case Err(e) => Err(e)
      case Ok(x) => Ok(Points(p.xs + [x], p.ys))
    else if ele[0] == 'Y' then
      match Coordinate(ele)
      case Err(e) => Err(e)
      case Ok(y) => Ok(Points(p.xs, p.ys + [y]))
    else Ok(p)
  }

  /** The inner loop over the tokens of an extrusion line, starting from `p`. */
  function CollectPoints(p: Points, tokens: seq<string>): (r: Result<Points>)
    ensures r.Ok? ==> p.xs <= r.value.xs && p.ys <= r.value.ys
  {
    if tokens == [] then Ok(p)
    else
      match CollectPoints(p, tokens[..|tokens| - 1])
      case Err(e) => Err(e)
      case Ok(q) => PointStep(q, tokens[|tokens| - 1])
  }

  /** The inner loop (lines 74-78). */
  method AppendPoints(p: Points, tokens: seq<string>) returns (r: Result<Points>)
    ensures r == CollectPoints(p, tokens)
  {
    var xs, ys := p.xs, p.ys;
    var i := 0;
    while i < |tokens|
      invariant 0 <= i <= |tokens|
      invariant CollectPoints(p, tokens[..i]) == Ok(Points(xs, ys))
    {
      var ele := tokens[i];
      assert tokens[..i + 1][..i] == tokens[..i];
      if ele == [] {
        r := Err(IndexError);
        CollectPointsErrorSticks(p, tokens, i + 1);
        return;
      }
      if ele[0] == 'X' || ele[0] == 'Y' {
        var v := Numbers.ParseDecimal(ele[1..]);
        if v.None? {
          r := Err(ValueError(ele[1..]));
          CollectPointsErrorSticks(p, tokens, i + 1);
          return;
        }
        if ele[0] == 'X' {
          xs := xs + [Numbers.Value(v.value)];
        } else {
          ys := ys + [Numbers.Value(v.value)];
        }
      }
      i := i + 1;
    }
    assert tokens[..i] == tokens;
    r := Ok(Points(xs, ys));
  }

  lemma {:induction false} CollectPointsErrorSticks(p: Points, tokens: seq<string>, n: nat)
    requires n <= |tokens| && CollectPoints(p, tokens[..n]).Err?
    ensures CollectPoints(p, tokens) == CollectPoints(p, tokens[..n])
    decreases |tokens| - n
  {
    if n < |tokens| {
      assert tokens[..n + 1][..n] == tokens[..n];
      CollectPointsErrorSticks(p, tokens, n + 1);
    } else {
      assert tokens[..n] == tokens;
    }
  }

  /** A non-extrusion line ends the open contour: a contour with points gets its first point
      again (X and Y alike), and both lists are pushed even when empty. */
  function Close(sc: Scan): Result<Scan> {
    var o := sc.open;
    if o.xs == [] then Ok(Scan(Points([], []), sc.shapesX + [o.xs], sc.shapesY + [o.ys], sc.z))
    else if o.ys == [] then Err(IndexError)
    else Ok(Scan(Points([], []), sc.shapesX + [o.xs + [o.xs[0]]], sc.shapesY + [o.ys + [o.ys[0]]], sc.z))
  }

  /** What one line of the target layer and type does to the scan (lines 72-92). */
  function LineStep(sc: Scan, code: string): Result<Scan> {
    var tokens := Text.Split(code);
    var last := tokens[|tokens| - 1];
    if last == [] then Err(IndexError)
    else if last[0] == 'E' then
      match CollectPoints(sc.open, tokens)
      case Err(e) => Err(e)
      case Ok(p) => Ok(sc.(open := p))
    else if Text.StartsWith(code, "M") then Ok(sc)
    else if |tokens| < 2 || tokens[1] == [] then Err(IndexError)
    else if tokens[1][0] == 'F' then Ok(sc)
    else Close(sc)
  }

  /** `z_val_dict.get(layer)`. */
  function ZLookup(z: map<int, real>, layer: int): (r: Option<real>)
    ensures r.Some? <==> layer in z
  {
    if layer in z then Some(z[layer]) else None
  }

  predicate IsTarget(tag: TaggedLine, layer: int, kind: int) {
    tag.layer == layer && tag.kind == kind
  }

  /** One pass of the extraction loop over a tagged line that is not past the target layer. */
  function ScanStep(sc: Scan, tag: TaggedLine, z: map<int, real>, layer: int, kind: int): Result<Scan> {
    if IsTarget(tag, layer, kind) then LineStep(sc.(z := ZLookup(z, layer)), tag.code) else Ok(sc)
  }

  const Start := Scan(Points([], []), [], [], Some(0.0))

  /** The extraction loop over a run of tagged lines. */
  function ScanTags(tags: seq<TaggedLine>, z: map<int, real>, layer: int, kind: int): Result<Scan> {
    if tags == [] then Ok(Start)
    else
      match ScanTags(tags[..|tags| - 1], z, layer, kind)
      case Err(e) => Err(e)
      case Ok(sc) => ScanStep(sc, tags[|tags| - 1], z, layer, kind)
  }

  /** The index of the first tagged line past the target layer, where the loop breaks. */
  function BreakAt(tags: seq<TaggedLine>, layer: int): (k: nat)
    ensures k <= |tags|
    ensures forall j :: 0 <= j < k ==> tags[j].layer <= layer
    ensures k < |tags| ==> tags[k].layer > layer
  {
    if tags == [] || tags[0].layer > layer then 0 else 1 + BreakAt(tags[1..], layer)
  }

  /** `remove_empty_lists`. */
  function RemoveEmpty<T>(ls: seq<seq<T>>): (r: seq<seq<T>>)
    ensures |r| <= |ls|
    ensures forall k :: 0 <= k < |r| ==> r[k] != []
  {
    if ls == [] then []
    else RemoveEmpty(ls[..|ls| - 1]) + (if ls[|ls| - 1] == [] then [] else [ls[|ls| - 1]])
  }

  /** After the loop: push the open contour as it is and drop the empty lists. */
  function Finish(sc: Scan): (c: Contours)
    ensures forall k :: 0 <= k < |c.xs| ==> c.xs[k] != []
    ensures forall k :: 0 <= k < |c.ys| ==> c.ys[k] != []
  {
    Contours(RemoveEmpty(sc.shapesX + [sc.open.xs]), RemoveEmpty(sc.shapesY + [sc.open.ys]), sc.z)
  }

  /** The extraction pass over the tagging pass's output. */
  function Extract(tags: seq<TaggedLine>, z: map<int, real>, layer: int, kind: int): Result<Contours> {
    match ScanTags(tags[..BreakAt(tags, layer)], z, layer, kind)
    case Err(e) => Err(e)
    case Ok(sc) => Ok(Finish(sc))
  }

  /** The body of the extraction loop for a line of the target layer and type (lines 72-92). */
  method ScanLine(sc: Scan, line: string) returns (r: Result<Scan>)
    ensures r == LineStep(sc, line)
  {
    var tokens := Text.Split(line);
    var last := tokens[|tokens| - 1];
    if last == [] {
      return Err(IndexError);
    }
    var open := sc.open;
    if last[0] == 'E' {
      var p := AppendPoints(open, tokens);
      if p.Err? {
        return Err(p.error);
      }
      return Ok(sc.(open := p.value));
    } else if Text.StartsWith(line, "M") {
      return Ok(sc);
    } else if |tokens| < 2 || tokens[1] == [] {
      return Err(IndexError);
    } else if tokens[1][0] == 'F' {
      return Ok(sc);
    }
    if open.xs != [] {
      if open.ys == [] {
        return Err(IndexError);
      }
      open := Points(open.xs + [open.xs[0]], open.ys + [open.ys[0]]);
    }
    r := Ok(Scan(Points([], []), sc.shapesX + [open.xs], sc.shapesY + [open.ys], sc.z));
  }

  /** The extraction loop (lines 66-92) and the flush and clean-up after it (lines 93-99). */
  method ExtractContours(tags: seq<TaggedLine>, z: map<int, real>, layer: int, kind: int)
    returns (r: Result<Contours>)
    ensures r == Extract(tags, z, layer, kind)
  {
    var sc := Start;
    var i := 0;
    while i < |tags|
      invariant 0 <= i <= BreakAt(tags, layer)
      invariant ScanTags(tags[..i], z, layer, kind) == Ok(sc)
    {
      if tags[i].layer > layer {
        break;
      }
      ScanTagsSnoc(tags, i, z, layer, kind, sc);
      if tags[i].layer == layer && tags[i].kind == kind {
        var next := ScanLine(sc.(z := ZLookup(z, layer)), tags[i].code);
        if next.Err? {
          r := Err(next.error);
          ScanTagsErrorSticks(tags, i + 1, z, layer, kind);
          return;
        }
        sc := next.value;
      }
      i := i + 1;
    }
    r := Ok(Finish(sc));
  }

  lemma ScanTagsSnoc(tags: seq<TaggedLine>, i: nat, z: map<int, real>, layer: int, kind: int, sc: Scan)
    requires i < |tags| && ScanTags(tags[..i], z, layer, kind) == Ok(sc)
    ensures ScanTags(tags[..i + 1], z, layer, kind) == ScanStep(sc, tags[i], z, layer, kind)
  {
    assert tags[..i + 1][..i] == tags[..i];
  }

  lemma {:induction false} ScanTagsErrorSticks(tags: seq<TaggedLine>, n: nat, z: map<int, real>, layer: int, kind: int)
    requires n <= |tags| && ScanTags(tags[..n], z, layer, kind).Err?
    ensures forall m :: n <= m <= |tags| ==> ScanTags(tags[..m], z, layer, kind) == ScanTags(tags[..n], z, layer, kind)
    decreases |tags| - n
  {
    if n < |tags| {
      assert tags[..n + 1][..n] == tags[..n];
      ScanTagsErrorSticks(tags, n + 1, z, layer, kind);
    }
  }

  // ---- what the extraction pass computes ----

  /** `get_layer_coordinates`: the tagging pass, then the extraction pass over its output. */
  function LayerCoordinates(lines: seq<string>, layer: int, kind: int): Result<Contours> {
    match TagLines(lines)
    case Err(e) => Err(e)
    case Ok(s) => Extract(s.tagged, s.z, layer, kind)
  }

  /** `get_layer_coordinates` (lines 9-101). */
  method GetLayerCoordinates(lines: seq<string>, layer: int, kind: int) returns (r: Result<Contours>)
    ensures r == LayerCoordinates(lines, layer, kind)
  {
    var tagging := TagGcode(lines);
    if tagging.Err? {
      return Err(tagging.error);
    }
    r := ExtractContours(tagging.value.tagged, tagging.value.z, layer, kind);
  }

  /** The tagged lines of the target layer and type, in order. */
  function Targets(tags: seq<TaggedLine>, layer: int, kind: int): (r: seq<TaggedLine>)
    ensures forall k :: 0 <= k < |r| ==> IsTarget(r[k], layer, kind)
  {
    if tags == [] then []
    else
      var last := tags[|tags| - 1];
      Targets(tags[..|tags| - 1], layer, kind) + (if IsTarget(last, layer, kind) then [last] else [])
  }

  lemma {:induction false} TargetsAppend(a: seq<TaggedLine>, b: seq<TaggedLine>, layer: int, kind: int)
    ensures Targets(a + b, layer, kind) == Targets(a, layer, kind) + Targets(b, layer, kind)
  {
    if b == [] {
      assert a + b == a;
    } else {
      var b0 := b[..|b| - 1];
      assert (a + b)[..|a + b| - 1] == a + b0;
      TargetsAppend(a, b0, layer, kind);
    }
  }

  /** Lines of other layers or other types neither add points nor close contours nor set z: the
      scan over all lines equals the scan over the target lines alone. */
  lemma {:induction false} ScanOnlyTargets(tags: seq<TaggedLine>, z: map<int, real>, layer: int, kind: int)
    ensures ScanTags(tags, z, layer, kind) == ScanTags(Targets(tags, layer, kind), z, layer, kind)
  {
    if tags != [] {
      var init, last := tags[..|tags| - 1], tags[|tags| - 1];
      var t := Targets(init, layer, kind);
      ScanOnlyTargets(init, z, layer, kind);
      if IsTarget(last, layer, kind) {
        assert (t + [last])[..|t|] == t;
      } else {
        assert Targets(tags, layer, kind) == t + [] == t;
      }
    }
  }

  /** Once layer numbers never decrease, stopping at the first line past the target layer loses
      no target line. */
  lemma BreakKeepsTargets(tags: seq<TaggedLine>, layer: int, kind: int)
    requires forall a, b :: 0 <= a <= b < |tags| ==> tags[a].layer <= tags[b].layer
    ensures Targets(tags[..BreakAt(tags, layer)], layer, kind) == Targets(tags, layer, kind)
  {
    var k := BreakAt(tags, layer);
    var rest := tags[k..];
    assert tags == tags[..k] + rest;
    TargetsAppend(tags[..k], rest, layer, kind);
    NoTargets(rest, layer, kind);
  }

  lemma {:induction false} NoTargets(tags: seq<TaggedLine>, layer: int, kind: int)
    requires forall a :: 0 <= a < |tags| ==> tags[a].layer > layer
    ensures Targets(tags, layer, kind) == []
  {
    if tags != [] {
      NoTargets(tags[..|tags| - 1], layer, kind);
    }
  }

  /** `z_val` is 0 until a target line is read and from then on the target layer's entry of the
      z map, missing (`None`) when the layer had no `;Z:` comment. */
  lemma {:induction false} ScanZ(tags: seq<TaggedLine>, z: map<int, real>, layer: int, kind: int)
    requires ScanTags(tags, z, layer, kind).Ok?
    ensures ScanTags(tags, z, layer, kind).value.z ==
            if Targets(tags, layer, kind) == [] then Some(0.0) else ZLookup(z, layer)
  {
    if tags != [] {
      var init := tags[..|tags| - 1];
      ScanZ(init, z, layer, kind);
    }
  }

  /** A contour with a repeated first point: at least two points, the first equal to the last. */
  predicate Closed(c: seq<real>) {
    |c| >= 2 && c[0] == c[|c| - 1]
  }

  /** The contours pushed so far come in X/Y pairs, and each pair with points is closed. */
  predicate ShapesClosed(sc: Scan) {
    |sc.shapesX| == |sc.shapesY|
    && forall k :: 0 <= k < |sc.shapesX| ==> sc.shapesX[k] == [] || (Closed(sc.shapesX[k]) && Closed(sc.shapesY[k]))
  }

  lemma LineStepClosed(sc: Scan, code: string)
    requires ShapesClosed(sc) && LineStep(sc, code).Ok?
    ensures ShapesClosed(LineStep(sc, code).value)
  {
    var next := LineStep(sc, code).value;
    if next.shapesX != sc.shapesX {
      var n := |sc.shapesX|;
      assert forall k :: 0 <= k < n ==> next.shapesX[k] == sc.shapesX[k] && next.shapesY[k] == sc.shapesY[k];
    }
  }

  lemma {:induction false} ScanClosed(tags: seq<TaggedLine>, z: map<int, real>, layer: int, kind: int)
    requires ScanTags(tags, z, layer, kind).Ok?
    ensures ShapesClosed(ScanTags(tags, z, layer, kind).value)
  {
    if tags != [] {
      var init, last := tags[..|tags| - 1], tags[|tags| - 1];
      ScanClosed(init, z, layer, kind);
      var sc := ScanTags(init, z, layer, kind).value;
      if IsTarget(last, layer, kind) {
        LineStepClosed(sc.(z := ZLookup(z, layer)), last.code);
      }
    }
  }

  /** The concatenation of a list of lists. */
  function Flatten<T>(ls: seq<seq<T>>): seq<T> {
    if ls == [] then [] else Flatten(ls[..|ls| - 1]) + ls[|ls| - 1]
  }

  /** `remove_empty_lists` drops only empty lists: the points, in order, are all still there. */
  lemma {:induction false} RemoveEmptyFlatten<T>(ls: seq<seq<T>>)
    ensures Flatten(RemoveEmpty(ls)) == Flatten(ls)
  {
    if ls != [] {
      var init, last := ls[..|ls| - 1], ls[|ls| - 1];
      RemoveEmptyFlatten(init);
      var r := RemoveEmpty(init);
      if last == [] {
        assert RemoveEmpty(ls) == r + [] == r;
        assert Flatten(ls) == Flatten(init) + [] == Flatten(init);
      } else {
        assert (r + [last])[..|r|] == r;
      }
    }
  }

  /** Lists that are all non-empty pass through `remove_empty_lists` unchanged. */
  lemma {:induction false} RemoveEmptyKeeps<T>(ls: seq<seq<T>>)
    requires forall k :: 0 <= k < |ls| ==> ls[k] != []
    ensures RemoveEmpty(ls) == ls
  {
    if ls != [] {
      RemoveEmptyKeeps(ls[..|ls| - 1]);
    }
  }

  /** Every element `remove_empty_lists` returns is one of its input's elements. */
  lemma {:induction false} RemoveEmptyFrom<T>(ls: seq<seq<T>>, P: seq<T> -> bool)
    requires forall k :: 0 <= k < |ls| ==> ls[k] == [] || P(ls[k])
    ensures forall k :: 0 <= k < |RemoveEmpty(ls)| ==> P(RemoveEmpty(ls)[k])
  {
    if ls != [] {
      RemoveEmptyFrom(ls[..|ls| - 1], P);
    }
  }

  lemma RemoveEmptySnoc<T>(ls: seq<seq<T>>, c: seq<T>)
    ensures RemoveEmpty(ls + [c]) == RemoveEmpty(ls) + (if c == [] then [] else [c])
  {
    assert (ls + [c])[..|ls|] == ls;
  }

  /** Every returned X contour except possibly the last is closed; the last is the contour still
      open when the loop ended, which is not closed. No returned contour is empty. */
  lemma ExtractClosed(tags: seq<TaggedLine>, z: map<int, real>, layer: int, kind: int)
    requires Extract(tags, z, layer, kind).Ok?
    ensures var c := Extract(tags, z, layer, kind).value;
      (forall k :: 0 <= k < |c.xs| - 1 ==> Closed(c.xs[k]))
      && (forall k :: 0 <= k < |c.xs| ==> c.xs[k] != [])
      && (forall k :: 0 <= k < |c.ys| ==> c.ys[k] != [])
  {
    var prefix := tags[..BreakAt(tags, layer)];
    ScanClosed(prefix, z, layer, kind);
    var sc := ScanTags(prefix, z, layer, kind).value;
    RemoveEmptyFrom(sc.shapesX, Closed);
    RemoveEmptySnoc(sc.shapesX, sc.open.xs);
  }

  /** With the tags the tagging pass produces, the result is determined by the target lines alone:
      the break loses none of them and all other lines are skipped. */
  lemma CoordinatesFromTargets(lines: seq<string>, layer: int, kind: int)
    requires TagLines(lines).Ok?
    ensures var s := TagLines(lines).value;
      LayerCoordinates(lines, layer, kind) ==
        match ScanTags(Targets(s.tagged, layer, kind), s.z, layer, kind)
        case Err(e) => Err(e)
        case Ok(sc) => Ok(Finish(sc))
  {
    TagLinesMeaning(lines);
    TagsLayersOrdered(lines);
    var s := TagLines(lines).value;
    var tags := s.tagged;
    BreakKeepsTargets(tags, layer, kind);
    ScanOnlyTargets(tags[..BreakAt(tags, layer)], s.z, layer, kind);
    ScanOnlyTargets(tags, s.z, layer, kind);
  }

  /** The returned z: the target layer's value from its last `;Z:` comment when some target line
      exists and the layer has one, missing when it has none, and 0 when there is no target line. */
  lemma CoordinatesZ(lines: seq<string>, layer: int, kind: int)
    requires LayerCoordinates(lines, layer, kind).Ok?
    ensures ZReadable(lines)
    ensures var s := TagLines(lines).value;
      LayerCoordinates(lines, layer, kind).value.z ==
        if Targets(s.tagged, layer, kind) == [] then Some(0.0) else ZLookup(ZMap(lines), layer)
  {
    TagLinesMeaning(lines);
    CoordinatesFromTargets(lines, layer, kind);
    var s := TagLines(lines).value;
    var t := Targets(s.tagged, layer, kind);
    ScanZ(t, s.z, layer, kind);
    assert Targets(t, layer, kind) == t by { RemoveTargetsIdempotent(s.tagged, layer, kind); }
  }

  lemma {:induction false} RemoveTargetsIdempotent(tags: seq<TaggedLine>, layer: int, kind: int)
    ensures Targets(Targets(tags, layer, kind), layer, kind) == Targets(tags, layer, kind)
  {
    if tags != [] {
      var init, last := tags[..|tags| - 1], tags[|tags| - 1];
      RemoveTargetsIdempotent(init, layer, kind);
      var t := Targets(init, layer, kind);
      if IsTarget(last, layer, kind) {
        assert (t + [last])[..|t|] == t;
      } else {
        assert Targets(tags, layer, kind) == t + [] == t;
      }
    }
  }

  /** The values of the tokens starting with `axis` (`'X'` or `'Y'`), in token order. */
  function AxisValues(tokens: seq<string>, axis: char): seq<real> {
    if tokens == [] then []
    else
      var last := tokens[|tokens| - 1];
      AxisValues(tokens[..|tokens| - 1], axis)
        + (if last != [] && last[0] == axis && Coordinate(last).Ok? then [Coordinate(last).value] else [])
  }

  /** The inner loop appends the X values of the tokens, in order, to the X list and the Y values
      to the Y list. */
  lemma {:induction false} CollectPointsMeaning(p: Points, tokens: seq<string>)
    requires CollectPoints(p, tokens).Ok?
    ensures CollectPoints(p, tokens).value == Points(p.xs + AxisValues(tokens, 'X'), p.ys + AxisValues(tokens, 'Y'))
  {
    if tokens != [] {
      var init := tokens[..|tokens| - 1];
      CollectPointsMeaning(p, init);
      var xs, ys := AxisValues(init, 'X'), AxisValues(init, 'Y');
      var last := tokens[|tokens| - 1];
      if last[0] == 'X' {
        assert p.xs + xs + [Coordinate(last).value] == p.xs + (xs + [Coordinate(last).value]);
        assert AxisValues(tokens, 'Y') == ys + [] == ys;
      } else if last[0] == 'Y' {
        assert p.ys + ys + [Coordinate(last).value] == p.ys + (ys + [Coordinate(last).value]);
        assert AxisValues(tokens, 'X') == xs + [] == xs;
      } else {
        assert AxisValues(tokens, 'X') == xs + [] == xs;
        assert AxisValues(tokens, 'Y') == ys + [] == ys;
      }
    }
  }
}
