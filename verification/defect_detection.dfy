/** `DefectDetection`, the parts that are arithmetic and bookkeeping rather than OpenCV: the
    nozzle pose per layer, the composition of the camera pose from it, the 3-D contours assembled
    from the perimeter extraction, the orchestration of `project_contour` around the projected
    masks, and the positions reported per defect. The pixel work itself is in module Masks. */
module DefectDetection {
  import opened Wrappers
  import opened LayerGeometry
  import opened Masks

  /** A point or translation in the printer frame. */
  datatype Vec3 = Vec3(x: real, y: real, z: real)

  /** One row of an assembled contour. A missing z is stored by numpy as NaN, written `None`. */
  datatype Point3 = Point3(x: real, y: real, z: Option<real>)

  /** The feature type `get_contours` asks the extraction for: the external perimeter. */
  const Perimeter := 2

  /** The layer height the detector is created with unless told otherwise. */
  const DefaultLayerHeight := 0.1

  /** The nozzle height when layer `layerID` is photographed: the first layer is printed at 0.2
      and every further layer one layer height higher. */
  function LayerZ(layerID: int, layerHeight: real): real {
    (layerID - 1) as real * layerHeight + 0.2
  }

  /** Layer 1 sits at 0.2 and consecutive layers are one layer height apart. */
  lemma LayerZSteps(layerID: int, layerHeight: real)
    ensures LayerZ(1, layerHeight) == 0.2
    ensures LayerZ(layerID + 1, layerHeight) - LayerZ(layerID, layerHeight) == layerHeight
  {
  }

  // ---------------------------------------------------------------------------------------
  // Homogeneous transforms

  predicate IsMat4(m: seq<seq<real>>) {
    |m| == 4 && forall i :: 0 <= i < 4 ==> |m[i]| == 4
  }

  /** `T_printer_nozzle`: no rotation, and the translation that moves the nozzle position `p`
      to the origin. */
  function PrinterToNozzle(p: Vec3): (m: seq<seq<real>>)
    ensures IsMat4(m)
  {
    [[1.0, 0.0, 0.0, -p.x],
     [0.0, 1.0, 0.0, -p.y],
     [0.0, 0.0, 1.0, -p.z],
     [0.0, 0.0, 0.0, 1.0]]
  }

  /** Entry (i, j) of the product `a @ b`. */
  function Entry(a: seq<seq<real>>, b: seq<seq<real>>, i: nat, j: nat): real
    requires IsMat4(a) && IsMat4(b) && i < 4 && j < 4
  {
    a[i][0] * b[0][j] + a[i][1] * b[1][j] + a[i][2] * b[2][j] + a[i][3] * b[3][j]
  }

  /** `np.matmul` of two 4x4 matrices. */
  function MatMul(a: seq<seq<real>>, b: seq<seq<real>>): (m: seq<seq<real>>)
    requires IsMat4(a) && IsMat4(b)
    ensures IsMat4(m)
  {
    seq(4, i requires 0 <= i < 4 => seq(4, j requires 0 <= j < 4 => Entry(a, b, i, j)))
  }

  /** Row `i` of the rule "translation = R·(−p) + t" for the transform `t`. */
  function Moved(t: seq<seq<real>>, p: Vec3, i: nat): real
    requires IsMat4(t) && i < 4
  {
    t[i][0] * -p.x + t[i][1] * -p.y + t[i][2] * -p.z + t[i][3]
  }

  /** The translation of the camera pose, by the composition rule. */
  function Translation(t: seq<seq<real>>, p: Vec3): Vec3
    requires IsMat4(t)
  {
    Vec3(Moved(t, p, 0), Moved(t, p, 1), Moved(t, p, 2))
  }

  /** Composing with a pure translation keeps the rotation block and every entry of the first
      three columns, and gives the last column as R·(−p) + t. */
  lemma Composition(t: seq<seq<real>>, p: Vec3)
    requires IsMat4(t)
    ensures var m := MatMul(t, PrinterToNozzle(p));
      (forall i, j :: 0 <= i < 4 && 0 <= j < 3 ==> m[i][j] == t[i][j])
      && (forall i :: 0 <= i < 4 ==> m[i][3] == Moved(t, p, i))
  {
    var m := MatMul(t, PrinterToNozzle(p));
    forall i, j | 0 <= i < 4 && 0 <= j < 3
      ensures m[i][j] == t[i][j]
    {
      assert m[i][j] == Entry(t, PrinterToNozzle(p), i, j);
    }
    forall i | 0 <= i < 4
      ensures m[i][3] == Moved(t, p, i)
    {
      assert m[i][3] == Entry(t, PrinterToNozzle(p), i, 3);
    }
  }

  // ---------------------------------------------------------------------------------------
  // 3-D contours

  /** numpy can assign a column of `n` values into `n` rows, or broadcast a single value. */
  predicate Fits(v: seq<real>, n: nat) {
    |v| == n || |v| == 1
  }

  /** `column[:] = np.array(v)` on a column of `n` rows. */
  function Broadcast(v: seq<real>, n: nat): (r: Result<seq<real>>)
    ensures r.Ok? <==> Fits(v, n)
    ensures r.Ok? ==> |r.value| == n
  {
    if |v| == n then Ok(v)
    else if |v| == 1 then Ok(seq(n, _ => v[0]))
    else Err(ShapeError)
  }

  /** Rows built from three columns of the same length. */
  function Rows(xs: seq<real>, ys: seq<real>, zs: seq<Option<real>>): (r: seq<Point3>)
    requires |ys| == |xs| && |zs| == |xs|
    ensures |r| == |xs|
  {
    seq(|xs|, k requires 0 <= k < |xs| => Point3(xs[k], ys[k], zs[k]))
  }

  /** One `contour_points` array: the x column, then the y column, then the z column, each
      assigned into a zero array with one row per x value. The z value is broadcast; a missing
      one becomes NaN in every row. */
  function AssembleContour(xs: seq<real>, ys: seq<real>, z: Option<real>): Result<seq<Point3>> {
    var col1 :- Broadcast(ys, |xs|);
    Ok(Rows(xs, col1, seq(|xs|, _ => z)))
  }

  /** The loop of `get_contours` over the first `n` contours; the first failing contour decides
      the error, and `y` with fewer contours than `x` fails on the first missing one. */
  function Assembled(c: Contours, n: nat): Result<seq<seq<Point3>>>
    requires n <= |c.xs|
  {
    if n == 0 then Ok([])
    else
      var prev :- Assembled(c, n - 1);
      if n - 1 >= |c.ys| then Err(IndexError)
      else
        var pts :- AssembleContour(c.xs[n - 1], c.ys[n - 1], c.z);
        Ok(prev + [pts])
  }

  /** An error on the first `n` contours is the error on all of them. */
  lemma {:induction false} AssembledErrorSticks(c: Contours, n: nat)
    requires n <= |c.xs| && Assembled(c, n).Err?
    ensures Assembled(c, |c.xs|) == Assembled(c, n)
    decreases |c.xs| - n
  {
    if n < |c.xs| {
      assert Assembled(c, n + 1) == Assembled(c, n);
      AssembledErrorSticks(c, n + 1);
    }
  }

  /** The y value in row `k` of contour `id`: copied in order, or the single value broadcast. */
  function YAt(ys: seq<real>, n: nat, k: nat): real
    requires Fits(ys, n) && k < n
  {
    if |ys| == n then ys[k] else ys[0]
  }

  /** Every contour can be assembled when each has a y list that fits. */
  predicate Assemblable(c: Contours, n: nat)
    requires n <= |c.xs|
  {
    forall id :: 0 <= id < n ==> id < |c.ys| && Fits(c.ys[id], |c.xs[id]|)
  }

  /** The assembled contours: one per extracted contour, one row per extracted point, x and y
      copied in order and the layer's z in every row; and they fail exactly when some contour's
      columns cannot be assigned. */
  lemma {:induction false} AssembledMeaning(c: Contours, n: nat)
    requires n <= |c.xs|
    ensures Assembled(c, n).Ok? <==> Assemblable(c, n)
    ensures Assembled(c, n).Ok? ==> var r := Assembled(c, n).value;
      |r| == n
      && (forall id :: 0 <= id < n ==> |r[id]| == |c.xs[id]|)
      && (forall id, k :: 0 <= id < n && 0 <= k < |c.xs[id]| ==>
            Fits(c.ys[id], |c.xs[id]|)
            && r[id][k] == Point3(c.xs[id][k], YAt(c.ys[id], |c.xs[id]|, k), c.z))
  {
    if n > 0 {
      AssembledMeaning(c, n - 1);
      if Assemblable(c, n) {
        assert Assemblable(c, n - 1);
        assert Broadcast(c.ys[n - 1], |c.xs[n - 1]|).Ok?;
      }
      if Assembled(c, n).Ok? {
        assert Assemblable(c, n) by {
          forall id | 0 <= id < n
            ensures id < |c.ys| && Fits(c.ys[id], |c.xs[id]|)
          {
            if id == n - 1 {
              assert Broadcast(c.ys[id], |c.xs[id]|).Ok?;
            }
          }
        }
      }
    }
  }

  /** What `get_contours` returns for a layer of the file `lines`. */
  function ContoursFor(lines: seq<string>, layerID: int): Result<seq<seq<Point3>>> {
    var c :- LayerCoordinates(lines, layerID, Perimeter);
    Assembled(c, |c.xs|)
  }

  /** The loop of `get_contours`: one array per contour, appended in order. */
  method AssembleAll(c: Contours) returns (r: Result<seq<seq<Point3>>>)
    ensures r == Assembled(c, |c.xs|)
  {
    var all := [];
    var id := 0;
    while id < |c.xs|
      invariant 0 <= id <= |c.xs|
      invariant Assembled(c, id) == Ok(all)
    {
      if id >= |c.ys| {
        AssembledErrorSticks(c, id + 1);
        return Err(IndexError);
      }
      var pts := AssembleContour(c.xs[id], c.ys[id], c.z);
      if pts.Err? {
        AssembledErrorSticks(c, id + 1);
        return Err(pts.error);
      }
      all := all + [pts.value];
      id := id + 1;
    }
    return Ok(all);
  }

  /** The masks drawn for the contours: `project` stands for `projectPoints` with the camera
      pose, followed by `drawContours` filling the polygon into a zero mask. */
  function Drawn(project: (Vec3, seq<Point3>) -> seq<seq<bool>>, tvec: Vec3, contours: seq<seq<Point3>>)
    : (r: seq<seq<seq<bool>>>)
    ensures |r| == |contours|
  {
    seq(|contours|, k requires 0 <= k < |contours| => project(tvec, contours[k]))
  }

  // ---------------------------------------------------------------------------------------
  // The detector

  class Detector {
    /** `T_nozzle_cam`, the camera's pose relative to the nozzle. */
    const tNozzleCam: seq<seq<real>>
    /** The lines of the sliced G-code file at `gcode_path`. */
    const gcode: seq<string>
    /** The first two coordinates of `img_taken_position`. */
    const imgTakenX: real
    const imgTakenY: real
    const layerHeight: real
    var nozzlePos: Vec3

    constructor (tNozzleCam: seq<seq<real>>, gcode: seq<string>, imgTakenX: real, imgTakenY: real,
                 layerHeight: real)
      ensures this.tNozzleCam == tNozzleCam && this.gcode == gcode && this.layerHeight == layerHeight
      ensures this.imgTakenX == imgTakenX && this.imgTakenY == imgTakenY
      ensures nozzlePos == Vec3(0.0, 0.0, 0.0)
    {
      this.tNozzleCam := tNozzleCam;
      this.gcode := gcode;
      this.imgTakenX := imgTakenX;
      this.imgTakenY := imgTakenY;
      this.layerHeight := layerHeight;
      nozzlePos := Vec3(0.0, 0.0, 0.0);
    }

    /** Where the nozzle is when layer `layerID` is photographed. */
    function Pose(layerID: int): Vec3 {
      Vec3(imgTakenX, imgTakenY, LayerZ(layerID, layerHeight))
    }

    /** `update_nozzle_pos`: the nozzle position becomes the photo position at the layer's
        height; it is the only state that changes. */
    method UpdateNozzlePos(layerID: int)
      modifies this
      ensures nozzlePos == Pose(layerID)
    {
      var z := (layerID - 1) as real * layerHeight + 0.2;
      nozzlePos := Vec3(imgTakenX, imgTakenY, z);
    }

    /** `get_T_printer_cam`: updates the nozzle position, then composes the camera pose with
        the pure translation to it. The rotation block is the camera's own and the translation
        is R·(−p) + t. */
    method GetTPrinterCam(layerID: int) returns (t: seq<seq<real>>, tvec: Vec3)
      requires IsMat4(tNozzleCam)
      modifies this
      ensures nozzlePos == Pose(layerID)
      ensures t == MatMul(tNozzleCam, PrinterToNozzle(nozzlePos))
      ensures forall i, j :: 0 <= i < 3 && 0 <= j < 3 ==> t[i][j] == tNozzleCam[i][j]
      ensures tvec == Translation(tNozzleCam, nozzlePos)
    {
      UpdateNozzlePos(layerID);
      var toNozzle := PrinterToNozzle(nozzlePos);
      t := MatMul(tNozzleCam, toNozzle);
      Composition(tNozzleCam, nozzlePos);
      tvec := Vec3(t[0][3], t[1][3], t[2][3]);
    }

    /** `get_contours`: the layer's external perimeters as arrays of 3-D points. */
    method GetContours(layerID: int) returns (r: Result<seq<seq<Point3>>>)
      ensures r == ContoursFor(gcode, layerID)
    {
      var coords := GetLayerCoordinates(gcode, layerID, Perimeter);
      if coords.Err? {
        return Err(coords.error);
      }
      r := AssembleAll(coords.value);
    }

    /** `project_contour` on a frame already resized and undistorted: the pose and the contours
        of the layer, one projected mask per contour, then the crop by the XOR of the masks.
        Each output pixel is `Cropped` of the frame's pixel, inside where an odd number of the
        drawn masks are set. */
    method ProjectContour(img: array2<Pixel>, layerID: int,
                          project: (Vec3, seq<Point3>) -> seq<seq<bool>>)
      returns (r: Result<array2<Rgba>>)
      requires IsMat4(tNozzleCam)
      modifies this
      ensures nozzlePos == Pose(layerID)
      ensures r.Ok? <==> ContoursFor(gcode, layerID).Ok?
      ensures r.Ok? ==> var masks := Drawn(project, Translation(tNozzleCam, Pose(layerID)), ContoursFor(gcode, layerID).value);
        fresh(r.value) && r.value.Length0 == img.Length0 && r.value.Length1 == img.Length1
        && forall i, j :: 0 <= i < img.Length0 && 0 <= j < img.Length1 ==>
             r.value[i, j] == Cropped(img[i, j], SetCount(masks, i, j) % 2 == 1)
    {
      var _, tvec := GetTPrinterCam(layerID);
      var contours := GetContours(layerID);
      if contours.Err? {
        return Err(contours.error);
      }
      var masks := [];
      var k := 0;
      while k < |contours.value|
        invariant 0 <= k <= |contours.value|
        invariant masks == Drawn(project, tvec, contours.value[..k])
      {
        masks := masks + [project(tvec, contours.value[k])];
        k := k + 1;
      }
      assert contours.value[..k] == contours.value;
      var out := CropByMasks(img, masks);
      return Ok(out);
    }
  }

  // ---------------------------------------------------------------------------------------
  // Positions of the defects

  /** What `defect_mask_to_positions` reports: the centroid of each component, or the pixels of
      each component, converted to printer positions. */
  datatype Positions = Centroids(points: seq<Vec3>) | Components(pixels: seq<seq<Vec3>>)

  /** The pixels of row `r` carrying label `l`, left to right, as (row, column). */
  function RowHits(row: seq<int>, r: int, l: int): seq<(int, int)> {
    if row == [] then []
    else RowHits(row[..|row| - 1], r, l) + (if row[|row| - 1] == l then [(r, |row| - 1)] else [])
  }

  /** `np.argwhere(label_ids == l)`: the pixels carrying `l`, in row-major order. */
  function ArgWhere(labels: seq<seq<int>>, l: int): seq<(int, int)> {
    if labels == [] then []
    else ArgWhere(labels[..|labels| - 1], l) + RowHits(labels[|labels| - 1], |labels| - 1, l)
  }

  /** Row-major order: by row, then by column. */
  predicate Before(p: (int, int), q: (int, int)) {
    p.0 < q.0 || (p.0 == q.0 && p.1 < q.1)
  }

  lemma {:induction false} RowHitsMeaning(row: seq<int>, r: int, l: int)
    ensures forall p :: p in RowHits(row, r, l) <==> p.0 == r && 0 <= p.1 < |row| && row[p.1] == l
    ensures forall a, b :: 0 <= a < b < |RowHits(row, r, l)| ==> RowHits(row, r, l)[a].1 < RowHits(row, r, l)[b].1
    decreases |row|
  {
    if row != [] {
      var init := row[..|row| - 1];
      RowHitsMeaning(init, r, l);
      forall c | 0 <= c < |init|
        ensures init[c] == row[c]
      {
      }
    }
  }

  /** `np.argwhere` lists exactly the pixels carrying the label. */
  lemma {:induction false} ArgWhereMembers(labels: seq<seq<int>>, l: int)
    ensures forall p :: p in ArgWhere(labels, l) <==>
      0 <= p.0 < |labels| && 0 <= p.1 < |labels[p.0]| && labels[p.0][p.1] == l
    decreases |labels|
  {
    if labels != [] {
      var n := |labels| - 1;
      ArgWhereMembers(labels[..n], l);
      RowHitsMeaning(labels[n], n, l);
      assert ArgWhere(labels, l) == ArgWhere(labels[..n], l) + RowHits(labels[n], n, l);
    }
  }

  /** `np.argwhere` lists the pixels in row-major order, so each at most once. */
  lemma {:induction false} ArgWhereOrdered(labels: seq<seq<int>>, l: int)
    ensures forall a, b :: 0 <= a < b < |ArgWhere(labels, l)| ==> Before(ArgWhere(labels, l)[a], ArgWhere(labels, l)[b])
    decreases |labels|
  {
    if labels != [] {
      var n := |labels| - 1;
      var hits, last := ArgWhere(labels[..n], l), RowHits(labels[n], n, l);
      ArgWhereOrdered(labels[..n], l);
      ArgWhereMembers(labels[..n], l);
      RowHitsMeaning(labels[n], n, l);
      var all := ArgWhere(labels, l);
      assert all == hits + last;
      forall a, b | 0 <= a < b < |all|
        ensures Before(all[a], all[b])
      {
        if b >= |hits| && a < |hits| {
          assert all[a] in hits && all[a].0 < n;
          assert all[b] in last;
        } else if a >= |hits| {
          assert all[a] == last[a - |hits|] && all[b] == last[b - |hits|];
        }
      }
    }
  }

  /** `get_Gcode_positions` over a list of points, with `toGcode` the pixel-to-printer
      conversion. */
  function Convert(points: seq<(real, real)>, toGcode: (real, real) -> Vec3): (r: seq<Vec3>)
    ensures |r| == |points|
  {
    seq(|points|, k requires 0 <= k < |points| => toGcode(points[k].0, points[k].1))
  }

  /** The pixels of component `l`, flipped to (column, row) as `pixels[:, ::-1]` does. */
  function PixelPoints(labels: seq<seq<int>>, l: int): seq<(real, real)> {
    var hits := ArgWhere(labels, l);
    seq(|hits|, k requires 0 <= k < |hits| => (hits[k].1 as real, hits[k].0 as real))
  }

  /** `defect_mask_to_positions` given the component analysis: `centroids` has one entry per
      label, the background first. */
  function MaskPositions(kind: int, labels: seq<seq<int>>, centroids: seq<(real, real)>,
                         toGcode: (real, real) -> Vec3): Option<Positions>
  {
    if kind == 1 then Some(Centroids(Convert(if centroids == [] then [] else centroids[1..], toGcode)))
    else if kind == 2 then
      Some(Components(seq(if centroids == [] then 0 else |centroids| - 1, i requires 0 <= i =>
        Convert(PixelPoints(labels, i + 1), toGcode))))
    else None
  }

  /** The type-2 loop over the labels 1 .. totalLabels-1. */
  method DefectMaskToPositions(kind: int, labels: seq<seq<int>>, centroids: seq<(real, real)>,
                               toGcode: (real, real) -> Vec3) returns (r: Option<Positions>)
    ensures r == MaskPositions(kind, labels, centroids, toGcode)
  {
    if kind == 1 {
      var rest := if centroids == [] then [] else centroids[1..];
      return Some(Centroids(Convert(rest, toGcode)));
    } else if kind == 2 {
      var found: seq<seq<Vec3>> := [];
      var i := 1;
      while i < |centroids|
        invariant 1 <= i && (i <= |centroids| || i == 1)
        invariant found == seq(i - 1, k requires 0 <= k => Convert(PixelPoints(labels, k + 1), toGcode))
      {
        found := found + [Convert(PixelPoints(labels, i), toGcode)];
        i := i + 1;
      }
      return Some(Components(found));
    }
    return None;
  }

  /** One position per component apart from the background: for centroids, one per label after
      the first; for pixels, one list per such label holding exactly that component's pixels
      in row-major order. Any other type reports nothing. */
  lemma PositionsMeaning(kind: int, labels: seq<seq<int>>, centroids: seq<(real, real)>,
                         toGcode: (real, real) -> Vec3)
    ensures var r := MaskPositions(kind, labels, centroids, toGcode);
      (r.Some? <==> kind == 1 || kind == 2)
      && (kind == 1 && centroids != [] ==>
            |r.value.points| == |centroids| - 1
            && forall k :: 0 <= k < |centroids| - 1 ==> r.value.points[k] == toGcode(centroids[k + 1].0, centroids[k + 1].1))
      && (kind == 2 && centroids != [] ==> |r.value.pixels| == |centroids| - 1)
  {
  }

  /** The pixel list reported for component `l` holds the conversion of each of its pixels
      (column as x, row as y), in row-major order. */
  lemma ComponentPixels(labels: seq<seq<int>>, l: int)
    ensures var pts, hits := PixelPoints(labels, l), ArgWhere(labels, l);
      |pts| == |hits|
      && (forall k :: 0 <= k < |pts| ==> pts[k] == (hits[k].1 as real, hits[k].0 as real))
      && (forall p :: p in hits <==> 0 <= p.0 < |labels| && 0 <= p.1 < |labels[p.0]| && labels[p.0][p.1] == l)
      && (forall a, b :: 0 <= a < b < |hits| ==> Before(hits[a], hits[b]))
  {
    ArgWhereMembers(labels, l);
    ArgWhereOrdered(labels, l);
  }
}
