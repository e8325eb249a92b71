/** The pixel work of `DefectDetection.project_contour` and `get_defect_mask` that is not an
    OpenCV call: the XOR of the per-contour masks, the crop of the frame to that mask with a
    white background and the mask as alpha channel, and the area filter over connected
    components. Masks are grids of booleans (OpenCV fills 255 into a zero mask, so a mask pixel
    is either 0 or 255); frames are grids of three-channel byte pixels. */
module Masks {

  type Byte = b: int | 0 <= b < 256

  datatype Pixel = Pixel(c0: Byte, c1: Byte, c2: Byte)

  /** A pixel of the merged four-channel output. */
  datatype Rgba = Rgba(c0: Byte, c1: Byte, c2: Byte, alpha: Byte)

  const Black := Pixel(0, 0, 0)
  const White := Pixel(255, 255, 255)

  /** Components with fewer pixels than this are not defects. */
  const MinArea := 10
  /** Components with more pixels than this are not defects. */
  const MaxArea := 200

  /** The pixel at row `i`, column `j` of a mask given as rows; outside the mask it is unset. */
  function Cell(m: seq<seq<bool>>, i: int, j: int): bool {
    if 0 <= i < |m| && 0 <= j < |m[i]| then m[i][j] else false
  }

  predicate Shaped(m: seq<seq<bool>>, height: nat, width: nat) {
    |m| == height && forall i :: 0 <= i < height ==> |m[i]| == width
  }

  // ---------------------------------------------------------------------------------------
  // XOR of the per-contour masks

  /** The XOR of pixel (i, j) over `masks`, folded from the first mask to the last. */
  function XorAll(masks: seq<seq<seq<bool>>>, i: int, j: int): bool {
    if masks == [] then false else XorAll(masks[..|masks| - 1], i, j) != Cell(masks[|masks| - 1], i, j)
  }

  /** How many of `masks` have pixel (i, j) set. */
  function SetCount(masks: seq<seq<seq<bool>>>, i: int, j: int): nat {
    if masks == [] then 0
    else SetCount(masks[..|masks| - 1], i, j) + (if Cell(masks[|masks| - 1], i, j) then 1 else 0)
  }

  /** The XOR is set exactly where an odd number of masks are set. */
  lemma {:induction false} XorAllIsOdd(masks: seq<seq<seq<bool>>>, i: int, j: int)
    ensures XorAll(masks, i, j) <==> SetCount(masks, i, j) % 2 == 1
    decreases |masks|
  {
    if masks != [] {
      XorAllIsOdd(masks[..|masks| - 1], i, j);
    }
  }

  /** The XOR splits over a concatenation of mask lists. */
  lemma {:induction false} XorAllAppend(a: seq<seq<seq<bool>>>, b: seq<seq<seq<bool>>>, i: int, j: int)
    ensures XorAll(a + b, i, j) == (XorAll(a, i, j) != XorAll(b, i, j))
    decreases |b|
  {
    if b == [] {
      assert a + b == a;
    } else {
      assert (a + b)[..|a + b| - 1] == a + b[..|b| - 1];
      XorAllAppend(a, b[..|b| - 1], i, j);
    }
  }

  /** Two identical masks cancel: adding a mask twice leaves the XOR as it was, so the XOR of a
      mask with itself is empty everywhere. */
  lemma MasksCancel(masks: seq<seq<seq<bool>>>, m: seq<seq<bool>>, i: int, j: int)
    ensures XorAll(masks + [m, m], i, j) == XorAll(masks, i, j)
    ensures !XorAll([m, m], i, j)
  {
    XorAllAppend(masks, [m, m], i, j);
    assert [m, m][..|[m, m]| - 1] == [m];
    assert [m][..|[m]| - 1] == [];
    assert XorAll([m], i, j) == Cell(m, i, j);
  }

  /** Flips, in row `i` of `a`, every pixel set in `m`; nothing else changes. */
  method XorRow(a: array2<bool>, m: seq<seq<bool>>, i: nat)
    requires i < a.Length0
    modifies a
    ensures forall r, c :: 0 <= r < a.Length0 && 0 <= c < a.Length1 ==>
      a[r, c] == if r == i then old(a[r, c]) != Cell(m, r, c) else old(a[r, c])
  {
    var j := 0;
    while j < a.Length1
      invariant 0 <= j <= a.Length1
      invariant forall r, c :: 0 <= r < a.Length0 && 0 <= c < a.Length1 ==>
        a[r, c] == if r == i && c < j then old(a[r, c]) != Cell(m, r, c) else old(a[r, c])
    {
      a[i, j] := a[i, j] != Cell(m, i, j);
      j := j + 1;
    }
  }

  /** `final_mask = cv.bitwise_xor(final_mask, mask)`, done in place. */
  method XorInto(a: array2<bool>, m: seq<seq<bool>>)
    modifies a
    ensures forall r, c :: 0 <= r < a.Length0 && 0 <= c < a.Length1 ==>
      a[r, c] == (old(a[r, c]) != Cell(m, r, c))
  {
    var i := 0;
    while i < a.Length0
      invariant 0 <= i <= a.Length0
      invariant forall r, c :: 0 <= r < a.Length0 && 0 <= c < a.Length1 ==>
        a[r, c] == if r < i then old(a[r, c]) != Cell(m, r, c) else old(a[r, c])
    {
      XorRow(a, m, i);
      i := i + 1;
    }
  }

  /** The final mask: a zero mask of the frame's size, XORed with each per-contour mask in turn.
      A pixel ends up set iff an odd number of the masks set it. */
  method XorMasks(masks: seq<seq<seq<bool>>>, height: nat, width: nat) returns (a: array2<bool>)
    ensures fresh(a) && a.Length0 == height && a.Length1 == width
    ensures forall r, c :: 0 <= r < height && 0 <= c < width ==> a[r, c] == XorAll(masks, r, c)
  {
    a := new bool[height, width]((r, c) => false);
    var k := 0;
    while k < |masks|
      invariant 0 <= k <= |masks|
      invariant forall r, c :: 0 <= r < height && 0 <= c < width ==> a[r, c] == XorAll(masks[..k], r, c)
    {
      XorInto(a, masks[k]);
      assert masks[..k + 1][..k] == masks[..k];
      k := k + 1;
    }
    assert masks[..|masks|] == masks;
  }

  // ---------------------------------------------------------------------------------------
  // Crop, white background, alpha

  /** What `bitwise_and(img, img, mask=final_mask)` leaves of a pixel. */
  function Masked(p: Pixel, inside: bool): Pixel {
    if inside then p else Black
  }

  /** The background fill: an all-zero pixel becomes white, any other pixel stays. */
  function Whiten(p: Pixel): (q: Pixel)
    ensures q != Black
    ensures p != Black ==> q == p
  {
    if p == Black then White else p
  }

  /** One pixel of the cropped image `project_contour` returns, given the frame's pixel and
      whether the final mask is set there. */
  function Cropped(p: Pixel, inside: bool): Rgba {
    var q := Whiten(Masked(p, inside));
    Rgba(q.c0, q.c1, q.c2, if inside then 255 else 0)
  }

  /** Inside the mask the frame's colour is kept, except that a black pixel turns white, and the
      pixel is opaque; outside the mask the pixel is white and transparent. No output pixel is
      black. */
  lemma CroppedMeaning(p: Pixel, inside: bool)
    ensures var o := Cropped(p, inside);
      (o.alpha == 255 <==> inside) && (o.alpha == 0 <==> !inside)
      && (inside && p != Black ==> Pixel(o.c0, o.c1, o.c2) == p)
      && (inside && p == Black ==> Pixel(o.c0, o.c1, o.c2) == White)
      && (!inside ==> Pixel(o.c0, o.c1, o.c2) == White)
  {
  }

  /** `cv.bitwise_and(img, img, mask=final_mask)`: a new frame keeping the pixels under the mask
      and zeroing the rest. */
  method CropToMask(img: array2<Pixel>, mask: array2<bool>) returns (dst: array2<Pixel>)
    requires mask.Length0 == img.Length0 && mask.Length1 == img.Length1
    ensures fresh(dst) && dst.Length0 == img.Length0 && dst.Length1 == img.Length1
    ensures forall r, c :: 0 <= r < img.Length0 && 0 <= c < img.Length1 ==>
      dst[r, c] == Masked(img[r, c], mask[r, c])
  {
    dst := new Pixel[img.Length0, img.Length1]((r, c) reads img, mask =>
      if 0 <= r < img.Length0 && 0 <= c < img.Length1 then Masked(img[r, c], mask[r, c]) else Black);
  }

  /** The background fill on row `i`. */
  method WhitenRow(dst: array2<Pixel>, i: nat)
    requires i < dst.Length0
    modifies dst
    ensures forall r, c :: 0 <= r < dst.Length0 && 0 <= c < dst.Length1 ==>
      dst[r, c] == if r == i then Whiten(old(dst[r, c])) else old(dst[r, c])
  {
    var j := 0;
    while j < dst.Length1
      invariant 0 <= j <= dst.Length1
      invariant forall r, c :: 0 <= r < dst.Length0 && 0 <= c < dst.Length1 ==>
        dst[r, c] == if r == i && c < j then Whiten(old(dst[r, c])) else old(dst[r, c])
    {
      if dst[i, j] == Black {
        dst[i, j] := White;
      }
      j := j + 1;
    }
  }

  /** `dst[np.where(np.all(dst[..., :3] == 0, -1))] = 255`, in place. */
  method WhitenBackground(dst: array2<Pixel>)
    modifies dst
    ensures forall r, c :: 0 <= r < dst.Length0 && 0 <= c < dst.Length1 ==> dst[r, c] == Whiten(old(dst[r, c]))
  {
    var i := 0;
    while i < dst.Length0
      invariant 0 <= i <= dst.Length0
      invariant forall r, c :: 0 <= r < dst.Length0 && 0 <= c < dst.Length1 ==>
        dst[r, c] == if r < i then Whiten(old(dst[r, c])) else old(dst[r, c])
    {
      WhitenRow(dst, i);
      i := i + 1;
    }
  }

  /** `cv.split` then `cv.merge([r, g, b, final_mask])`: the three channels with the mask as
      the fourth. */
  method MergeAlpha(dst: array2<Pixel>, mask: array2<bool>) returns (out: array2<Rgba>)
    requires mask.Length0 == dst.Length0 && mask.Length1 == dst.Length1
    ensures fresh(out) && out.Length0 == dst.Length0 && out.Length1 == dst.Length1
    ensures forall r, c :: 0 <= r < dst.Length0 && 0 <= c < dst.Length1 ==>
      out[r, c] == Rgba(dst[r, c].c0, dst[r, c].c1, dst[r, c].c2, if mask[r, c] then 255 else 0)
  {
    out := new Rgba[dst.Length0, dst.Length1]((r, c) reads dst, mask =>
      if 0 <= r < dst.Length0 && 0 <= c < dst.Length1
      then Rgba(dst[r, c].c0, dst[r, c].c1, dst[r, c].c2, if mask[r, c] then 255 else 0)
      else Rgba(0, 0, 0, 0));
  }

  /** The tail of `project_contour` from the per-contour masks on: XOR them into the final mask,
      crop the frame to it, whiten the background and attach the mask as alpha. Each output pixel
      is `Cropped` of the frame's pixel, with "inside" meaning set in an odd number of masks. */
  method CropByMasks(img: array2<Pixel>, masks: seq<seq<seq<bool>>>) returns (out: array2<Rgba>)
    ensures fresh(out) && out.Length0 == img.Length0 && out.Length1 == img.Length1
    ensures forall r, c :: 0 <= r < img.Length0 && 0 <= c < img.Length1 ==>
      out[r, c] == Cropped(img[r, c], SetCount(masks, r, c) % 2 == 1)
  {
    var finalMask := XorMasks(masks, img.Length0, img.Length1);
    var dst := CropToMask(img, finalMask);
    WhitenBackground(dst);
    out := MergeAlpha(dst, finalMask);
    forall r, c | 0 <= r < img.Length0 && 0 <= c < img.Length1
      ensures out[r, c] == Cropped(img[r, c], SetCount(masks, r, c) % 2 == 1)
    {
      XorAllIsOdd(masks, r, c);
    }
  }

  // ---------------------------------------------------------------------------------------
  // Area filter

  /** A component whose area is outside [MinArea, MaxArea] is not a defect. */
  predicate OutOfRange(area: int) {
    area < MinArea || area > MaxArea
  }

  /** Whether the area filter erases a pixel carrying `comp`: labels 1 .. |areas|-1 are the
      components (0 is the background), and a component is erased when its area is out of range. */
  predicate Erased(comp: int, areas: seq<int>) {
    1 <= comp < |areas| && OutOfRange(areas[comp])
  }

  /** A component survives exactly when its area lies in [10, 200], bounds included. */
  lemma ErasedMeaning(comp: int, areas: seq<int>)
    requires 1 <= comp < |areas|
    ensures !Erased(comp, areas) <==> 10 <= areas[comp] <= 200
  {
  }

  /** `defect_mask[label_ids == l] = 0` on row `i`. */
  method EraseInRow(mask: array2<bool>, labels: array2<int>, l: int, i: nat)
    requires labels.Length0 == mask.Length0 && labels.Length1 == mask.Length1 && i < mask.Length0
    modifies mask
    ensures forall r, c :: 0 <= r < mask.Length0 && 0 <= c < mask.Length1 ==>
      mask[r, c] == if r == i && labels[r, c] == l then false else old(mask[r, c])
  {
    var j := 0;
    while j < mask.Length1
      invariant 0 <= j <= mask.Length1
      invariant forall r, c :: 0 <= r < mask.Length0 && 0 <= c < mask.Length1 ==>
        mask[r, c] == if r == i && c < j && labels[r, c] == l then false else old(mask[r, c])
    {
      if labels[i, j] == l {
        mask[i, j] := false;
      }
      j := j + 1;
    }
  }

  /** `defect_mask[label_ids == l] = 0`: every pixel of component `l` is cleared, every other
      pixel is left as it was. */
  method EraseLabel(mask: array2<bool>, labels: array2<int>, l: int)
    requires labels.Length0 == mask.Length0 && labels.Length1 == mask.Length1
    modifies mask
    ensures forall r, c :: 0 <= r < mask.Length0 && 0 <= c < mask.Length1 ==>
      mask[r, c] == if labels[r, c] == l then false else old(mask[r, c])
  {
    var i := 0;
    while i < mask.Length0
      invariant 0 <= i <= mask.Length0
      invariant forall r, c :: 0 <= r < mask.Length0 && 0 <= c < mask.Length1 ==>
        mask[r, c] == if r < i && labels[r, c] == l then false else old(mask[r, c])
    {
      EraseInRow(mask, labels, l, i);
      i := i + 1;
    }
  }

  /** The loop of `get_defect_mask`, in place on the mask: each component 1 .. |areas|-1 whose
      area is out of range is erased. A pixel stays set iff it was set and its component is not
      erased; the label image is not changed. */
  method FilterByArea(mask: array2<bool>, labels: array2<int>, areas: seq<int>)
    requires labels.Length0 == mask.Length0 && labels.Length1 == mask.Length1
    modifies mask
    ensures forall r, c :: 0 <= r < mask.Length0 && 0 <= c < mask.Length1 ==>
      mask[r, c] == (old(mask[r, c]) && !Erased(labels[r, c], areas))
  {
    var l := 1;
    while l < |areas|
      invariant 1 <= l && (l <= |areas| || l == 1)
      invariant forall r, c :: 0 <= r < mask.Length0 && 0 <= c < mask.Length1 ==>
        mask[r, c] == (old(mask[r, c]) && !(1 <= labels[r, c] < l && Erased(labels[r, c], areas)))
    {
      if areas[l] < MinArea || areas[l] > MaxArea {
        EraseLabel(mask, labels, l);
      }
      l := l + 1;
    }
  }

  /** `get_defect_mask` after thresholding: a copy of the binary image, filtered by area. */
  method DefectMask(binary: array2<bool>, labels: array2<int>, areas: seq<int>) returns (mask: array2<bool>)
    requires labels.Length0 == binary.Length0 && labels.Length1 == binary.Length1
    ensures fresh(mask) && mask.Length0 == binary.Length0 && mask.Length1 == binary.Length1
    ensures forall r, c :: 0 <= r < binary.Length0 && 0 <= c < binary.Length1 ==>
      mask[r, c] == (binary[r, c] && !Erased(labels[r, c], areas))
  {
    mask := new bool[binary.Length0, binary.Length1]((r, c) reads binary =>
      if 0 <= r < binary.Length0 && 0 <= c < binary.Length1 then binary[r, c] else false);
    FilterByArea(mask, labels, areas);
  }
}
