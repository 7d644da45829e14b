/** The image data source of src/modules/lodmap/imagesource.c: patches of an
    image pyramid that is never stored as a whole. */
module ImagePyramid {
  import opened Quadtrees

  /** The largest and the smallest positive normal value of a float. */
  const FLT_MAX := 340282346638528859811704183484516925440.0
  const FLT_MIN := 1.0 / 85070591730234615865843651857942052864.0

  /** An image: rows, columns, channels. */
  type Image = array3<real>

  ghost function Padded(image: Image, x: int, y: int, c: nat): real
    requires c < image.Length2
    reads image
  {
    if 0 <= y < image.Length0 && 0 <= x < image.Length1 then image[y, x, c] else 0.0
  }

  /** The pyramid: level 0 is the image with zeros around it; a higher level
      copies the one below or averages nine points of it. */
  ghost function Pyramid(image: Image, interpolate: bool, level: nat, x: int, y: int, c: nat): real
    requires c < image.Length2
    reads image
    decreases level, 10
  {
    if level == 0 then Padded(image, x, y, c)
    else if interpolate then NeighbourSum(image, level, x, y, c, 9) / 9.0
    else Pyramid(image, interpolate, level - 1, x, y, c)
  }

  /** The first k of the nine points around (x, y), one level below. */
  ghost function NeighbourSum(image: Image, level: nat, x: int, y: int, c: nat, k: nat): real
    requires c < image.Length2 && level > 0 && k <= 9
    reads image
    decreases level, k
  {
    if k == 0 then 0.0
    else
      NeighbourSum(image, level, x, y, c, k - 1)
      + Pyramid(image, true, level - 1, x + ((k - 1) % 3 - 1) * Scale(level - 1),
                y + ((k - 1) / 3 - 1) * Scale(level - 1), c)
  }

  /** What the pixel (x, y) of a patch at (sx, sy) stands for. */
  ghost function PatchPixel(image: Image, interpolate: bool, level: nat, sx: int, sy: int,
                            x: nat, y: nat, c: nat): real
    requires c < image.Length2
    reads image
  {
    Pyramid(image, interpolate, level, sx + x * Scale(level), sy + y * Scale(level), c)
  }

  /** The patch shows the pyramid. */
  ghost predicate Shows(patch: Image, image: Image, interpolate: bool, level: nat, sx: int, sy: int)
    reads patch, image
  {
    patch.Length2 == image.Length2 &&
    forall y: nat, x: nat, c: nat :: y < patch.Length0 && x < patch.Length1 && c < patch.Length2 ==>
      patch[y, x, c] == PatchPixel(image, interpolate, level, sx, sy, x, y, c)
  }

  ghost predicate Occurs(patch: Image, v: real)
    reads patch
  {
    exists y: nat, x: nat, c: nat :: y < patch.Length0 && x < patch.Length1 && c < patch.Length2 && patch[y, x, c] == v
  }

  /** The limits enclose every value, and each is a value or its start. */
  ghost predicate Limits(patch: Image, lo: real, hi: real)
    reads patch
  {
    && (forall y: nat, x: nat, c: nat :: y < patch.Length0 && x < patch.Length1 && c < patch.Length2 ==>
         lo <= patch[y, x, c] <= hi)
    && lo <= FLT_MAX && hi >= FLT_MIN
    && (lo == FLT_MAX || Occurs(patch, lo)) && (hi == FLT_MIN || Occurs(patch, hi))
  }

  /** The upper limit is the maximum exactly when some value reaches FLT_MIN:
      a patch without positive values reports a maximum it does not have. */
  lemma UpperLimitExactly(patch: Image, lo: real, hi: real)
    requires Limits(patch, lo, hi)
    ensures hi > 0.0
    ensures Occurs(patch, hi) <==>
            exists y: nat, x: nat, c: nat :: y < patch.Length0 && x < patch.Length1 && c < patch.Length2
                                             && patch[y, x, c] >= FLT_MIN
  {}

  lemma {:induction false} ScaleAdds(a: nat, b: nat)
    ensures Scale(a + b) == Scale(a) * Scale(b)
  {
    if a > 0 { ScaleAdds(a - 1, b); }
  }

  lemma {:induction false} ScaleTwice(n: nat, v: nat)
    requires Scale(n) == v
    ensures Scale(2 * n) == v * v
  {
    ScaleAdds(n, n);
  }

  /** The two limits of a float: 2^-126, and 2^128 less 2^104. */
  lemma FloatLimits(n: nat)
    requires n == 1
    ensures FLT_MIN * (Scale(126 * n) as real) == 1.0
    ensures FLT_MAX == Scale(128 * n) as real - Scale(104 * n) as real
  {
    hide Scale;
    ScaleOne(n);
    ScaleTwice(n, 2);
    ScaleTwice(2 * n, 4);
    ScaleTwice(4 * n, 16);
    ScaleTwice(8 * n, 256);
    ScaleTwice(16 * n, 65536);
    ScaleTwice(32 * n, 0x1_0000_0000);
    ScaleTwice(64 * n, 0x1_0000_0000_0000_0000);
    ScaleAdds(64 * n, 32 * n);
    ScaleAdds(96 * n, 8 * n);
    ScaleAdds(104 * n, 16 * n);
    ScaleAdds(120 * n, 4 * n);
    ScaleAdds(124 * n, 2 * n);
  }

  lemma ScaleOne(n: nat)
    requires n == 1
    ensures Scale(n) == 2
  {}

  // ----- coordinates

  lemma CopiedFrom(sx: int, x: nat, level: nat)
    requires level > 0
    ensures sx + (2 * x) * Scale(level - 1) == sx + x * Scale(level)
  {
    assert Scale(level) == 2 * Scale(level - 1);
    assert (2 * x) * Scale(level - 1) == x * (2 * Scale(level - 1));
  }

  lemma AveragedFrom(sx: int, x: nat, level: nat, j: int)
    requires level > 0 && -1 <= j <= 1
    ensures (sx - Scale(level - 1)) + (2 * x + 1 + j) * Scale(level - 1) == sx + x * Scale(level) + j * Scale(level - 1)
  {
    CopiedFrom(sx, x, level);
    assert (2 * x + 1 + j) * Scale(level - 1) == (2 * x) * Scale(level - 1) + Scale(level - 1) + j * Scale(level - 1);
  }

  /** One of the nine values to average, read from the patch one level below. */
  lemma DetailPixel(detail: Image, image: Image, level: nat, sx: int, sy: int, x: nat, y: nat, c: nat, i: int, j: int)
    requires level > 0 && c < image.Length2 && -1 <= i <= 1 && -1 <= j <= 1
    requires Shows(detail, image, true, level - 1, sx - Scale(level - 1), sy - Scale(level - 1))
    requires 2 * x + 2 < detail.Length1 && 2 * y + 2 < detail.Length0
    ensures var k := 3 * (i + 1) + (j + 1);
            NeighbourSum(image, level, sx + x * Scale(level), sy + y * Scale(level), c, k + 1) ==
            NeighbourSum(image, level, sx + x * Scale(level), sy + y * Scale(level), c, k)
            + detail[2 * y + 1 + i, 2 * x + 1 + j, c]
  {
    hide Scale, Pyramid;
    var k := 3 * (i + 1) + (j + 1);
    assert k % 3 - 1 == j && k / 3 - 1 == i;
    AveragedFrom(sx, x, level, j);
    AveragedFrom(sy, y, level, i);
    var dx: nat, dy: nat := 2 * x + 1 + j, 2 * y + 1 + i;
    assert detail[dy, dx, c] ==
           PatchPixel(image, true, level - 1, sx - Scale(level - 1), sy - Scale(level - 1), dx, dy, c);
  }

  // ----- building a patch

  predicate Before(y: nat, x: nat, c: nat, y1: nat, x1: nat, c1: nat) {
    y < y1 || (y == y1 && (x < x1 || (x == x1 && c < c1)))
  }

  /** The average of the nine pixels of `detail` around pixel (x, y). */
  method Average(detail: Image, ghost image: Image, ghost level: nat, ghost sx: int, ghost sy: int,
                 x: nat, y: nat, c: nat) returns (value: real)
    requires level > 0 && c < image.Length2
    requires Shows(detail, image, true, level - 1, sx - Scale(level - 1), sy - Scale(level - 1))
    requires 2 * x + 2 < detail.Length1 && 2 * y + 2 < detail.Length0
    ensures value == PatchPixel(image, true, level, sx, sy, x, y, c)
  {
    hide Scale, Shows;
    ShowsChannels(detail, image, true, level - 1, sx - Scale(level - 1), sy - Scale(level - 1));
    var dx, dy := 2 * x, 2 * y;
    ghost var gx, gy := sx + x * Scale(level), sy + y * Scale(level);
    value := 0.0;
    for i := -1 to 2
      invariant value == NeighbourSum(image, level, gx, gy, c, 3 * (i + 1))
    {
      for j := -1 to 2
        invariant value == NeighbourSum(image, level, gx, gy, c, 3 * (i + 1) + (j + 1))
      {
        DetailPixel(detail, image, level, sx, sy, x, y, c, i, j);
        value := value + detail[dy + 1 + i, dx + 1 + j, c];
      }
    }
    value := value / 9.0;
  }

  lemma ShowsChannels(patch: Image, image: Image, interpolate: bool, level: nat, sx: int, sy: int)
    requires Shows(patch, image, interpolate, level, sx, sy)
    ensures patch.Length2 == image.Length2
  {}

  /** Everything before pixel (y1, x1, c1) shows the pyramid and is covered by
      the limits. */
  ghost predicate Filled(patch: Image, image: Image, interpolate: bool, level: nat, sx: int, sy: int,
                         y1: nat, x1: nat, c1: nat, lo: real, hi: real)
    reads patch, image
  {
    && patch.Length2 == image.Length2
    && lo <= FLT_MAX && hi >= FLT_MIN
    && (forall y: nat, x: nat, c: nat ::
          (y < patch.Length0 && x < patch.Length1 && c < patch.Length2 && Before(y, x, c, y1, x1, c1)) ==>
          patch[y, x, c] == PatchPixel(image, interpolate, level, sx, sy, x, y, c) && lo <= patch[y, x, c] <= hi)
    && (lo == FLT_MAX || Met(patch, y1, x1, c1, lo))
    && (hi == FLT_MIN || Met(patch, y1, x1, c1, hi))
  }

  ghost predicate Met(patch: Image, y1: nat, x1: nat, c1: nat, v: real)
    reads patch
  {
    exists y: nat, x: nat, c: nat ::
      y < patch.Length0 && x < patch.Length1 && c < patch.Length2 && Before(y, x, c, y1, x1, c1) && patch[y, x, c] == v
  }

  /** Where a limit was met; nowhere in particular when it is still its start. */
  ghost function Where(patch: Image, y1: nat, x1: nat, c1: nat, v: real): (p: (nat, nat, nat))
    reads patch
    ensures Met(patch, y1, x1, c1, v) ==>
              p.0 < patch.Length0 && p.1 < patch.Length1 && p.2 < patch.Length2
              && Before(p.0, p.1, p.2, y1, x1, c1) && patch[p.0, p.1, p.2] == v
  {
    if Met(patch, y1, x1, c1, v) then
      var y: nat, x: nat, c: nat :|
        y < patch.Length0 && x < patch.Length1 && c < patch.Length2 && Before(y, x, c, y1, x1, c1) && patch[y, x, c] == v;
      (y, x, c)
    else (0, 0, 0)
  }

  /** Stores a value and updates the limits. */
  method SetPixel(patch: Image, ghost image: Image, ghost interpolate: bool, ghost level: nat,
                  ghost sx: int, ghost sy: int, y: nat, x: nat, c: nat, value: real, lo: real, hi: real)
    returns (minValue: real, maxValue: real)
    requires patch != image && y < patch.Length0 && x < patch.Length1 && c < patch.Length2
    requires Filled(patch, image, interpolate, level, sx, sy, y, x, c, lo, hi)
    requires value == PatchPixel(image, interpolate, level, sx, sy, x, y, c)
    modifies patch
    ensures Filled(patch, image, interpolate, level, sx, sy, y, x, c + 1, minValue, maxValue)
  {
    hide Pyramid, Scale, PatchPixel;
    ghost var l, h := Where(patch, y, x, c, lo), Where(patch, y, x, c, hi);
    patch[y, x, c] := value;
    minValue, maxValue := lo, hi;
    if value < minValue { minValue := value; }
    if value > maxValue { maxValue := value; }
    assert Before(y, x, c, y, x, c + 1) && patch[y, x, c] == value;
    assert minValue == FLT_MAX || Met(patch, y, x, c + 1, minValue) by {
      if minValue == lo && lo != FLT_MAX {
        assert patch[l.0, l.1, l.2] == lo && Before(l.0, l.1, l.2, y, x, c + 1);
      }
    }
    assert maxValue == FLT_MIN || Met(patch, y, x, c + 1, maxValue) by {
      if maxValue == hi && hi != FLT_MIN {
        assert patch[h.0, h.1, h.2] == hi && Before(h.0, h.1, h.2, y, x, c + 1);
      }
    }
    forall i: nat, j: nat, k: nat | i < patch.Length0 && j < patch.Length1 && k < patch.Length2
      && Before(i, j, k, y, x, c + 1)
      ensures patch[i, j, k] == PatchPixel(image, interpolate, level, sx, sy, j, i, k)
      ensures minValue <= patch[i, j, k] <= maxValue
    {
      assert (i == y && j == x && k == c) || Before(i, j, k, y, x, c);
    }
    hide Met, Where, Before;
  }

  lemma NextPixel(patch: Image, image: Image, interpolate: bool, level: nat, sx: int, sy: int,
                  y: nat, x: nat, lo: real, hi: real)
    requires Filled(patch, image, interpolate, level, sx, sy, y, x, patch.Length2, lo, hi)
    ensures Filled(patch, image, interpolate, level, sx, sy, y, x + 1, 0, lo, hi)
  {
    hide PatchPixel;
    SameMet(patch, y, x, patch.Length2, y, x + 1, 0, lo);
    SameMet(patch, y, x, patch.Length2, y, x + 1, 0, hi);
  }

  lemma NextRow(patch: Image, image: Image, interpolate: bool, level: nat, sx: int, sy: int,
                y: nat, lo: real, hi: real)
    requires Filled(patch, image, interpolate, level, sx, sy, y, patch.Length1, 0, lo, hi)
    ensures Filled(patch, image, interpolate, level, sx, sy, y + 1, 0, 0, lo, hi)
  {
    hide PatchPixel;
    SameMet(patch, y, patch.Length1, 0, y + 1, 0, 0, lo);
    SameMet(patch, y, patch.Length1, 0, y + 1, 0, 0, hi);
  }

  lemma SameMet(patch: Image, y: nat, x: nat, c: nat, y1: nat, x1: nat, c1: nat, v: real)
    requires forall i: nat, j: nat, k: nat ::
      i < patch.Length0 && j < patch.Length1 && k < patch.Length2 && Before(i, j, k, y, x, c) ==>
        Before(i, j, k, y1, x1, c1)
    ensures Met(patch, y, x, c, v) ==> Met(patch, y1, x1, c1, v)
  {
    ghost var w := Where(patch, y, x, c, v);
    assert Met(patch, y, x, c, v) ==> Before(w.0, w.1, w.2, y1, x1, c1) && patch[w.0, w.1, w.2] == v;
  }

  lemma Complete(patch: Image, image: Image, interpolate: bool, level: nat, sx: int, sy: int, lo: real, hi: real)
    requires Filled(patch, image, interpolate, level, sx, sy, patch.Length0, 0, 0, lo, hi)
    ensures Shows(patch, image, interpolate, level, sx, sy) && Limits(patch, lo, hi)
  {
    hide PatchPixel;
    ghost var l, h := Where(patch, patch.Length0, 0, 0, lo), Where(patch, patch.Length0, 0, 0, hi);
    assert lo == FLT_MAX || patch[l.0, l.1, l.2] == lo;
    assert hi == FLT_MIN || patch[h.0, h.1, h.2] == hi;
  }

  /** The pixel of the level below that a copied pixel comes from. */
  lemma CopiedPixel(detail: Image, image: Image, level: nat, sx: int, sy: int, x: nat, y: nat, c: nat)
    requires level > 0 && c < image.Length2
    requires Shows(detail, image, false, level - 1, sx, sy)
    requires 2 * x < detail.Length1 && 2 * y < detail.Length0
    ensures detail[2 * y, 2 * x, c] == PatchPixel(image, false, level, sx, sy, x, y, c)
  {
    hide Scale;
    CopiedFrom(sx, x, level);
    CopiedFrom(sy, y, level);
    var dx: nat, dy: nat := 2 * x, 2 * y;
    assert detail[dy, dx, c] == PatchPixel(image, false, level - 1, sx, sy, dx, dy, c);
  }

  lemma BasePixel(image: Image, interpolate: bool, sx: int, sy: int, x: nat, y: nat, c: nat, level: nat)
    requires level == 0 && c < image.Length2
    ensures PatchPixel(image, interpolate, level, sx, sy, x, y, c) ==
            if 0 <= sy + y < image.Length0 && 0 <= sx + x < image.Length1 then image[sy + y, sx + x, c] else 0.0
  {}

  /** The patch of pixels (size, size) at (sx, sy) of a pyramid level, computed
      from a larger patch of the level below. */
  method GetImagePatch(image: Image, sx: int, sy: int, size: nat, level: nat, interpolate: bool)
    returns (result: Image, minValue: real, maxValue: real)
    requires size >= 1
    ensures fresh(result) && result.Length0 == size && result.Length1 == size
    ensures Shows(result, image, interpolate, level, sx, sy)
    ensures Limits(result, minValue, maxValue)
    decreases level
  {
    hide Filled, Shows, Limits, Scale, Pyramid, PatchPixel, Before, Padded;
    minValue, maxValue := FLT_MAX, FLT_MIN;
    result := new real[size, size, image.Length2];
    NothingFilled(result, image, interpolate, level, sx, sy);
    if level == 0 {
      for y := sy to sy + size
        invariant Filled(result, image, interpolate, level, sx, sy, y - sy, 0, 0, minValue, maxValue)
      {
        for x := sx to sx + size
          invariant Filled(result, image, interpolate, level, sx, sy, y - sy, x - sx, 0, minValue, maxValue)
        {
          for c := 0 to image.Length2
            invariant Filled(result, image, interpolate, level, sx, sy, y - sy, x - sx, c, minValue, maxValue)
          {
            var value := 0.0;
            if 0 <= y < image.Length0 && 0 <= x < image.Length1 {
              value := image[y, x, c];
            }
            BasePixel(image, interpolate, sx, sy, x - sx, y - sy, c, level);
            minValue, maxValue := SetPixel(result, image, interpolate, level, sx, sy, y - sy, x - sx, c, value, minValue, maxValue);
          }
          NextPixel(result, image, interpolate, level, sx, sy, y - sy, x - sx, minValue, maxValue);
        }
        NextRow(result, image, interpolate, level, sx, sy, y - sy, minValue, maxValue);
      }
    } else {
      var detail: Image;
      if interpolate {
        var detailStep := Scale(level - 1);
        detail, minValue, maxValue := GetImagePatch(image, sx - detailStep, sy - detailStep, 2 * (size - 1) + 3, level - 1, interpolate);
        minValue, maxValue := FLT_MAX, FLT_MIN;
        for y := 0 to size
          modifies result
          invariant Filled(result, image, interpolate, level, sx, sy, y, 0, 0, minValue, maxValue)
        {
          for x := 0 to size
            modifies result
            invariant Filled(result, image, interpolate, level, sx, sy, y, x, 0, minValue, maxValue)
          {
            for c := 0 to image.Length2
              modifies result
              invariant Filled(result, image, interpolate, level, sx, sy, y, x, c, minValue, maxValue)
            {
              var value := Average(detail, image, level, sx, sy, x, y, c);
              minValue, maxValue := SetPixel(result, image, interpolate, level, sx, sy, y, x, c, value, minValue, maxValue);
            }
            NextPixel(result, image, interpolate, level, sx, sy, y, x, minValue, maxValue);
          }
          NextRow(result, image, interpolate, level, sx, sy, y, minValue, maxValue);
        }
      } else {
        detail, minValue, maxValue := GetImagePatch(image, sx, sy, 2 * (size - 1) + 1, level - 1, interpolate);
        minValue, maxValue := FLT_MAX, FLT_MIN;
        ShowsChannels(detail, image, interpolate, level - 1, sx, sy);
        for y := 0 to size
          modifies result
          invariant Filled(result, image, interpolate, level, sx, sy, y, 0, 0, minValue, maxValue)
        {
          for x := 0 to size
            modifies result
            invariant Filled(result, image, interpolate, level, sx, sy, y, x, 0, minValue, maxValue)
          {
            for c := 0 to image.Length2
              modifies result
              invariant Filled(result, image, interpolate, level, sx, sy, y, x, c, minValue, maxValue)
            {
              var value := detail[2 * y, 2 * x, c];
              CopiedPixel(detail, image, level, sx, sy, x, y, c);
              minValue, maxValue := SetPixel(result, image, interpolate, level, sx, sy, y, x, c, value, minValue, maxValue);
            }
            NextPixel(result, image, interpolate, level, sx, sy, y, x, minValue, maxValue);
          }
          NextRow(result, image, interpolate, level, sx, sy, y, minValue, maxValue);
        }
      }
    }
    Complete(result, image, interpolate, level, sx, sy, minValue, maxValue);
  }

  lemma NothingFilled(patch: Image, image: Image, interpolate: bool, level: nat, sx: int, sy: int)
    requires patch.Length2 == image.Length2
    ensures Filled(patch, image, interpolate, level, sx, sy, 0, 0, 0, FLT_MAX, FLT_MIN)
  {}

  // ----- the data source

  datatype ImageType = Height | Normals | Texture

  datatype ImageSource = ImageSource(heights: Image, normals: Image, texture: Image,
                                     baseLevel: nat, normalDetailLevel: nat, textureDetailLevel: nat)
  {
    function Picture(query: ImageType): Image {
      match query
      case Height => heights
      case Normals => normals
      case Texture => texture
    }

    /** One less than the image size. */
    function Span(query: ImageType): (s: nat)
      ensures s >= 1
    {
      Scale(baseLevel + match query
                        case Height => 0
                        case Normals => normalDetailLevel
                        case Texture => textureDetailLevel)
    }

    /** The tile shows its part of the pyramid of the queried picture. */
    ghost predicate TileShows(tile: Image, query: ImageType, node: Node)
      reads tile, heights, normals, texture
    {
      && tile.Length0 == Span(query) + 1 && tile.Length1 == Span(query) + 1
      && Shows(tile, Picture(query), query != Height, node.level, node.x * Span(query), node.y * Span(query))
    }

    /** The tile is square, with one pixel more than the span, and shows the
        pyramid from the corner of the node on. */
    ghost predicate Covers(tile: Image, image: Image, interpolate: bool, node: Node, span: nat)
      reads tile, image
    {
      && tile.Length0 == span + 1 && tile.Length1 == span + 1
      && Shows(tile, image, interpolate, node.level, node.x * span, node.y * span)
    }

    /** Heights are copied; normals and textures are averaged, and have more
        pixels by their detail level. */
    method Query(query: ImageType, node: Node) returns (tile: Image, minValue: real, maxValue: real)
      ensures fresh(tile) && TileShows(tile, query, node) && Limits(tile, minValue, maxValue)
      ensures query == Height ==> Covers(tile, heights, false, node, Scale(baseLevel))
      ensures query == Normals ==> Covers(tile, normals, true, node, Scale(baseLevel + normalDetailLevel))
      ensures query == Texture ==> Covers(tile, texture, true, node, Scale(baseLevel + textureDetailLevel))
    {
      hide Shows, Scale;
      var imageSize := Span(query) + 1;
      tile, minValue, maxValue :=
        GetImagePatch(Picture(query), node.x * (imageSize - 1), node.y * (imageSize - 1), imageSize, node.level, query != Height);
    }

    /** A height tile shows every Scale(level)-th pixel of the image, and zeros
        outside it. */
    lemma TileHeights(tile: Image, node: Node, x: nat, y: nat, c: nat)
      requires TileShows(tile, Height, node) && x <= Scale(baseLevel) && y <= Scale(baseLevel) && c < tile.Length2
      ensures c < heights.Length2
      ensures var i, j := node.x * Scale(baseLevel) + x * Scale(node.level), node.y * Scale(baseLevel) + y * Scale(node.level);
              tile[y, x, c] == if 0 <= i < heights.Length1 && 0 <= j < heights.Length0 then heights[j, i, c] else 0.0
    {
      hide Pyramid, Scale;
      var s, step := Scale(baseLevel), Scale(node.level);
      CopyIsImage(heights, node.level, node.x * s + x * step, node.y * s + y * step, c);
      assert tile[y, x, c] == PatchPixel(heights, false, node.level, node.x * s, node.y * s, x, y, c);
    }

    /** Tiles next to each other have equal values along their common border. */
    lemma NoSeamX(query: ImageType, left: Image, right: Image, node: Node, y: nat, c: nat)
      requires TileShows(left, query, node)
      requires TileShows(right, query, node.(x := node.x + Scale(node.level)))
      requires y <= Span(query) && c < left.Length2
      ensures left[y, Span(query), c] == right[y, 0, c]
    {
      hide Scale, Span, Pyramid, Picture;
      var s, x0: nat := Span(query), 0;
      assert (node.x + Scale(node.level)) * s + x0 * Scale(node.level) == node.x * s + s * Scale(node.level);
      assert right[y, x0, c] == PatchPixel(Picture(query), query != Height, node.level, (node.x + Scale(node.level)) * s, node.y * s, x0, y, c);
    }

    lemma NoSeamY(query: ImageType, top: Image, bottom: Image, node: Node, x: nat, c: nat)
      requires TileShows(top, query, node)
      requires TileShows(bottom, query, node.(y := node.y + Scale(node.level)))
      requires x <= Span(query) && c < top.Length2
      ensures top[Span(query), x, c] == bottom[0, x, c]
    {
      hide Scale, Span, Pyramid, Picture;
      var s, y0: nat := Span(query), 0;
      assert (node.y + Scale(node.level)) * s + y0 * Scale(node.level) == node.y * s + s * Scale(node.level);
      assert bottom[y0, x, c] == PatchPixel(Picture(query), query != Height, node.level, node.x * s, (node.y + Scale(node.level)) * s, x, y0, c);
    }
  }

  /** Copying levels changes nothing: heights are those of the image. */
  lemma {:induction false} CopyIsImage(image: Image, level: nat, x: int, y: int, c: nat)
    requires c < image.Length2
    ensures Pyramid(image, false, level, x, y, c) == Padded(image, x, y, c)
  {
    if level > 0 { CopyIsImage(image, level - 1, x, y, c); }
  }

  /** A parent tile has the heights of its child i, wherever one of its points
      (x, y) lies in that child's quarter; the point is (u, v) of the child. */
  lemma HeightsAgree(source: ImageSource, node: Node, i: nat, parent: Image, child: Image,
                     x: nat, y: nat, u: nat, v: nat, c: nat)
    requires node.level > 0 && i < 4 && c < source.heights.Length2
    requires source.TileShows(parent, Height, node) && source.TileShows(child, Height, Child(node, i))
    requires x < parent.Length1 && y < parent.Length0 && u < child.Length1 && v < child.Length0
    requires 2 * x == u + (i % 2) * source.Span(Height) && 2 * y == v + (i / 2) * source.Span(Height)
    ensures parent[y, x, c] == child[v, u, c]
  {
    var s, h := source.Span(Height), Scale(node.level - 1);
    var n := Child(node, i);
    assert Scale(node.level) == 2 * h;
    ChildCorner(node, i);
    hide Scale, Child, Pyramid, ImageSource.Span;
    SamePoint(node.x, s, x, u, i % 2, h);
    SamePoint(node.y, s, y, v, i / 2, h);
    CopyIsImage(source.heights, node.level, node.x * s + x * Scale(node.level), node.y * s + y * Scale(node.level), c);
    CopyIsImage(source.heights, node.level - 1, n.x * s + u * h, n.y * s + v * h, c);
  }

  lemma ChildCorner(node: Node, i: nat)
    requires node.level > 0 && i < 4
    ensures Child(node, i).x == node.x + (i % 2) * Scale(node.level - 1)
    ensures Child(node, i).y == node.y + (i / 2) * Scale(node.level - 1)
  {
    hide Scale;
  }

  lemma SamePoint(n: int, s: nat, x: nat, u: nat, half: nat, h: nat)
    requires 2 * x == u + half * s
    ensures (n + half * h) * s + u * h == n * s + x * (2 * h)
  {
    assert x * (2 * h) == (u + half * s) * h;
    assert (n + half * h) * s == n * s + (half * s) * h;
    assert (u + half * s) * h == u * h + (half * s) * h;
  }

  /** Level 0 is the image, with zeros outside. */
  lemma BaseLevel(image: Image, interpolate: bool, x: int, y: int, c: nat)
    requires c < image.Length2
    ensures 0 <= x < image.Length1 && 0 <= y < image.Length0 ==> Pyramid(image, interpolate, 0, x, y, c) == image[y, x, c]
    ensures !(0 <= x < image.Length1 && 0 <= y < image.Length0) ==> Pyramid(image, interpolate, 0, x, y, c) == 0.0
  {}

  /** The nine points around (x, y) at a distance of h. */
  ghost function Nine(image: Image, level: nat, x: int, y: int, c: nat, h: int): real
    requires c < image.Length2
    reads image
  {
    Pyramid(image, true, level, x - h, y - h, c) + Pyramid(image, true, level, x, y - h, c) + Pyramid(image, true, level, x + h, y - h, c)
    + Pyramid(image, true, level, x - h, y, c) + Pyramid(image, true, level, x, y, c) + Pyramid(image, true, level, x + h, y, c)
    + Pyramid(image, true, level, x - h, y + h, c) + Pyramid(image, true, level, x, y + h, c) + Pyramid(image, true, level, x + h, y + h, c)
  }

  lemma SumNext(image: Image, level: nat, x: int, y: int, c: nat, k: nat)
    requires c < image.Length2 && level > 0 && k < 9
    ensures NeighbourSum(image, level, x, y, c, k + 1) ==
            NeighbourSum(image, level, x, y, c, k)
            + Pyramid(image, true, level - 1, x + (k % 3 - 1) * Scale(level - 1), y + (k / 3 - 1) * Scale(level - 1), c)
  {
    hide Pyramid, Scale;
  }

  /** A level is a ninth of nine points of the one below, as far apart as that
      level's pixels. */
  lemma NinthOfNine(image: Image, level: nat, x: int, y: int, c: nat)
    requires c < image.Length2 && level > 0
    ensures 9.0 * Pyramid(image, true, level, x, y, c) == Nine(image, level - 1, x, y, c, Scale(level - 1))
  {
    SumOfNine(image, level, x, y, c);
    hide NeighbourSum, Nine, Scale;
  }

  lemma SumOfNine(image: Image, level: nat, x: int, y: int, c: nat)
    requires c < image.Length2 && level > 0
    ensures NeighbourSum(image, level, x, y, c, 9) == Nine(image, level - 1, x, y, c, Scale(level - 1))
  {
    hide Pyramid, Scale, NeighbourSum;
    NoNeighbours(image, level, x, y, c);
    SumNext(image, level, x, y, c, 0);
    SumNext(image, level, x, y, c, 1);
    SumNext(image, level, x, y, c, 2);
    SumNext(image, level, x, y, c, 3);
    SumNext(image, level, x, y, c, 4);
    SumNext(image, level, x, y, c, 5);
    SumNext(image, level, x, y, c, 6);
    SumNext(image, level, x, y, c, 7);
    SumNext(image, level, x, y, c, 8);
  }

  lemma NoNeighbours(image: Image, level: nat, x: int, y: int, c: nat)
    requires c < image.Length2 && level > 0
    ensures NeighbourSum(image, level, x, y, c, 0) == 0.0
  {}

  /** All values up to d pixels away lie between lo and hi, zeros outside the
      image included. */
  ghost predicate Ranges(image: Image, x: int, y: int, c: nat, d: int, lo: real, hi: real)
    requires c < image.Length2
    reads image
  {
    forall i: int, j: int :: x - d <= i <= x + d && y - d <= j <= y + d ==> lo <= Padded(image, i, j, c) <= hi
  }

  /** Averaging stays in the range of the pixels below, whether or not zero lies
      in it; so it keeps what is constant. */
  lemma {:induction false} AverageBounded(image: Image, level: nat, x: int, y: int, c: nat, lo: real, hi: real)
    requires c < image.Length2 && Ranges(image, x, y, c, Scale(level) - 1, lo, hi)
    ensures lo <= Pyramid(image, true, level, x, y, c) <= hi
    decreases level
  {
    if level == 0 {
      assert lo <= Padded(image, x, y, c) <= hi;
    } else {
      var h := Scale(level - 1);
      assert Scale(level) == 2 * h;
      NinthOfNine(image, level, x, y, c);
      forall dx: int, dy: int | -1 <= dx <= 1 && -1 <= dy <= 1
        ensures lo <= Pyramid(image, true, level - 1, x + dx * h, y + dy * h, c) <= hi
      {
        RangesWithin(image, x, y, c, h, dx, dy, lo, hi);
        AverageBounded(image, level - 1, x + dx * h, y + dy * h, c, lo, hi);
      }
      NineBounded(image, level - 1, x, y, c, h, lo, hi);
    }
  }

  lemma RangesWithin(image: Image, x: int, y: int, c: nat, h: int, dx: int, dy: int, lo: real, hi: real)
    requires c < image.Length2 && h >= 1 && -1 <= dx <= 1 && -1 <= dy <= 1 && Ranges(image, x, y, c, 2 * h - 1, lo, hi)
    ensures Ranges(image, x + dx * h, y + dy * h, c, h - 1, lo, hi)
  {
    hide Padded;
    assert -h <= dx * h <= h && -h <= dy * h <= h;
  }

  lemma NineBounded(image: Image, level: nat, x: int, y: int, c: nat, h: int, lo: real, hi: real)
    requires c < image.Length2
    requires forall dx: int, dy: int :: -1 <= dx <= 1 && -1 <= dy <= 1 ==>
               lo <= Pyramid(image, true, level, x + dx * h, y + dy * h, c) <= hi
    ensures 9.0 * lo <= Nine(image, level, x, y, c, h) <= 9.0 * hi
  {
    hide Pyramid;
    var a, b, z := -1, 1, 0;
    assert x + a * h == x - h && x + z * h == x && x + b * h == x + h;
    assert y + a * h == y - h && y + z * h == y && y + b * h == y + h;
  }

  /** Averaging never leaves the range of the image and the zeros around it. */
  lemma {:induction false} PyramidBounded(image: Image, interpolate: bool, level: nat, x: int, y: int, c: nat,
                                          lo: real, hi: real)
    requires c < image.Length2 && lo <= 0.0 <= hi
    requires forall i: nat, j: nat :: i < image.Length0 && j < image.Length1 ==> lo <= image[i, j, c] <= hi
    ensures lo <= Pyramid(image, interpolate, level, x, y, c) <= hi
    decreases level, 10
  {
    if level > 0 {
      if interpolate {
        SumBounded(image, level, x, y, c, 9, lo, hi);
      } else {
        PyramidBounded(image, interpolate, level - 1, x, y, c, lo, hi);
      }
    }
  }

  lemma {:induction false} SumBounded(image: Image, level: nat, x: int, y: int, c: nat, k: nat, lo: real, hi: real)
    requires c < image.Length2 && level > 0 && k <= 9 && lo <= 0.0 <= hi
    requires forall i: nat, j: nat :: i < image.Length0 && j < image.Length1 ==> lo <= image[i, j, c] <= hi
    ensures k as real * lo <= NeighbourSum(image, level, x, y, c, k) <= k as real * hi
    decreases level, k
  {
    hide Pyramid, Scale;
    if k > 0 {
      var h := Scale(level - 1);
      SumBounded(image, level, x, y, c, k - 1, lo, hi);
      PyramidBounded(image, true, level - 1, x + ((k - 1) % 3 - 1) * h, y + ((k - 1) / 3 - 1) * h, c, lo, hi);
      assert k as real * lo == (k - 1) as real * lo + lo && k as real * hi == (k - 1) as real * hi + hi;
    }
  }
}
