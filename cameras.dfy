// Model of src/camera.rs: the camera, its viewport and the mapping from a
// pixel's indices to the primary ray through that pixel's centre.
module Cameras {
  import opened Ints
  import opened Vectors
  import opened Rays

  /** Camera: the location and direction of the camera itself, the depth
      from camera to viewport, the viewport's width in world units and in
      pixels, its row count, the size of one pixel and the centre of the
      top-left pixel. */
  datatype Camera = Camera(
    pxPerRow: u32,
    rowCount: u32,
    loc: Vec3,
    dir: Vec3,
    depth: real,
    viewportWidth: real,
    pxSize: real,
    originPixel: Vec3)
  {
    /** Camera::fixed: a camera at the origin looking down the negative z
        axis at a square 200 by 200 pixel viewport, 2 units wide, one unit
        away. A pixel is the viewport width over the pixels per row, and the
        first pixel's centre is the viewport's top-left corner moved half a
        pixel right and half a pixel down. */
    static function Fixed(): (c: Camera)
      ensures c.pxPerRow == 200 && c.rowCount == 200
      ensures c.viewportWidth == 2.0 && c.depth == 1.0
      ensures c.loc == Origin && c.dir == Vec3(0.0, 0.0, -1.0)
      ensures c.pxSize > 0.0 && c.pxSize * (c.pxPerRow as int as real) == c.viewportWidth
      ensures c.originPixel == Vec3(-1.0 + c.pxSize / 2.0, 1.0 - c.pxSize / 2.0, -1.0)
    {
      var viewportWidth := 2.0;
      var pxPerRow: u32 := 200;
      var rowCount: u32 := 200;
      var viewportOrigin := Vec3(-1.0, 1.0, -1.0);
      var pxSize := viewportWidth / (pxPerRow as int as real);
      var originPixel := viewportOrigin.Add(Vec3(pxSize, -pxSize, 0.0).Div(2.0));
      Camera(pxPerRow, rowCount, Origin, Vec3(0.0, 0.0, -1.0), 1.0, viewportWidth, pxSize, originPixel)
    }

    /** The centre of pixel (x, y): the first pixel's centre moved x pixels
        right and y pixels down. */
    function PixelLocation(x: u32, y: u32): Vec3 {
      originPixel.Add(Vec3(pxSize * (x as int as real), -pxSize * (y as int as real), 0.0))
    }

    /** Camera::primary_ray: the ray from the camera through the centre of
        pixel (x, y). */
    function PrimaryRay(m: Maths, x: u32, y: u32): (r: Ray)
      ensures r.source == loc
      ensures PixelLocation(x, y).Sub(loc).Mag(m) != 0.0 ==>
                r.dir.Mul(PixelLocation(x, y).Sub(loc).Mag(m)) == PixelLocation(x, y).Sub(loc)
    {
      Ray.New(m, loc, PixelLocation(x, y).Sub(loc))
    }
  }

  /** Every pixel centre of the fixed camera lies on the plane z = -1, one
      unit in front of the camera. */
  lemma FixedPixelDepth(x: u32, y: u32)
    ensures Camera.Fixed().PixelLocation(x, y).z == -1.0
  {
  }

  /** The fixed camera's grid is centred: the last pixel's centre is the
      viewport's bottom-right corner (1, -1, -1) moved half a pixel left and
      half a pixel up, mirroring the first pixel. */
  lemma FixedGridCentred()
    ensures Camera.Fixed().PixelLocation(199, 199)
      == Vec3(1.0 - Camera.Fixed().pxSize / 2.0, -1.0 + Camera.Fixed().pxSize / 2.0, -1.0)
  {
  }

  /** With a positive pixel size, a larger column index gives a pixel further
      right, and a larger row index a pixel further down. */
  lemma PixelMonotone(c: Camera, x1: u32, x2: u32, y1: u32, y2: u32)
    requires c.pxSize > 0.0
    ensures x1 < x2 ==> c.PixelLocation(x1, y1).x < c.PixelLocation(x2, y2).x
    ensures y1 < y2 ==> c.PixelLocation(x1, y1).y > c.PixelLocation(x2, y2).y
  {
    if x1 < x2 {
      ScaleLess(c.pxSize, x1 as int as real, x2 as int as real);
    }
    if y1 < y2 {
      ScaleLess(c.pxSize, y1 as int as real, y2 as int as real);
    }
  }

  /** Multiplying by a positive real keeps a strict order. */
  lemma ScaleLess(s: real, a: real, b: real)
    requires s > 0.0 && a < b
    ensures s * a < s * b
  {
    assert s * b - s * a == s * (b - a);
  }

  /** With a positive pixel size, distinct pixel indices give distinct pixel
      centres. */
  lemma PixelInjective(c: Camera, x1: u32, y1: u32, x2: u32, y2: u32)
    requires c.pxSize > 0.0
    requires x1 != x2 || y1 != y2
    ensures c.PixelLocation(x1, y1) != c.PixelLocation(x2, y2)
  {
    if x1 < x2 || y1 < y2 {
      PixelMonotone(c, x1, x2, y1, y2);
    } else {
      PixelMonotone(c, x2, x1, y2, y1);
    }
  }

  /** With an exact square root, distinct pixels of the fixed camera get
      distinct primary ray directions: no two pixels sample the same
      direction. */
  lemma FixedPrimaryRaysDistinct(m: Maths, x1: u32, y1: u32, x2: u32, y2: u32)
    requires m.ExactSqrt()
    requires x1 != x2 || y1 != y2
    ensures Camera.Fixed().PrimaryRay(m, x1, y1).dir != Camera.Fixed().PrimaryRay(m, x2, y2).dir
  {
    var c := Camera.Fixed();
    var p1, p2 := c.PixelLocation(x1, y1), c.PixelLocation(x2, y2);
    FixedPixelDepth(x1, y1);
    FixedPixelDepth(x2, y2);
    assert p1.Sub(c.loc) == p1 && p2.Sub(c.loc) == p2;
    NewDirectionIsUnit(m, c.loc, p1);
    NewDirectionIsUnit(m, c.loc, p2);
    PixelInjective(c, x1, y1, x2, y2);
    var d1, d2 := c.PrimaryRay(m, x1, y1).dir, c.PrimaryRay(m, x2, y2).dir;
    if d1 == d2 {
      SameDepthSameScale(d1, p1.Mag(m), p2.Mag(m));
    }
  }

  /** Two multiples of one vector that both reach the plane z = -1 are the
      same multiple. */
  lemma SameDepthSameScale(d: Vec3, k1: real, k2: real)
    requires d.Mul(k1).z == -1.0 && d.Mul(k2).z == -1.0
    ensures d.Mul(k1) == d.Mul(k2)
  {
    assert k1 == (d.z * k1) / d.z;
    assert k2 == (d.z * k2) / d.z;
  }
}
