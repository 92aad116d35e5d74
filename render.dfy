/** The renderer (src/render.rs): the surface's size, its row stride, the cairo context
    that maps the unit square onto the pixels, and the active region drawn on it. */
module Render {
  import opened Wrappers
  import opened Numeric
  import opened Geometry

  /** `cairo::Format`. */
  datatype Format = ARgb32 | Rgb24 | A8 | A1 | Rgb16565 | Rgb30

  /** `Format::stride_for_width`: cairo's byte width of a row, or an error for a width it
      cannot lay out. This model takes it as a parameter. */
  type StrideFor = (Format, u32) -> Option<i32>

  /** `get_buf_size`: the stride cast to `u32` times the height. The cast and the
      product wrap at 2^32, as they do in a release build. */
  function BufSize(stride: i32, height: u32): (n: u32)
    ensures (n - stride * height) % TWO_32 == 0
    ensures 0 <= stride && stride * height < TWO_32 ==> n == stride * height
  {
    var s := WrapU32(stride);
    CongruentTimes(s, stride, height);
    CongruentTrans(WrapU32(s * height), s * height, stride * height);
    WrapU32(s * height)
  }

  /** Congruence modulo 2^32 is kept by multiplication... */
  lemma CongruentTimes(a: int, b: int, c: int)
    requires (a - b) % TWO_32 == 0
    ensures (a * c - b * c) % TWO_32 == 0
  {
    var q := (a - b) / TWO_32;
    assert a - b == q * TWO_32;
    assert a * c - b * c == (q * c) * TWO_32;
  }

  /** ...and is transitive. */
  lemma CongruentTrans(x: int, y: int, z: int)
    requires (x - y) % TWO_32 == 0 && (y - z) % TWO_32 == 0
    ensures (x - z) % TWO_32 == 0
  {
    var p, q := (x - y) / TWO_32, (y - z) / TWO_32;
    assert x - y == p * TWO_32 && y - z == q * TWO_32;
    assert x - z == (p + q) * TWO_32;
  }

  /** The errors `set_bounds` returns. */
  datatype BoundsError = StrideFailed | ResizeFailed

  /** What `set_bounds` does: it returns, returns an error, or panics because the
      size to map is zero (mapping zero bytes fails and the result is unwrapped). */
  datatype BoundsResult = Done | Failed(error: BoundsError) | MapPanicked

  class RenderManager {
    var activeRegion: Rect
    var width: u32
    var height: u32
    var stride: i32
    const format: Format
    /** The scale of the cairo context: user space to device pixels. */
    var scaleX: real
    var scaleY: real

    /** The stored region keeps its origin on the surface. */
    predicate Valid()
      reads this
    {
      OriginInside(activeRegion)
    }

    /** The part of `init` before it sets the bounds: the whole surface as region, zero
        size, stride -1, and a context over an empty surface with the identity matrix. */
    constructor Blank(format: Format)
      ensures Valid()
      ensures activeRegion == FULL && width == 0 && height == 0 && stride == -1
      ensures this.format == format && scaleX == 1.0 && scaleY == 1.0
    {
      activeRegion := FULL;
      width, height, stride := 0, 0, -1;
      this.format := format;
      scaleX, scaleY := 1.0, 1.0;
    }

    /** `get_buf_size`. */
    function BufferSize(): (n: u32)
      reads this
      ensures (n - stride * height) % TWO_32 == 0
    {
      BufSize(stride, height)
    }

    /** `set_bounds(w, h)`. A stride error leaves everything as it was. Otherwise the
        stride, width and height are stored; then the backing file is resized, which
        `resizes` says succeeds; mapping the buffer panics when its size is zero; and
        on success the context scales the unit square to `w` by `h` pixels. The
        region is never touched. Drawing is not modelled: the redraw succeeds. */
    method SetBounds(w: u32, h: u32, strideFor: StrideFor, resizes: bool) returns (r: BoundsResult)
      requires Valid()
      modifies this
      ensures Valid() && activeRegion == old(activeRegion)
      ensures strideFor(format, w).None? ==> r == Failed(StrideFailed) && unchanged(this)
      ensures strideFor(format, w).Some? ==> stride == strideFor(format, w).value && width == w && height == h
      ensures strideFor(format, w).Some? && !resizes ==>
                r == Failed(ResizeFailed) && scaleX == old(scaleX) && scaleY == old(scaleY)
      ensures strideFor(format, w).Some? && resizes && BufSize(stride, h) == 0 ==> r == MapPanicked
      ensures strideFor(format, w).Some? && resizes && BufSize(stride, h) != 0 ==>
                r == Done && scaleX == w as real && scaleY == h as real
    {
      var s := strideFor(format, w);
      if s.None? {
        return Failed(StrideFailed);
      }
      stride := s.value;
      width := w;
      height := h;
      if !resizes {
        return Failed(ResizeFailed);
      }
      if BufferSize() == 0 {
        return MapPanicked;
      }
      scaleX, scaleY := w as real, h as real;
      return Done;
    }

    /** `update_active_region(rect)`: the region becomes `rect` exactly when its origin
        lies on the surface and it covers at least one device pixel each way. */
    method UpdateActiveRegion(rect: Rect)
      requires Valid()
      modifies this
      ensures Valid()
      ensures activeRegion == Updated(old(activeRegion), rect, scaleX, scaleY)
      ensures width == old(width) && height == old(height) && stride == old(stride)
      ensures scaleX == old(scaleX) && scaleY == old(scaleY)
    {
      var dx, dy := rect.width * scaleX, rect.height * scaleY;
      if rect.x >= 0.0 && rect.y >= 0.0 && rect.x < 1.0 && rect.y < 1.0 && dx >= 1.0 && dy >= 1.0 {
        activeRegion := rect;
      }
      UpdatedKeepsOrigin(old(activeRegion), rect, scaleX, scaleY);
    }
  }

  /** `init(format, w, h)`: a blank renderer whose bounds are then set. The renderer
      is usable only when the result is `Done`; otherwise `init` returns the error or
      panics. */
  method Init(format: Format, w: u32, h: u32, strideFor: StrideFor, resizes: bool)
    returns (rm: RenderManager, r: BoundsResult)
    ensures fresh(rm) && rm.Valid() && rm.format == format && rm.activeRegion == FULL
    ensures strideFor(format, w).None? <==> r == Failed(StrideFailed)
    ensures r == Done <==> strideFor(format, w).Some? && resizes && BufSize(strideFor(format, w).value, h) != 0
    ensures strideFor(format, w).Some? && !resizes ==> r == Failed(ResizeFailed)
    ensures strideFor(format, w).Some? && resizes && BufSize(strideFor(format, w).value, h) == 0 ==> r == MapPanicked
    ensures r == Done ==>
              rm.width == w && rm.height == h && rm.stride == strideFor(format, w).value
              && rm.scaleX == w as real && rm.scaleY == h as real
  {
    rm := new RenderManager.Blank(format);
    r := rm.SetBounds(w, h, strideFor, resizes);
  }
}
