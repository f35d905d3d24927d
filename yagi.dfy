/**
 * The YAGI ("Yet Another Gralloc Interface") buffer-info supplier of
 * gbm_gralloc: it validates a query from the display compositor, reads the
 * gralloc handle, maps its pixel format to a DRM code and writes the plane
 * layout into the caller's `struct yagi_bi_v1` record.
 */
module Yagi {
  import opened Wrappers
  import opened CInt
  import opened Formats
  import opened Layout

  /** `EINVAL` of Linux's `errno.h`; the translator returns its negation. */
  const EINVAL: int := 22
  /** `YAGI_MAX_PLANES_V1` */
  const YAGI_MAX_PLANES_V1: int := 4
  /**
   * `sizeof(struct yagi_bi_v1)`: fifteen 32-bit words (three scalars and three arrays of four: pitches, offsets, prime_fds), four padding bytes to
   * align the `uint64_t` modifiers, four 64-bit modifiers and two 32-bit
   * words, on an ABI that aligns `uint64_t` to 8 bytes.
   */
  const SIZEOF_YAGI_BI_V1: int := 104

  /** `struct yagi`, opaque to the host; the translator never looks inside. */
  datatype YagiState = YagiState

  /** The fields of `struct gralloc_handle_t` that the translator reads. */
  datatype GrallocHandle = GrallocHandle(
    width: u32,
    height: u32,
    stride: u32,
    format: HalFormat,
    primeFd: i32,
    modifier: u64)

  /** One plane entry of the record: the `i`-th element of its four arrays. */
  datatype Plane = Plane(pitch: u32, offset: u32, primeFd: i32, modifier: u64)

  /** The contents of a `struct yagi_bi_v1` record. */
  datatype BufferInfoV1 = BufferInfoV1(
    width: u32,
    height: u32,
    drmFormat: DrmFormat,
    pitches: seq<u32>,
    offsets: seq<u32>,
    primeFds: seq<i32>,
    modifiers: seq<u64>,
    numPlanes: i32,
    yagiFlags: u32)
  {
    /** Each array has `YAGI_MAX_PLANES_V1` entries. */
    predicate WellFormed()
    {
      |pitches| == YAGI_MAX_PLANES_V1 && |offsets| == YAGI_MAX_PLANES_V1 &&
      |primeFds| == YAGI_MAX_PLANES_V1 && |modifiers| == YAGI_MAX_PLANES_V1
    }

    function PlaneAt(i: nat): (p: Plane)
      requires WellFormed() && i < YAGI_MAX_PLANES_V1
    {
      Plane(pitches[i], offsets[i], primeFds[i], modifiers[i])
    }
  }

  /** What `yagi_bi_get` returns and what the caller's record holds afterwards (`None`: no record). */
  datatype Reply = Reply(status: int, out: Option<BufferInfoV1>)

  /** `yagi_init`: the token is `~0`, any non-null value will do. */
  function Init(): (yagi: Option<YagiState>)
    ensures yagi.Some?
  {
    Some(YagiState)
  }

  /** The argument checks of `yagi_bi_get`, made before the handle is read. */
  predicate ArgumentsValid(yagi: Option<YagiState>, handle: Option<GrallocHandle>, hasOut: bool,
                           version: int, size: int)
  {
    yagi.Some? && handle.Some? && hasOut && version == 1 && size == SIZEOF_YAGI_BI_V1
  }

  /**
   * The record after a successful query: plane 0 describes the whole buffer
   * (YV12: its luma plane); for YV12, planes 1 and 2 are the Cr and Cb planes.
   */
  function Fill(h: GrallocHandle, drm: DrmFormat, prior: BufferInfoV1): (r: BufferInfoV1)
    requires prior.WellFormed()
    ensures r.WellFormed()
    ensures r.width == h.width && r.height == h.height && r.drmFormat == drm && r.yagiFlags == 0
    ensures r.numPlanes == if h.format == HalYv12 then 3 else 1
    ensures r.PlaneAt(0) == Plane(h.stride, 0, h.primeFd, h.modifier)
    ensures h.format == HalYv12 ==>
      && r.pitches[1] == ChromaPitch(h.stride) && r.pitches[2] == ChromaPitch(h.stride)
      && r.offsets[1] == CrOffset(h.stride, h.height)
      && r.offsets[2] == CbOffset(h.stride, h.height)
      && r.modifiers[1] == h.modifier && r.modifiers[2] == h.modifier
    ensures forall i :: r.numPlanes <= i < YAGI_MAX_PLANES_V1 ==> r.PlaneAt(i) == prior.PlaneAt(i)
    ensures r.primeFds[1..] == prior.primeFds[1..]
  {
    var single := prior.(
      width := h.width,
      height := h.height,
      drmFormat := drm,
      pitches := prior.pitches[0 := h.stride],
      offsets := prior.offsets[0 := 0],
      primeFds := prior.primeFds[0 := h.primeFd],
      modifiers := prior.modifiers[0 := h.modifier],
      numPlanes := 1,
      yagiFlags := 0);
    if h.format == HalYv12 then
      var cp := ChromaPitch(h.stride);
      var cr := CrOffset(h.stride, h.height);
      single.(
        pitches := single.pitches[1 := cp][2 := cp],
        offsets := single.offsets[1 := cr][2 := Add32(cr, DivRoundUp(Mul32(cp, h.height), 2))],
        modifiers := single.modifiers[1 := h.modifier][2 := h.modifier],
        numPlanes := 3)
    else
      single
  }

  /**
   * `yagi_bi_get` on values: `-EINVAL` and the record untouched when an
   * argument check fails or the format is outside the table, otherwise 0 and
   * the record filled in.
   */
  function Query(yagi: Option<YagiState>, handle: Option<GrallocHandle>, out: Option<BufferInfoV1>,
                 version: int, size: int): (r: Reply)
    requires out.Some? ==> out.value.WellFormed()
    ensures r.status == 0 || r.status == -EINVAL
    ensures r.status == 0 <==>
      ArgumentsValid(yagi, handle, out.Some?, version, size) &&
      ToDrmFormat(handle.value.format).Some?
    ensures r.status != 0 ==> r.out == out
    ensures r.status == 0 ==> r.out == Some(Fill(handle.value, ToDrmFormat(handle.value.format).value, out.value))
  {
    if !ArgumentsValid(yagi, handle, out.Some?, version, size) then
      Reply(-EINVAL, out)
    else
      var h := handle.value;
      match ToDrmFormat(h.format)
      case None => Reply(-EINVAL, out)
      case Some(drm) => Reply(0, Some(Fill(h, drm, out.value)))
  }

  /**
   * The caller-owned `struct yagi_bi_v1`. Its four arrays are embedded in the
   * struct, so they are fixed for the life of the record and never alias.
   */
  class BufferInfo {
    var width: u32
    var height: u32
    var drmFormat: DrmFormat
    const pitches: array<u32>
    const offsets: array<u32>
    const primeFds: array<i32>
    const modifiers: array<u64>
    var numPlanes: i32
    var yagiFlags: u32

    ghost predicate Valid()
      reads this
    {
      pitches.Length == YAGI_MAX_PLANES_V1 && offsets.Length == YAGI_MAX_PLANES_V1 &&
      primeFds.Length == YAGI_MAX_PLANES_V1 && modifiers.Length == YAGI_MAX_PLANES_V1 &&
      pitches != offsets
    }

    /** The memory of the record. */
    ghost function Repr(): (objs: set<object>)
      reads this
    {
      {this, pitches, offsets, primeFds, modifiers}
    }

    /** What the record currently holds. */
    ghost function Contents(): (v: BufferInfoV1)
      reads this, pitches, offsets, primeFds, modifiers
      requires Valid()
      ensures v.WellFormed()
    {
      BufferInfoV1(width, height, drmFormat, pitches[..], offsets[..], primeFds[..], modifiers[..],
                   numPlanes, yagiFlags)
    }

    /** A record whose every field the caller has pre-filled with `init`. */
    constructor (init: BufferInfoV1)
      requires init.WellFormed()
      ensures Valid() && Contents() == init
      ensures fresh(pitches) && fresh(offsets) && fresh(primeFds) && fresh(modifiers)
    {
      width, height, drmFormat := init.width, init.height, init.drmFormat;
      pitches := new u32[YAGI_MAX_PLANES_V1](i requires 0 <= i < YAGI_MAX_PLANES_V1 => init.pitches[i]);
      offsets := new u32[YAGI_MAX_PLANES_V1](i requires 0 <= i < YAGI_MAX_PLANES_V1 => init.offsets[i]);
      primeFds := new i32[YAGI_MAX_PLANES_V1](i requires 0 <= i < YAGI_MAX_PLANES_V1 => init.primeFds[i]);
      modifiers := new u64[YAGI_MAX_PLANES_V1](i requires 0 <= i < YAGI_MAX_PLANES_V1 => init.modifiers[i]);
      numPlanes, yagiFlags := init.numPlanes, init.yagiFlags;
    }
  }

  /** The contents of the record behind a possibly null `out_buf_info`. */
  ghost function ContentsOf(out: BufferInfo?): (v: Option<BufferInfoV1>)
    reads out, if out != null then out.Repr() else {}
    requires out != null ==> out.Valid()
    ensures v.Some? ==> v.value.WellFormed()
  {
    if out == null then None else Some(out.Contents())
  }

  /**
   * `yagi_bi_get`: fills `out_buf_info` field by field and in place, as
   * `Query` describes, and writes nothing at all when it fails.
   */
  method BiGet(yagi: Option<YagiState>, handle: Option<GrallocHandle>, outBufInfo: BufferInfo?,
               version: int, size: int) returns (ret: int)
    requires outBufInfo != null ==> outBufInfo.Valid()
    modifies if outBufInfo != null then outBufInfo.Repr() else {}
    ensures outBufInfo != null ==> outBufInfo.Valid()
    ensures Reply(ret, ContentsOf(outBufInfo)) == Query(yagi, handle, old(ContentsOf(outBufInfo)), version, size)
    ensures ret != 0 && outBufInfo != null ==>
      unchanged(outBufInfo, outBufInfo.pitches, outBufInfo.offsets, outBufInfo.primeFds, outBufInfo.modifiers)
  {
    if yagi.None? || handle.None? || outBufInfo == null || version != 1 || size != SIZEOF_YAGI_BI_V1 {
      return -EINVAL;
    }
    var out := outBufInfo;
    var grHandle := handle.value;
    var drmFormat := ToDrmFormat(grHandle.format);
    if drmFormat.None? {
      return -EINVAL;
    }

    out.width := grHandle.width;
    out.height := grHandle.height;
    out.drmFormat := drmFormat.value;
    out.pitches[0] := grHandle.stride;
    out.offsets[0] := 0;
    out.primeFds[0] := grHandle.primeFd;
    out.modifiers[0] := grHandle.modifier;
    out.numPlanes := 1;

    if grHandle.format == HalYv12 {
      out.pitches[1] := Align(DivRoundUp(grHandle.stride, 2), 16);
      out.offsets[1] := Mul32(grHandle.stride, grHandle.height);
      out.modifiers[1] := grHandle.modifier;
      out.pitches[2] := out.pitches[1];
      out.offsets[2] := Add32(out.offsets[1], DivRoundUp(Mul32(out.pitches[1], grHandle.height), 2));
      out.modifiers[2] := grHandle.modifier;
      out.numPlanes := 3;
    }

    out.yagiFlags := 0;
    return 0;
  }

  /**
   * For YV12 without wrap-around the chroma pitch is 16-aligned and close to
   * half the luma stride, and the planes lie in memory in luma, Cr, Cb order:
   * the Cr plane starts where the luma plane ends, and the Cb plane
   * `(pitch / 2) * height` bytes later. For an even height that is where
   * `height / 2` Cr rows end; for an odd height the last of the ceil(height / 2)
   * Cr rows runs half a pitch into the Cb plane.
   */
  lemma Yv12Layout(h: GrallocHandle, drm: DrmFormat, prior: BufferInfoV1)
    requires prior.WellFormed() && h.format == HalYv12 && Yv12NoWrap(h.stride, h.height)
    ensures var r := Fill(h, drm, prior);
      && r.numPlanes == 3
      && r.pitches[1] == r.pitches[2]
      && r.pitches[1] % 16 == 0
      && (h.stride + 1) / 2 <= r.pitches[1] < (h.stride + 1) / 2 + 16
      && r.offsets[0] <= r.offsets[1] <= r.offsets[2]
      && r.offsets[1] == r.offsets[0] + r.pitches[0] * h.height
      && r.offsets[2] == r.offsets[1] + (r.pitches[1] / 2) * h.height
      && (h.height % 2 == 0 ==> r.offsets[2] == r.offsets[1] + r.pitches[1] * (h.height / 2))
  {
    ChromaPitchBounds(h.stride);
    Yv12PlaneOffsets(h.stride, h.height);
  }

  /**
   * The header of the interface asks for a descriptor in every plane below
   * `num_planes`. The translator writes only plane 0's, so for YV12 that holds
   * exactly when the caller had already put the handle's descriptor into
   * planes 1 and 2.
   */
  lemma Yv12DescriptorsFromCaller(h: GrallocHandle, drm: DrmFormat, prior: BufferInfoV1)
    requires prior.WellFormed() && h.format == HalYv12
    ensures var r := Fill(h, drm, prior);
      (forall i :: 0 <= i < r.numPlanes ==> r.primeFds[i] == h.primeFd) <==>
      prior.primeFds[1] == h.primeFd && prior.primeFds[2] == h.primeFd
  {
    var r := Fill(h, drm, prior);
    assert r.primeFds[1] == prior.primeFds[1] && r.primeFds[2] == prior.primeFds[2] by {
      assert r.primeFds[1..][0] == prior.primeFds[1..][0];
      assert r.primeFds[1..][1] == prior.primeFds[1..][1];
    }
  }

  /** Querying the same buffer again into the record just filled changes nothing. */
  lemma QueryIsIdempotent(yagi: Option<YagiState>, handle: Option<GrallocHandle>,
                          out: Option<BufferInfoV1>, version: int, size: int)
    requires out.Some? ==> out.value.WellFormed()
    ensures var first := Query(yagi, handle, out, version, size);
      Query(yagi, handle, first.out, version, size) == first
  {
    var first := Query(yagi, handle, out, version, size);
    if first.status == 0 {
      var h := handle.value;
      var drm := ToDrmFormat(h.format).value;
      var r := Fill(h, drm, out.value);
      var again := Fill(h, drm, r);
      assert again.pitches == r.pitches;
      assert again.offsets == r.offsets;
      assert again.primeFds == r.primeFds;
      assert again.modifiers == r.modifiers;
    }
  }

  /**
   * What a successful query writes depends on the handle alone: two records
   * with different prior contents agree afterwards on every scalar field and
   * on every plane entry the translator writes.
   */
  lemma FillIgnoresPriorContents(h: GrallocHandle, drm: DrmFormat, p1: BufferInfoV1, p2: BufferInfoV1)
    requires p1.WellFormed() && p2.WellFormed()
    ensures var r1, r2 := Fill(h, drm, p1), Fill(h, drm, p2);
      && r1.width == r2.width && r1.height == r2.height && r1.drmFormat == r2.drmFormat
      && r1.numPlanes == r2.numPlanes && r1.yagiFlags == r2.yagiFlags
      && r1.primeFds[0] == r2.primeFds[0]
      && forall i :: 0 <= i < r1.numPlanes ==>
           r1.pitches[i] == r2.pitches[i] && r1.offsets[i] == r2.offsets[i] && r1.modifiers[i] == r2.modifiers[i]
  {
  }

  /** A token from `yagi_init`, a handle and a record pass the argument checks with version 1 and the v1 size. */
  lemma InitTokenIsAccepted(h: GrallocHandle, prior: BufferInfoV1)
    requires prior.WellFormed()
    ensures Query(Init(), Some(h), Some(prior), 1, SIZEOF_YAGI_BI_V1).status == 0 <==> !h.format.HalUnlisted?
  {
  }

  /**
   * A 640 x 480 YV12 buffer with stride 640: chroma pitch 320, Cr plane at
   * 640 * 480 = 307200 and Cb plane at 307200 + 320 * 480 / 2 = 384000.
   */
  lemma Yv12Query640x480(h: GrallocHandle, prior: BufferInfoV1)
    requires h.height == 480 && h.stride == 640 && h.format == HalYv12 && prior.WellFormed()
    ensures var r := Query(Init(), Some(h), Some(prior), 1, SIZEOF_YAGI_BI_V1);
      && r.status == 0
      && r.out.value.numPlanes == 3
      && r.out.value.drmFormat == DrmYvu420
      && r.out.value.pitches[..3] == [640, 320, 320]
      && r.out.value.offsets[..3] == [0, 307200, 384000]
  {
    Yv12PitchOf640(h.stride);
    Yv12Layout(h, DrmYvu420, prior);
    var r := Fill(h, DrmYvu420, prior);
    assert r.pitches[..3] == [r.pitches[0], r.pitches[1], r.pitches[2]];
    assert r.offsets[..3] == [r.offsets[0], r.offsets[1], r.offsets[2]];
  }

  lemma Yv12PitchOf640(stride: u32)
    requires stride == 640
    ensures ChromaPitch(stride) == 320 && Yv12NoWrap(stride, 480)
  {
    ChromaPitchBounds(stride);
    AlignedInWindow(ChromaPitch(stride), 320);
  }

  /** The one multiple of 16 in a window of 16 that starts at a multiple of 16. */
  lemma AlignedInWindow(x: int, lo: int)
    requires x % 16 == 0 && lo % 16 == 0 && lo <= x < lo + 16
    ensures x == lo
  {
    assert x == 16 * (x / 16) && lo == 16 * (lo / 16);
  }

  /**
   * For an odd height the Cb plane starts before ceil(height / 2) rows of the
   * Cr plane end: at stride 640 and height 481 the Cr plane's 241 rows of 320
   * bytes reach 160 bytes into the Cb plane.
   */
  lemma Yv12OddHeightOverlap(h: GrallocHandle, drm: DrmFormat, prior: BufferInfoV1)
    requires prior.WellFormed() && h.format == HalYv12 && h.stride == 640 && h.height == 481
    ensures var r := Fill(h, drm, prior);
      r.offsets[2] + 160 == r.offsets[1] + r.pitches[1] * ((h.height + 1) / 2)
  {
    ChromaPitchBounds(h.stride);
    AlignedInWindow(ChromaPitch(h.stride), 320);
    Yv12PlaneOffsets(h.stride, h.height);
  }
}
