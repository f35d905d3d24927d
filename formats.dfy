/**
 * The format table of the translator: the Android HAL pixel formats a
 * gbm_gralloc buffer can carry and the DRM four-character format codes the
 * host receives for them. Both sides are kept symbolic; their numeric values
 * belong to Android's graphics headers and to the DRM fourcc registry.
 */
module Formats {
  import opened Wrappers

  /** `HAL_PIXEL_FORMAT_*`; `HalUnlisted` stands for every code that is none of the eight. */
  datatype HalFormat =
    | HalRgba8888
    | HalRgbx8888
    | HalRgb888
    | HalRgb565
    | HalBgra8888
    | HalYv12
    | HalRgbaFp16
    | HalRgba1010102
    | HalUnlisted

  /** `DRM_FORMAT_*` codes the translator can produce. */
  datatype DrmFormat =
    | DrmAbgr8888
    | DrmXbgr8888
    | DrmRgb888
    | DrmRgb565
    | DrmArgb8888
    | DrmYvu420
    | DrmAbgr16161616F
    | DrmAbgr2101010

  /**
   * `get_drm_format_and_bpp`: the DRM code of a HAL format, or `None` (the
   * C function's `-EINVAL`, with `*out_fourcc` not written) for a format
   * outside the table. Despite its name it computes no bytes-per-pixel.
   */
  function ToDrmFormat(f: HalFormat): (r: Option<DrmFormat>)
    ensures r.None? <==> f.HalUnlisted?
    ensures r.Some? ==> HalFormatOf(r.value) == f
  {
    match f
    case HalRgba8888 => Some(DrmAbgr8888)
    case HalRgbx8888 => Some(DrmXbgr8888)
    case HalRgb888 => Some(DrmRgb888)
    case HalRgb565 => Some(DrmRgb565)
    case HalBgra8888 => Some(DrmArgb8888)
    case HalYv12 => Some(DrmYvu420)
    case HalRgbaFp16 => Some(DrmAbgr16161616F)
    case HalRgba1010102 => Some(DrmAbgr2101010)
    case HalUnlisted => None
  }

  /** The table read backwards: the one HAL format that maps to a DRM code. */
  function HalFormatOf(d: DrmFormat): (f: HalFormat)
    ensures !f.HalUnlisted?
  {
    match d
    case DrmAbgr8888 => HalRgba8888
    case DrmXbgr8888 => HalRgbx8888
    case DrmRgb888 => HalRgb888
    case DrmRgb565 => HalRgb565
    case DrmArgb8888 => HalBgra8888
    case DrmYvu420 => HalYv12
    case DrmAbgr16161616F => HalRgbaFp16
    case DrmAbgr2101010 => HalRgba1010102
  }

  /** The table is a bijection between the eight HAL formats and the eight DRM codes. */
  lemma FormatTableIsBijective(f: HalFormat, d: DrmFormat)
    ensures ToDrmFormat(HalFormatOf(d)) == Some(d)
    ensures ToDrmFormat(f) == Some(d) <==> f == HalFormatOf(d)
  {
  }

  /** YV12 is the only HAL format that yields the planar YUV 4:2:0 code YVU420. */
  lemma OnlyYv12IsPlanar(f: HalFormat)
    ensures ToDrmFormat(f) == Some(DrmYvu420) <==> f == HalYv12
  {
    FormatTableIsBijective(f, DrmYvu420);
  }
}
