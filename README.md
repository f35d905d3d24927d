# YAGI buffer-info translator of gbm_gralloc, in Dafny

gbm_gralloc ships a small plugin for the drm_hwcomposer display compositor,
YAGI ("Yet Another Gralloc Interface"). The compositor hands it a gralloc
buffer handle and a caller-owned `struct yagi_bi_v1`; the plugin checks the
call, maps the handle's Android HAL pixel format to a DRM fourcc format code,
and writes width, height, format and up to three plane entries (pitch,
offset, modifier, with the DMA-BUF descriptor in plane 0 only) into the record. For the planar YUV 4:2:0 format
YV12 it derives the two chroma planes arithmetically.

The project models `yagi/gralloc_gbm_yagi.c` with the record shape of
`yagi/android_yagi.h`:

- `cint.dfy` (module `CInt`): `uint32_t`, `uint64_t` and `int`, and the C
  operators the translator applies to them. `uint32_t` sums and products are
  reduced modulo 2^32 where C reduces them; `&` is defined on binary digits,
  with the lemma that AND with a high mask rounds down to a multiple of a
  power of two, and `~m` as 2^32 - 1 - m, which equals bitwise NOT on 32 bits.
- `layout.dfy` (module `Layout`): the `ALIGN` and `DIV_ROUND_UP` macros,
  exactly as C evaluates them on `uint32_t` (wrap-around included), the YV12
  chroma pitch and plane offsets, and what they mean when nothing wraps.
- `formats.dfy` (module `Formats`): the `get_drm_format_and_bpp` case table as
  a function returning `Option`, and its inverse.
- `yagi.dfy` (module `Yagi`): the handle, the record as a value
  (`BufferInfoV1`) and as a class whose four arrays are written in place
  (`BufferInfo`), `yagi_init`, and `yagi_bi_get` twice: `Query` on values and
  `BiGet`, a method that writes the record field by field as the C code does
  and is proved to leave it exactly as `Query` says.
- `wrappers.dfy` (module `Wrappers`): `Option`, used for pointers that may be
  null.

Null pointers are `None` (token, handle) or a `null` `BufferInfo?` (the
output record). The error return is `-EINVAL` with `EINVAL` = 22, the Linux
value.

Where the code and the header comment of `struct yagi_bi_v1`
(yagi/android_yagi.h:55) differ, the model follows the code: that comment asks
for the descriptor to be repeated in every plane, but the translator writes `prime_fds[0]` only. For YV12, `prime_fds[1]` and
`prime_fds[2]` keep whatever the caller had put there; `Yagi.Fill` and
`Yagi.Yv12DescriptorsFromCaller` state this.

## Model

| member | source | states |
|---|---|---|
| `CInt.Add32` | yagi/gralloc_gbm_yagi.c:104-105 | the `uint32_t` sum of the Cb offset: the exact sum below 2^32, the sum minus 2^32 above |
| `CInt.Mul32` | yagi/gralloc_gbm_yagi.c:101-105 | the `uint32_t` products `stride * height` and `pitches[1] * height`: exact when the product is below 2^32 |
| `CInt.BitNot32` | yagi/gralloc_gbm_yagi.c:31 | `~m` on 32 bits, which C defines on an unsigned operand as `UINT32_MAX - m`: `m` and its complement add up to 2^32 - 1 and have no set bit in common (`BitAnd(m, r) == 0`, by `CInt.ComplementsShareNoBit`), so every one of the 32 bits is set in exactly one of them |
| `CInt.ComplementsShareNoBit` | yagi/gralloc_gbm_yagi.c:31 | any two naturals adding up to 2^n - 1 have a bitwise AND of zero, the bit-level meaning of `~` used in `ALIGN` |
| `CInt.BitAnd` | yagi/gralloc_gbm_yagi.c:31 | `&`, defined bit by bit; the result never exceeds the left operand (AND only clears bits); with a high mask it rounds down to a multiple of a power of two (`CInt.AndHighMask`) |
| `Layout.Align` | yagi/gralloc_gbm_yagi.c:31 | no contract of its own: the C expression `((A) + (B)-1) & ~((B)-1)` evaluated modulo 2^32; its meaning is `Layout.AlignRoundsUp` |
| `Layout.DivRoundUp` | yagi/gralloc_gbm_yagi.c:32 | no contract of its own: the C expression `((n) + (d)-1) / (d)` evaluated modulo 2^32; its meaning is `Layout.DivRoundUpIsCeiling` |
| `Layout.ChromaPitch` | yagi/gralloc_gbm_yagi.c:100 | no contract of its own: `ALIGN(DIV_ROUND_UP(stride, 2), 16)`; its meaning is `Layout.ChromaPitchBounds` and `Layout.ChromaPitchOfLargestStride` |
| `Layout.CrOffset` | yagi/gralloc_gbm_yagi.c:101 | no contract of its own: `stride * height` on `uint32_t`; its meaning is `Layout.Yv12PlaneOffsets` |
| `Layout.CbOffset` | yagi/gralloc_gbm_yagi.c:104-105 | no contract of its own: the Cr offset plus `DIV_ROUND_UP(pitch * height, 2)` on `uint32_t`; its meaning is `Layout.Yv12PlaneOffsets` and `Layout.CbOffsetWrapsForLargeBuffers` |
| `Yagi.BufferInfo.Contents` | yagi/android_yagi.h:49-60 | the class `BufferInfo` is `struct yagi_bi_v1` with its four arrays written in place; `Contents` reads it as a record whose four plane arrays each hold `YAGI_MAX_PLANES_V1` = 4 entries |
| `Formats.ToDrmFormat` | yagi/gralloc_gbm_yagi.c:34-68 | the DRM code of each of the eight HAL formats; `None` (`-EINVAL`, nothing written) exactly for a format outside the table; the result read back through the inverse table gives the input format |
| `Formats.FormatTableIsBijective` | yagi/gralloc_gbm_yagi.c:36-60 | the eight cases are a one-to-one correspondence: every DRM code comes from exactly one HAL format |
| `Formats.OnlyYv12IsPlanar` | yagi/gralloc_gbm_yagi.c:52-53 | YVU420 is produced for YV12 and for no other format |
| `Layout.AlignRoundsUp` | yagi/gralloc_gbm_yagi.c:31 | without wrap-around, `ALIGN(a, b)` for a power of two `b` is a multiple of `b` in `[a, a + b)`, i.e. `a` rounded up to a multiple of `b` |
| `Layout.DivRoundUpIsCeiling` | yagi/gralloc_gbm_yagi.c:32 | without wrap-around, `DIV_ROUND_UP(n, d) * d` lies in `[n, n + d)`, i.e. the quotient is the ceiling of `n / d` |
| `Layout.ChromaPitchBounds` | yagi/gralloc_gbm_yagi.c:100 | for a stride below 2^32 - 1, the YV12 chroma pitch is a multiple of 16, at least ceil(stride / 2) and less than ceil(stride / 2) + 16 |
| `Layout.ChromaPitchOfLargestStride` | yagi/gralloc_gbm_yagi.c:100 | at stride 2^32 - 1 the sum inside `DIV_ROUND_UP` wraps and the chroma pitch is 0, so the bound above needs its hypothesis |
| `Layout.Yv12PlaneOffsets` | yagi/gralloc_gbm_yagi.c:101-105 | when no `uint32_t` operation wraps: Cr offset = stride * height, Cb offset = Cr offset + (chroma pitch / 2) * height exactly, the offsets are ordered, and for an even height the Cb plane begins where `height / 2` Cr rows end |
| `Layout.CbOffsetWrapsForLargeBuffers` | yagi/gralloc_gbm_yagi.c:101-105 | stride 65536 and height 65535 make the Cb offset wrap to below the Cr offset, so the ordering needs the no-wrap hypothesis |
| `Yagi.Init` | yagi/gralloc_gbm_yagi.c:115-118 | `yagi_init` always returns a non-null token |
| `Yagi.Fill` | yagi/gralloc_gbm_yagi.c:90-110 | after a successful query: width, height and the mapped format copied, flags 0; plane 0 is (stride, 0, prime_fd, modifier); 3 planes for YV12 (both chroma pitches `ALIGN(DIV_ROUND_UP(stride, 2), 16)`, Cr and Cb offsets, the modifier in both), 1 otherwise; every plane entry at or above `num_planes` (so plane 3 always) and `prime_fds[1..3]` keep the caller's values |
| `Yagi.Query` | yagi/gralloc_gbm_yagi.c:70-113 | the status is 0 or `-EINVAL`; it is 0 exactly when token, handle and record are non-null, version is 1, size is the v1 record's and the format is in the table; on `-EINVAL` the record is untouched; on 0 it holds `Fill` of the handle |
| `Yagi.BiGet` | yagi/gralloc_gbm_yagi.c:70-113 | the in-place method returns `Query`'s status and leaves the record (fields and all four arrays) holding `Query`'s contents; on failure nothing in the record changed |
| `Yagi.Yv12Layout` | yagi/gralloc_gbm_yagi.c:99-108 | for YV12 without wrap-around: 3 planes, equal 16-aligned chroma pitches within 16 of ceil(stride / 2), offsets in luma, Cr, Cb order, the Cr plane starting where `height` luma rows end and the Cb plane `(chroma pitch / 2) * height` bytes later, which for an even height is where `height / 2` Cr rows end |
| `Yagi.Yv12OddHeightOverlap` | yagi/gralloc_gbm_yagi.c:104-105 | the Cb offset advances by half of `pitch * height`, so for an odd height (640 x 481) the ceil(height / 2) rows of the Cr plane reach 160 bytes into the Cb plane |
| `Yagi.Yv12DescriptorsFromCaller` | yagi/gralloc_gbm_yagi.c:95-107 | for YV12, every plane below `num_planes` carries the handle's descriptor exactly when the caller had already put it into planes 1 and 2 |
| `Yagi.QueryIsIdempotent` | yagi/gralloc_gbm_yagi.c:78-112 | repeating a query with the same arguments on the record it produced gives the same status and record |
| `Yagi.FillIgnoresPriorContents` | yagi/gralloc_gbm_yagi.c:90-110 | what a successful query writes depends only on the handle: records that differed before agree afterwards on every scalar field and every written plane entry |
| `Yagi.InitTokenIsAccepted` | yagi/gralloc_gbm_yagi.c:78-88 | with the token of `yagi_init`, a handle, a record, version 1 and the v1 size, the query succeeds exactly for the eight supported formats |
| `Yagi.Yv12Query640x480` | yagi/gralloc_gbm_yagi.c:99-107 | any YV12 handle of height 480 and stride 640 gets pitches 640, 320, 320 and offsets 0, 307200, 384000 in 3 planes, with the format YVU420 |

## Left out

- Logging: the two `ALOGE` messages have no effect on results.
- The `gralloc_handle()` cast and the layout of `struct gralloc_handle_t`: that header belongs to libdrm and is not part of this model. The handle is a record of the six fields read; their C types are taken to be `uint32_t` for width, height, stride, `int` for the descriptor and `uint64_t` for the modifier.
- The numeric values of the `HAL_PIXEL_FORMAT_*` and `DRM_FORMAT_*` codes: they come from Android's graphics headers and `drm_fourcc.h`. Both are symbolic datatypes; `HalUnlisted` stands for every other HAL code, and the record's `drm_format` field holds a symbolic code rather than a 32-bit word, so a caller's pre-filled value is one of the eight codes.
- The conversion of the handle's unsigned `format` to the table's `int` parameter: with symbolic codes there is nothing to convert.
- `sizeof(struct yagi_bi_v1)` depends on how the ABI aligns `uint64_t`; the model fixes it at 104, its value where `uint64_t` is 8-byte aligned, and no proof depends on the number.
- Pointer identity: the token `~0` and the handle and record addresses are not modelled, only whether they are null.
- `yagi_destroy`: a no-op with nothing to state.
- `yagi_get_data` and the data and flag constants: optional in version 1 and not implemented.
- Symbol visibility and the function-pointer typedefs, including the `out_yagi_api_version` parameter of `yagi_init_t`, which the implementation does not take.
- `gralloc_drm_handle.h`: wrappers over the handle accessor outside the YAGI path.
- Concurrency: the query keeps no state of its own, so calls from several threads are independent.
