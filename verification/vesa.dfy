/** ShimVesaInformation: the VESA BIOS Extension information the loader places at the
    start of the emulated VGA ROM, so that a legacy Int10h caller (the Windows 7 installer)
    sees one 1024x768 direct-colour mode backed by the UEFI framebuffer. Layout and field
    meanings follow the VESA BIOS EXTENSION (VBE) Core Functions Standard 3.0 (VbeInfoBlock
    and ModeInfoBlock). The display is an input: None stands for EnsureDisplayAvailable
    failing. The tables are returned as records, the OEM string area as bytes. */
module Vesa {
  import opened Common
  import opened EfiStatus

  // ---------------------------------------------------------------------------
  // The display as the graphics output protocol describes it

  /** EFI_GRAPHICS_PIXEL_FORMAT (section 12.9 of the UEFI Specification). */
  datatype PixelFormat =
    | PixelRedGreenBlueReserved8BitPerColor
    | PixelBlueGreenRedReserved8BitPerColor
    | PixelBitMask
    | PixelBltOnly

  /** DISPLAY_INFO: the current graphics mode and its framebuffer. */
  datatype DisplayInfo = DisplayInfo(
    horizontalResolution: U32,
    verticalResolution: U32,
    pixelFormat: PixelFormat,
    pixelsPerScanLine: U32,
    frameBufferBase: U64,
    frameBufferSize: U64)

  // ---------------------------------------------------------------------------
  // Real-mode far pointers

  function Pow2(n: nat): (r: nat)
    ensures r >= 1
  {
    if n == 0 then 1 else 2 * Pow2(n - 1)
  }

  lemma {:induction false} Pow2Add(m: nat, n: nat)
    ensures Pow2(m + n) == Pow2(m) * Pow2(n)
  {
    if m > 0 {
      Pow2Add(m - 1, n);
    }
  }

  lemma Pow2Widths()
    ensures Pow2(16) == TWO_16 && Pow2(32) == TWO_32
  {
    assert Pow2(4) == 16;
    Pow2Add(4, 4);
    Pow2Add(8, 8);
    Pow2Add(16, 16);
  }

  /** C's | on the low width bits of two unsigned numbers. */
  function BitOr(a: nat, b: nat, width: nat): (r: nat)
    ensures r < Pow2(width)
  {
    if width == 0 then 0
    else (if a % 2 == 1 || b % 2 == 1 then 1 else 0) + 2 * BitOr(a / 2, b / 2, width - 1)
  }

  /** OR with zero keeps a number that fits the width. */
  lemma {:induction false} BitOrZero(a: nat, width: nat)
    requires a < Pow2(width)
    ensures BitOr(a, 0, width) == a
  {
    if width > 0 {
      BitOrZero(a / 2, width - 1);
    }
  }

  /** OR of a multiple of 2^k and a number below 2^k is their sum: the bits do not overlap. */
  lemma {:induction false} BitOrDisjoint(q: nat, b: nat, width: nat, k: nat)
    requires k <= width && Pow2(k) * q < Pow2(width) && b < Pow2(k)
    ensures BitOr(Pow2(k) * q, b, width) == Pow2(k) * q + b
  {
    var a := Pow2(k) * q;
    if k == 0 {
      BitOrZero(a, width);
    } else {
      var p := Pow2(k - 1);
      assert a == 2 * (p * q);
      assert a % 2 == 0 && a / 2 == p * q;
      assert p * q < Pow2(width - 1);
      BitOrDisjoint(q, b / 2, width - 1, k - 1);
    }
  }

  /** (UINT32)StartAddress << 12 | (UINT16)(UINTN)BufferPtr: the far pointer the shim stores
      for a string at ptr, in UINT32 arithmetic. */
  function FarPointer(start: U64, ptr: U64): (r: U32)
  {
    Pow2Widths();
    BitOr(((start % TWO_32) * 4096) % TWO_32, ptr % TWO_16, 32)
  }

  /** The physical address a real-mode segment:offset far pointer designates: the segment
      is the high word, the offset the low word. */
  function RealModeAddress(p: U32): (r: nat)
    ensures r < 0x11_0000
  {
    (p / TWO_16) * 16 + p % TWO_16
  }

  /** For a start on a 64 KiB boundary below 1 MiB the far pointer is segment start / 16,
      offset ptr - start, and so designates the very byte it was made for, anywhere in the
      64 KiB from the start. */
  lemma FarPointerResolves(start: U64, ptr: U64)
    requires start % TWO_16 == 0 && start < 0x10_0000
    requires start <= ptr < start + TWO_16
    ensures FarPointer(start, ptr) == (start / 16) * TWO_16 + (ptr - start)
    ensures RealModeAddress(FarPointer(start, ptr)) == ptr
  {
    Pow2Widths();
    var q := start / 16;
    var b := ptr - start;
    FarPointerOperands(start, ptr);
    BitOrDisjoint(q, b, 32, 16);
    var fp := FarPointer(start, ptr);
    assert fp == TWO_16 * q + b;
    SplitWord(q, b);
    assert RealModeAddress(fp) == q * 16 + b;
  }

  /** A high word and a low word are read back by / and % 2^16. */
  lemma SplitWord(hi: nat, lo: nat)
    requires lo < TWO_16
    ensures (TWO_16 * hi + lo) / TWO_16 == hi && (TWO_16 * hi + lo) % TWO_16 == lo
  {
  }

  /** The two operands of the OR for such a start: the shifted start is segment start / 16
      moved to the high word, and the truncated pointer is the offset ptr - start. */
  lemma FarPointerOperands(start: U64, ptr: U64)
    requires start % TWO_16 == 0 && start < 0x10_0000
    requires start <= ptr < start + TWO_16
    ensures ((start % TWO_32) * 4096) % TWO_32 == TWO_16 * (start / 16)
    ensures ptr % TWO_16 == ptr - start
    ensures TWO_16 * (start / 16) < TWO_32
    ensures (start / 16) * 16 == start
  {
    var seg := start / TWO_16;
    assert start == TWO_16 * seg && seg < 16;
    assert start / 16 == 4096 * seg;
    assert ptr == TWO_16 * seg + (ptr - start);
  }

  // ---------------------------------------------------------------------------
  // The VbeInfoBlock and the OEM string area after it

  /** sizeof (VBE_INFO_BASE): the packed VbeInfoBlock fields before the string area. */
  const VBE_INFO_BASE_SIZE: nat := 34
  /** sizeof (VBE_INFO) and sizeof (VBE_MODE_INFO). */
  const VBE_INFO_SIZE: nat := 256
  const VBE_MODE_INFO_SIZE: nat := 256

  const VENDOR_NAME: string := "EfiGuard"
  const PRODUCT_NAME: string := "Emulated VGA"
  const PRODUCT_REVISION: string := "OVMF Int10h (fake)"

  /** The bytes of a CHAR8 array initialised by a literal: the characters and the NUL. */
  function CString(s: string): (r: seq<Byte>)
    ensures |r| == |s| + 1 && r[|s|] == 0
  {
    seq(|s|, i requires 0 <= i < |s| => (s[i] as int) % TWO_8) + [0]
  }

  /** The single mode the shim offers and the end-of-list marker. */
  const MODE_NUMBER: U16 := 0x00F1
  const MODE_LIST_END: U16 := 0xFFFF
  const MODE_LIST: seq<Byte> := Le(MODE_NUMBER, 2) + Le(MODE_LIST_END, 2)

  /** The VbeInfoBlock fields the shim writes; buffer is what it writes to the OEM area. */
  datatype VbeInfo = VbeInfo(
    signature: seq<Byte>,
    vesaVersion: U16,
    oemNameAddress: U32,
    capabilities: U32,
    modeListAddress: U32,
    videoMem64K: U16,
    oemSoftwareVersion: U16,
    vendorNameAddress: U32,
    productNameAddress: U32,
    productRevAddress: U32,
    buffer: seq<Byte>)

  /** (UINT16)((FrameBufferSize + 65535) / 65536) with the UINTN addition wrapping. */
  function VideoMem64K(frameBufferSize: U64): (r: U16)
    ensures frameBufferSize <= 0xFFFF * TWO_16 ==>
              && r * TWO_16 >= frameBufferSize
              && (r == 0 || (r - 1) * TWO_16 < frameBufferSize)
  {
    ((frameBufferSize + 65535) % TWO_64 / 65536) % TWO_16
  }

  /** far points into the string area of a VbeInfoBlock at start, at bytes equal to expected. */
  predicate PointsAt(start: nat, info: VbeInfo, far: U32, expected: seq<Byte>) {
    var a := RealModeAddress(far);
    && start + VBE_INFO_BASE_SIZE <= a
    && a - start - VBE_INFO_BASE_SIZE + |expected| <= |info.buffer|
    && info.buffer[a - start - VBE_INFO_BASE_SIZE..a - start - VBE_INFO_BASE_SIZE + |expected|] == expected
  }

  // ---------------------------------------------------------------------------
  // The ModeInfoBlock

  /** Bit offsets (or sizes) of the four 8-bit channels of a 32-bit pixel. */
  datatype Channels = Channels(red: Byte, green: Byte, blue: Byte, reserved: Byte)

  /** The byte of a pixel that holds each channel in a pixel format, as section 12.9 of
      the UEFI Specification defines the two 8-bit-per-colour formats; None for the
      formats without such a fixed layout. */
  function ChannelBytes(f: PixelFormat): (r: Option<Channels>)
  {
    match f
    case PixelRedGreenBlueReserved8BitPerColor => Some(Channels(0, 1, 2, 3))
    case PixelBlueGreenRedReserved8BitPerColor => Some(Channels(2, 1, 0, 3))
    case _ => None
  }

  /** The *MaskPosLinear fields the shim writes for a pixel format; None is EFI_UNSUPPORTED. */
  function MaskPositions(f: PixelFormat): (r: Option<Channels>)
    ensures r.Some? <==> ChannelBytes(f).Some?
    ensures r.Some? ==> var b := ChannelBytes(f).value;
            && r.value.red == 8 * b.red && r.value.green == 8 * b.green
            && r.value.blue == 8 * b.blue && r.value.reserved == 8 * b.reserved
  {
    if f == PixelBlueGreenRedReserved8BitPerColor then Some(Channels(16, 8, 0, 24))
    else if f == PixelRedGreenBlueReserved8BitPerColor then Some(Channels(0, 8, 16, 24))
    else None
  }

  /** Every channel is 8 bits wide. */
  const MASK_SIZES: Channels := Channels(8, 8, 8, 8)

  /** The four channels occupy four different bytes of the 32-bit pixel. */
  lemma MaskPositionsPartitionPixel(f: PixelFormat)
    requires MaskPositions(f).Some?
    ensures var p := MaskPositions(f).value;
            && multiset{p.red, p.green, p.blue, p.reserved} == multiset{0, 8, 16, 24}
            && p.red + MASK_SIZES.red <= 32 && p.green + MASK_SIZES.green <= 32
            && p.blue + MASK_SIZES.blue <= 32 && p.reserved + MASK_SIZES.reserved <= 32
  {
  }

  /** The mode reported: 1024x768 as the Windows installer expects. */
  const MODE_WIDTH: nat := 1024
  const MODE_HEIGHT: nat := 768
  const BYTES_PER_PIXEL: nat := 4

  /** ModeAttr BIT7|BIT6|BIT5|BIT4|BIT3|BIT1|BIT0: supported, VBE 1.2 extended information,
      colour, graphics, not VGA compatible, no windowed access, linear framebuffer. */
  const MODE_ATTR: U16 := 0x80 + 0x40 + 0x20 + 0x10 + 0x08 + 0x02 + 0x01

  /** The ModeInfoBlock fields the shim writes. */
  datatype VbeModeInfo = VbeModeInfo(
    modeAttr: U16,
    width: U16,
    height: U16,
    charCellWidth: Byte,
    charCellHeight: Byte,
    numBanks: Byte,
    bankSizeKB: Byte,
    lfbAddress: U32,
    bytesPerScanLineLinear: U16,
    numImagePagesLessOne: Byte,
    numImagesLessOneLinear: Byte,
    windowPositioningAddress: U32,
    windowAAttr: Byte,
    windowBAttr: Byte,
    windowGranularityKB: U16,
    windowSizeKB: U16,
    windowAStartSegment: U16,
    windowBStartSegment: U16,
    numPlanes: Byte,
    memoryModel: Byte,
    directColorModeInfo: Byte,
    bitsPerPixel: Byte,
    maskSizes: Channels,
    maskPositions: Channels,
    offScreenAddress: U32,
    offScreenSizeKB: U16,
    maxPixelClockHz: U32,
    vbe3: Byte)

  /** HorizontalOffsetPx: (HorizontalResolution - 1024) / 2 in UINT32 arithmetic. */
  function HorizontalOffsetPx(d: DisplayInfo): (r: U32) {
    ((d.horizontalResolution - MODE_WIDTH) % TWO_32) / 2
  }

  /** VerticalOffsetPx: (VerticalResolution - 768) / 2 * PixelsPerScanLine in UINT32 arithmetic. */
  function VerticalOffsetPx(d: DisplayInfo): (r: U32) {
    (((d.verticalResolution - MODE_HEIGHT) % TWO_32) / 2 * d.pixelsPerScanLine) % TWO_32
  }

  /** LfbAddress: (UINT32)(FrameBufferBase + VerticalOffsetPx * 4 + HorizontalOffsetPx * 4),
      the products in UINT32, the sums in UINT64. */
  function LfbAddress(d: DisplayInfo): (r: U32) {
    var v := (VerticalOffsetPx(d) * BYTES_PER_PIXEL) % TWO_32;
    var h := (HorizontalOffsetPx(d) * BYTES_PER_PIXEL) % TWO_32;
    (((d.frameBufferBase + v) % TWO_64 + h) % TWO_64) % TWO_32
  }

  /** The address of pixel (x, y) of the display's framebuffer. */
  function PixelAddress(d: DisplayInfo, x: nat, y: nat): (r: nat) {
    d.frameBufferBase + BYTES_PER_PIXEL * (y * d.pixelsPerScanLine + x)
  }

  /** Adding a multiple of 2^32 leaves the remainder modulo 2^32 unchanged. */
  lemma ModShift(x: int, k: int)
    ensures (x + k * TWO_32) % TWO_32 == x % TWO_32
  {
  }

  lemma ModTwo64Two32(a: int)
    ensures (a % TWO_64) % TWO_32 == a % TWO_32
  {
    var q := a / TWO_64;
    assert a == a % TWO_64 + (q * TWO_32) * TWO_32;
    ModShift(a % TWO_64, q * TWO_32);
  }

  lemma ModAddRight(a: int, b: int)
    ensures (a + b % TWO_32) % TWO_32 == (a + b) % TWO_32
  {
    var q := b / TWO_32;
    assert a + b == (a + b % TWO_32) + q * TWO_32;
    ModShift(a + b % TWO_32, q);
  }

  lemma ModTimesFour(a: int)
    ensures ((a % TWO_32) * 4) % TWO_32 == (a * 4) % TWO_32
  {
    var q := a / TWO_32;
    assert a * 4 == (a % TWO_32) * 4 + (4 * q) * TWO_32;
    ModShift((a % TWO_32) * 4, 4 * q);
  }

  /** On a display at least 1024x768 the linear framebuffer the mode reports starts at the
      pixel that centres a 1024x768 window on the screen (truncated to the 32 bits the
      field holds), and that window lies within the visible area. */
  lemma LfbIsCentredWindow(d: DisplayInfo)
    requires d.horizontalResolution >= MODE_WIDTH && d.verticalResolution >= MODE_HEIGHT
    ensures var x := (d.horizontalResolution - MODE_WIDTH) / 2;
            var y := (d.verticalResolution - MODE_HEIGHT) / 2;
            && LfbAddress(d) == PixelAddress(d, x, y) % TWO_32
            && x + MODE_WIDTH <= d.horizontalResolution
            && y + MODE_HEIGHT <= d.verticalResolution
  {
    var x := (d.horizontalResolution - MODE_WIDTH) / 2;
    var y := (d.verticalResolution - MODE_HEIGHT) / 2;
    var vy := y * d.pixelsPerScanLine;
    WindowOffsets(d, x, y, vy);
    var base := d.frameBufferBase;
    var v := (VerticalOffsetPx(d) * BYTES_PER_PIXEL) % TWO_32;
    var h := (HorizontalOffsetPx(d) * BYTES_PER_PIXEL) % TWO_32;
    ModTimesFour(vy);
    assert LfbAddress(d) == (((base + v) % TWO_64 + h) % TWO_64) % TWO_32;
    LfbSum(base, v, h, vy * BYTES_PER_PIXEL, x * BYTES_PER_PIXEL);
  }

  /** The two UINT32 offsets of a display at least 1024x768 are the window origin's column
      and its row times the stride (the latter truncated to 32 bits), and the origin's
      pixel address is the base plus both in bytes. */
  lemma WindowOffsets(d: DisplayInfo, x: nat, y: nat, vy: nat)
    requires d.horizontalResolution >= MODE_WIDTH && d.verticalResolution >= MODE_HEIGHT
    requires x == (d.horizontalResolution - MODE_WIDTH) / 2
    requires y == (d.verticalResolution - MODE_HEIGHT) / 2
    requires vy == y * d.pixelsPerScanLine
    ensures HorizontalOffsetPx(d) == x
    ensures VerticalOffsetPx(d) == vy % TWO_32
    ensures PixelAddress(d, x, y) == d.frameBufferBase + vy * BYTES_PER_PIXEL + x * BYTES_PER_PIXEL
  {
    assert (d.verticalResolution - MODE_HEIGHT) % TWO_32 == d.verticalResolution - MODE_HEIGHT;
  }

  /** The UINT64 sums truncated to 32 bits equal the exact sum truncated to 32 bits, whatever
      the offsets were truncated to 32 bits before. */
  lemma LfbSum(base: int, v: int, h: int, vFull: int, hFull: int)
    requires v == vFull % TWO_32 && h == hFull % TWO_32
    ensures (((base + v) % TWO_64 + h) % TWO_64) % TWO_32 == (base + vFull + hFull) % TWO_32
  {
    var s1 := (base + v) % TWO_64;
    ModTwo64Two32(s1 + h);
    assert (s1 + h) % TWO_32 == (s1 + hFull) % TWO_32 by { ModAddRight(s1, hFull); }
    assert (s1 + hFull) % TWO_32 == (hFull + s1) % TWO_32;
    ModAddRight(hFull, s1);
    ModAddRight(hFull, base + v);
    ModTwo64Two32(base + v);
    assert (hFull + s1) % TWO_32 == (hFull + base + v) % TWO_32;
    ModAddRight(hFull + base, vFull);
  }

  /** BytesPerScanLineLinear: (UINT16)PixelsPerScanLine * 4 stored in a UINT16. The stride
      in bytes of the framebuffer whenever that fits the field. */
  function BytesPerScanLineLinear(pixelsPerScanLine: U32): (r: U16)
    ensures BYTES_PER_PIXEL * pixelsPerScanLine < TWO_16 ==> r == BYTES_PER_PIXEL * pixelsPerScanLine
    ensures r == (BYTES_PER_PIXEL * pixelsPerScanLine) % TWO_16
  {
    ((pixelsPerScanLine % TWO_16) * BYTES_PER_PIXEL) % TWO_16
  }

  // ---------------------------------------------------------------------------
  // ShimVesaInformation

  /** start + size in UINTN (pointer) arithmetic: the address just past size bytes at start. */
  function AddressAfter(start: U64, size: nat): (r: U64)
    ensures start + size < TWO_64 ==> r == start + size
  {
    (start + size) % TWO_64
  }

  /** What a successful call leaves behind: the two blocks and *EndAddress. */
  datatype VesaTables = VesaTables(info: VbeInfo, modeInfo: VbeModeInfo, endAddress: U64)

  datatype ShimOutcome = ShimOutcome(status: Status, tables: Option<VesaTables>)

  /** The OEM string area as the shim fills it: the vendor name, the mode list, the vendor
      name again, the product name and the product revision, each string with its NUL. */
  const OEM_STRINGS: seq<Byte> :=
    CString(VENDOR_NAME) + MODE_LIST + CString(VENDOR_NAME) + CString(PRODUCT_NAME) + CString(PRODUCT_REVISION)

  /** Where BufferPtr stands, relative to the string area, when each far pointer is taken. */
  const OEM_NAME_OFFSET: nat := 0
  const MODE_LIST_OFFSET: nat := OEM_NAME_OFFSET + |CString(VENDOR_NAME)|
  const VENDOR_NAME_OFFSET: nat := MODE_LIST_OFFSET + |MODE_LIST|
  const PRODUCT_NAME_OFFSET: nat := VENDOR_NAME_OFFSET + |CString(VENDOR_NAME)|
  const PRODUCT_REV_OFFSET: nat := PRODUCT_NAME_OFFSET + |CString(PRODUCT_NAME)|

  /** Each item lies in the string area at the offset BufferPtr had when its pointer was
      taken, and the whole area fits the 256-byte VbeInfoBlock after its fixed fields. */
  lemma OemStringsLayout()
    ensures |OEM_STRINGS| == PRODUCT_REV_OFFSET + |CString(PRODUCT_REVISION)| == 54
    ensures VBE_INFO_BASE_SIZE + |OEM_STRINGS| <= VBE_INFO_SIZE
    ensures OEM_STRINGS[OEM_NAME_OFFSET..MODE_LIST_OFFSET] == CString(VENDOR_NAME)
    ensures OEM_STRINGS[MODE_LIST_OFFSET..VENDOR_NAME_OFFSET] == MODE_LIST
    ensures OEM_STRINGS[VENDOR_NAME_OFFSET..PRODUCT_NAME_OFFSET] == CString(VENDOR_NAME)
    ensures OEM_STRINGS[PRODUCT_NAME_OFFSET..PRODUCT_REV_OFFSET] == CString(PRODUCT_NAME)
    ensures OEM_STRINGS[PRODUCT_REV_OFFSET..] == CString(PRODUCT_REVISION)
  {
    var v := CString(VENDOR_NAME);
    var m := MODE_LIST;
    var p := CString(PRODUCT_NAME);
    var rev := CString(PRODUCT_REVISION);
    assert OEM_STRINGS == v + m + v + p + rev;
    assert (v + m + v + p + rev)[..MODE_LIST_OFFSET] == v;
    assert (v + m + v + p + rev)[PRODUCT_REV_OFFSET..] == rev;
  }

  /** The VbeInfoBlock at start: the string area follows the fixed fields, and each far
      pointer is taken from BufferPtr as the strings and the mode list are copied in. */
  function VbeInfoAt(start: U64, d: DisplayInfo): (r: VbeInfo)
    ensures VBE_INFO_BASE_SIZE + |r.buffer| <= VBE_INFO_SIZE
  {
    OemStringsLayout();
    var buffer := start + VBE_INFO_BASE_SIZE;
    VbeInfo(
      signature := CString("VESA")[..4],
      vesaVersion := 0x0300,
      oemNameAddress := FarPointer(start, (buffer + OEM_NAME_OFFSET) % TWO_64),
      capabilities := 1,
      modeListAddress := FarPointer(start, (buffer + MODE_LIST_OFFSET) % TWO_64),
      videoMem64K := VideoMem64K(d.frameBufferSize),
      oemSoftwareVersion := 0,
      vendorNameAddress := FarPointer(start, (buffer + VENDOR_NAME_OFFSET) % TWO_64),
      productNameAddress := FarPointer(start, (buffer + PRODUCT_NAME_OFFSET) % TWO_64),
      productRevAddress := FarPointer(start, (buffer + PRODUCT_REV_OFFSET) % TWO_64),
      buffer := OEM_STRINGS)
  }

  /** The ModeInfoBlock: one 1024x768, 32 bits per pixel direct-colour mode over the
      linear framebuffer, banking, paging and windowing disabled. */
  function VbeModeInfoFor(d: DisplayInfo, positions: Channels): (r: VbeModeInfo)
  {
    VbeModeInfo(
      modeAttr := MODE_ATTR,
      width := MODE_WIDTH, height := MODE_HEIGHT,
      charCellWidth := 8, charCellHeight := 16,
      numBanks := 1, bankSizeKB := 0,
      lfbAddress := LfbAddress(d),
      bytesPerScanLineLinear := BytesPerScanLineLinear(d.pixelsPerScanLine),
      numImagePagesLessOne := 0, numImagesLessOneLinear := 0,
      windowPositioningAddress := 0, windowAAttr := 0, windowBAttr := 0,
      windowGranularityKB := 0, windowSizeKB := 0,
      windowAStartSegment := 0, windowBStartSegment := 0,
      numPlanes := 1, memoryModel := 6, directColorModeInfo := 2, bitsPerPixel := 32,
      maskSizes := MASK_SIZES, maskPositions := positions,
      offScreenAddress := 0, offScreenSizeKB := 0, maxPixelClockHz := 0, vbe3 := 1)
  }

  /** ShimVesaInformation(StartAddress, EndAddress): a zero start or a NULL EndAddress is
      EFI_INVALID_PARAMETER, a missing display EFI_NOT_FOUND and a pixel format other than
      the two 8-bit-per-colour ones EFI_UNSUPPORTED; otherwise both blocks are written and
      *EndAddress is the first byte after them. The mode reports exactly the display's
      channel layout and framebuffer. */
  function ShimVesaInformation(start: U64, endAddressPresent: bool, display: Option<DisplayInfo>): (r: ShimOutcome)
    ensures r.status == SUCCESS <==> r.tables.Some?
    ensures start == 0 || !endAddressPresent ==> r.status == INVALID_PARAMETER
    ensures start != 0 && endAddressPresent && display.None? ==> r.status == NOT_FOUND
    ensures start != 0 && endAddressPresent && display.Some? ==>
              (r.status == SUCCESS <==> ChannelBytes(display.value.pixelFormat).Some?)
              && (r.status != SUCCESS ==> r.status == UNSUPPORTED)
    ensures r.tables.Some? ==> var t := r.tables.value; var d := display.value;
            && (start + VBE_INFO_SIZE + VBE_MODE_INFO_SIZE < TWO_64 ==>
                  t.endAddress == start + VBE_INFO_SIZE + VBE_MODE_INFO_SIZE)
            && t.modeInfo.lfbAddress == LfbAddress(d)
            && t.modeInfo.bytesPerScanLineLinear == BytesPerScanLineLinear(d.pixelsPerScanLine)
            && t.modeInfo.maskPositions == MaskPositions(d.pixelFormat).value
            && t.info.videoMem64K == VideoMem64K(d.frameBufferSize)
  {
    if start == 0 || !endAddressPresent then ShimOutcome(INVALID_PARAMETER, None)
    else if display.None? then ShimOutcome(NOT_FOUND, None)
    else
      var d := display.value;
      var positions := MaskPositions(d.pixelFormat);
      if positions.None? then ShimOutcome(UNSUPPORTED, None)
      else
        ShimOutcome(SUCCESS, Some(VesaTables(
          VbeInfoAt(start, d),
          VbeModeInfoFor(d, positions.value),
          AddressAfter(start, VBE_INFO_SIZE + VBE_MODE_INFO_SIZE))))
  }

  /** A far pointer taken at offset off of the string area designates the bytes there. */
  lemma PointerIntoStrings(start: U64, info: VbeInfo, off: nat, expected: seq<Byte>)
    requires start % TWO_16 == 0 && start < 0x10_0000
    requires info.buffer == OEM_STRINGS && off + |expected| <= |OEM_STRINGS|
    requires OEM_STRINGS[off..off + |expected|] == expected
    ensures PointsAt(start, info, FarPointer(start, (start + VBE_INFO_BASE_SIZE + off) % TWO_64), expected)
  {
    OemStringsLayout();
    PointerIntoBuffer(start, info, off, expected);
  }

  /** The same for any string area that fits in the VbeInfoBlock. */
  lemma PointerIntoBuffer(start: U64, info: VbeInfo, off: nat, expected: seq<Byte>)
    requires start % TWO_16 == 0 && start < 0x10_0000
    requires VBE_INFO_BASE_SIZE + |info.buffer| <= VBE_INFO_SIZE && off + |expected| <= |info.buffer|
    requires info.buffer[off..off + |expected|] == expected
    ensures PointsAt(start, info, FarPointer(start, (start + VBE_INFO_BASE_SIZE + off) % TWO_64), expected)
  {
    var p := start + VBE_INFO_BASE_SIZE + off;
    assert p < start + TWO_16 && p % TWO_64 == p;
    FarPointerResolves(start, p);
    var far := FarPointer(start, (start + VBE_INFO_BASE_SIZE + off) % TWO_64);
    assert far == FarPointer(start, p);
    assert RealModeAddress(far) - start - VBE_INFO_BASE_SIZE == off;
  }

  /** Where the shim is placed on a 64 KiB boundary below 1 MiB (the VGA ROM at 0xC0000 is),
      every far pointer of the VbeInfoBlock designates what it is meant to: the vendor name
      for the OEM string and the vendor name, the product name, the revision, and the mode
      list holding mode 0x00F1 and the terminator. */
  lemma ShimPointersResolve(start: U64, d: DisplayInfo)
    requires start % TWO_16 == 0 && start < 0x10_0000
    ensures var info := VbeInfoAt(start, d);
            && PointsAt(start, info, info.oemNameAddress, CString(VENDOR_NAME))
            && PointsAt(start, info, info.modeListAddress, MODE_LIST)
            && PointsAt(start, info, info.vendorNameAddress, CString(VENDOR_NAME))
            && PointsAt(start, info, info.productNameAddress, CString(PRODUCT_NAME))
            && PointsAt(start, info, info.productRevAddress, CString(PRODUCT_REVISION))
  {
    var info := VbeInfoAt(start, d);
    OemStringsLayout();
    PointerIntoStrings(start, info, OEM_NAME_OFFSET, CString(VENDOR_NAME));
    PointerIntoStrings(start, info, MODE_LIST_OFFSET, MODE_LIST);
    PointerIntoStrings(start, info, VENDOR_NAME_OFFSET, CString(VENDOR_NAME));
    PointerIntoStrings(start, info, PRODUCT_NAME_OFFSET, CString(PRODUCT_NAME));
    PointerIntoStrings(start, info, PRODUCT_REV_OFFSET, CString(PRODUCT_REVISION));
  }
}
