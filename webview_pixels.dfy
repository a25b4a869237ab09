/** The integer part of `/api/dicom/image`: the header values with their
    defaults, the pixel count of a `u32` product, and the shaping of the
    decoded bytes into three bytes per pixel. An RGB image is cut or
    zero-padded to `rows*cols*3` bytes; a grey image is decoded one byte or
    one little-endian pair per pixel and every pixel becomes three equal
    bytes. The grey level of a pixel comes from `f32` min/max scaling, which
    is a parameter here. */
module WebviewPixels {
  import opened Wrappers
  import opened Text

  newtype byte = x: int | 0 <= x < 256

  const U32: int := 0x1_0000_0000

  /** The header fields the handler reads; None when the element is absent
      or does not convert to `u32`. */
  datatype Header = Header(
    rows: Option<nat>, cols: Option<nat>, bitsAllocated: Option<nat>,
    photometric: Option<string>, samplesPerPixel: Option<nat>)

  predicate FitsU32(o: Option<nat>)
  {
    o.Some? ==> o.value < U32
  }

  predicate ValidHeader(h: Header)
  {
    FitsU32(h.rows) && FitsU32(h.cols) && FitsU32(h.bitsAllocated) && FitsU32(h.samplesPerPixel)
  }

  /** The values after `unwrap_or`: rows and columns 0, 16 bits allocated,
      MONOCHROME2, one sample per pixel. */
  datatype Shape = Shape(rows: nat, cols: nat, bitsAllocated: nat, photometric: string, samplesPerPixel: nat)

  function ShapeOf(h: Header): (s: Shape)
    requires ValidHeader(h)
    ensures s.rows < U32 && s.cols < U32
    ensures h.rows.None? ==> s.rows == 0
    ensures h.cols.None? ==> s.cols == 0
    ensures h.bitsAllocated.None? ==> s.bitsAllocated == 16
    ensures h.photometric.None? ==> s.photometric == "MONOCHROME2"
    ensures h.samplesPerPixel.None? ==> s.samplesPerPixel == 1
  {
    Shape(h.rows.GetOr(0), h.cols.GetOr(0), h.bitsAllocated.GetOr(16),
          h.photometric.GetOr("MONOCHROME2"), h.samplesPerPixel.GetOr(1))
  }

  /** `(rows * cols) as usize`: the `u32` product wraps around. */
  function TotalPixels(rows: nat, cols: nat): (n: nat)
    ensures n < U32
    ensures rows * cols < U32 ==> n == rows * cols
  {
    (rows * cols) % U32
  }

  /** Rows and columns of a DICOM image are 16-bit values; their product
      never wraps. */
  lemma TotalPixelsExact(rows: nat, cols: nat)
    requires rows < 0x1_0000 && cols < 0x1_0000
    ensures TotalPixels(rows, cols) == rows * cols
  {
    assert rows * cols <= 0xFFFF * 0xFFFF by {
      MulMono(rows, 0xFFFF, cols, 0xFFFF);
    }
  }

  lemma MulMono(a: nat, b: nat, c: nat, d: nat)
    requires a <= b && c <= d
    ensures a * c <= b * d
  {
    assert a * c <= b * c;
    assert b * c <= b * d;
  }

  /** Header values beyond 16 bits can wrap the product: whenever it
      reaches 2^32 fewer pixels are counted than the image has, and
      multiples of 65536 by multiples of 65536 count none at all. */
  lemma TotalPixelsWraps(rows: nat, cols: nat)
    ensures rows * cols >= U32 ==> TotalPixels(rows, cols) < rows * cols
    ensures TotalPixels(rows * 0x1_0000, cols * 0x1_0000) == 0
  {
    var n := rows * cols;
    assert (rows * 0x1_0000) * (cols * 0x1_0000) == n * U32;
    assert (n * U32) % U32 == 0;
  }

  /** The image is treated as colour when its photometric interpretation
      mentions RGB or it has three samples per pixel. */
  predicate IsRgb(s: Shape)
  {
    Contains(s.photometric, "RGB") || s.samplesPerPixel == 3
  }

  // ---------------------------------------------------------------------
  // The RGB branch

  /** The RGB buffer: the first `3 * total` bytes of the data, or all of the
      data followed by zero bytes up to that length. */
  method RgbBuffer(data: seq<byte>, total: nat) returns (out: seq<byte>)
    ensures |out| == 3 * total
    ensures forall k :: 0 <= k < |out| ==> out[k] == if k < |data| then data[k] else 0
  {
    var expected := 3 * total;
    if |data| >= expected {
      out := data[..expected];
    } else {
      var result := new byte[expected](_ => 0);
      var copyLen := if |data| < expected then |data| else expected;
      forall k | 0 <= k < copyLen {
        result[k] := data[k];
      }
      out := result[..];
    }
  }

  /** The padded buffer is exactly the data when that is long enough, and
      the data followed by zeros otherwise. */
  lemma RgbBufferCases(data: seq<byte>, total: nat, out: seq<byte>)
    requires |out| == 3 * total
    requires forall k :: 0 <= k < |out| ==> out[k] == if k < |data| then data[k] else 0
    ensures |data| >= 3 * total ==> out == data[..3 * total]
    ensures |data| < 3 * total ==> out == data + seq(3 * total - |data|, _ => 0 as byte)
  {
    if |data| < 3 * total {
      var z := seq(3 * total - |data|, _ => 0 as byte);
      assert |out| == |data + z|;
      forall k | 0 <= k < |out| ensures out[k] == (data + z)[k] {
        if k >= |data| {
          assert (data + z)[k] == z[k - |data|];
        }
      }
    }
  }

  // ---------------------------------------------------------------------
  // The grey branch

  /** `u16::from_le_bytes([lo, hi])`. */
  function LE16(lo: byte, hi: byte): (v: nat)
    ensures v < 0x1_0000
    ensures v % 256 == lo as nat && v / 256 == hi as nat
  {
    lo as nat + 256 * hi as nat
  }

  /** One pixel value per byte, for images of at most 8 bits allocated:
      `data.iter().take(expected_size)`. */
  method DecodeGrey8(data: seq<byte>, expected: nat) returns (pixels: seq<nat>)
    ensures |pixels| == if |data| < expected then |data| else expected
    ensures forall k :: 0 <= k < |pixels| ==> pixels[k] == data[k] as nat
  {
    pixels := [];
    var i := 0;
    while i < |data| && i < expected
      invariant 0 <= i <= |data| && i <= expected
      invariant |pixels| == i
      invariant forall k :: 0 <= k < i ==> pixels[k] == data[k] as nat
    {
      pixels := pixels + [data[i] as nat];
      i := i + 1;
    }
  }

  /** One little-endian pair per pixel, for images of more than 8 bits
      allocated: the even offsets below `min(len, expected)` whose pair is
      complete. */
  method DecodeGrey16(data: seq<byte>, expected: nat) returns (pixels: seq<nat>)
    requires expected % 2 == 0
    ensures |pixels| == (if |data| < expected then |data| else expected) / 2
    ensures forall k :: 0 <= k < |pixels| ==> pixels[k] == LE16(data[2 * k], data[2 * k + 1])
  {
    var bound := if |data| < expected then |data| else expected;
    pixels := [];
    var i := 0;
    while i < bound
      invariant 0 <= i && i % 2 == 0
      invariant i <= bound + 1
      invariant |pixels| == (if i < bound then i else bound) / 2
      invariant forall k :: 0 <= k < |pixels| ==> 2 * k + 1 < |data| && pixels[k] == LE16(data[2 * k], data[2 * k + 1])
    {
      if i + 1 < |data| {
        assert i + 2 <= bound;
        pixels := pixels + [LE16(data[i], data[i + 1])];
      } else {
        assert i + 1 == bound && bound % 2 == 1;
      }
      i := i + 2;
    }
  }

  /** `pixel_values.iter().min().unwrap_or(&0)`. */
  function MinOr(xs: seq<nat>, default: nat): (m: nat)
    ensures xs == [] ==> m == default
    ensures xs != [] ==> m in xs && forall k :: 0 <= k < |xs| ==> m <= xs[k]
  {
    if |xs| == 0 then default
    else if |xs| == 1 then xs[0]
    else
      var m := MinOr(xs[1..], default);
      assert forall k :: 1 <= k < |xs| ==> xs[k] == xs[1..][k - 1];
      if xs[0] <= m then xs[0] else m
  }

  /** `pixel_values.iter().max().unwrap_or(&1)`. */
  function MaxOr(xs: seq<nat>, default: nat): (m: nat)
    ensures xs == [] ==> m == default
    ensures xs != [] ==> m in xs && forall k :: 0 <= k < |xs| ==> xs[k] <= m
  {
    if |xs| == 0 then default
    else if |xs| == 1 then xs[0]
    else
      var m := MaxOr(xs[1..], default);
      assert forall k :: 1 <= k < |xs| ==> xs[k] == xs[1..][k - 1];
      if xs[0] >= m then xs[0] else m
  }

  /** The grey level of pixel value `p`: `scale(p, min, max)` stands for
      the `f32` expression `(p - min) / (max - min) * 255`, and a flat image
      (no range) is black. */
  function Level(pixels: seq<nat>, scale: (nat, nat, nat) -> byte, p: nat): byte
  {
    var lo := MinOr(pixels, 0);
    var hi := MaxOr(pixels, 1);
    if hi > lo then scale(p, lo, hi) else 0
  }

  /** Three equal bytes per pixel, in pixel order. */
  method GreyToRgb(pixels: seq<nat>, scale: (nat, nat, nat) -> byte) returns (result: seq<byte>)
    ensures |result| == 3 * |pixels|
    ensures forall k :: 0 <= k < |pixels| ==>
      var g := Level(pixels, scale, pixels[k]);
      result[3 * k] == g && result[3 * k + 1] == g && result[3 * k + 2] == g
  {
    var lo := MinOr(pixels, 0);
    var hi := MaxOr(pixels, 1);
    result := [];
    var i := 0;
    while i < |pixels|
      invariant 0 <= i <= |pixels|
      invariant |result| == 3 * i
      invariant forall k :: 0 <= k < i ==>
        var g := Level(pixels, scale, pixels[k]);
        result[3 * k] == g && result[3 * k + 1] == g && result[3 * k + 2] == g
    {
      var g := if hi > lo then scale(pixels[i], lo, hi) else 0;
      result := result + [g, g, g];
      i := i + 1;
    }
  }

  /** An image whose pixels all have one value has no range and comes out
      black, whatever the scaling. */
  lemma FlatImageIsBlack(pixels: seq<nat>, scale: (nat, nat, nat) -> byte, k: int)
    requires 0 <= k < |pixels|
    requires forall i :: 0 <= i < |pixels| ==> pixels[i] == pixels[0]
    ensures Level(pixels, scale, pixels[k]) == 0
  {
    var lo := MinOr(pixels, 0);
    var hi := MaxOr(pixels, 1);
    assert lo == pixels[0] && hi == pixels[0];
  }

  /** The answer of the handler: the image size and its bytes, or the
      message of a failure. */
  datatype ImageReply =
    | PixelData(width: nat, height: nat, data: seq<byte>)
    | ReadFailed(message: string)
    | DecodeFailed(message: string)

  /** What decoding the file gave: the header with the decoded pixel bytes,
      or the message of the failure. */
  datatype Decoded =
    | Opened(header: Header, pixelData: Result<seq<byte>>)
    | NotOpened(error: string)

  datatype Result<T> = Ok(value: T) | Err(error: string)

  /** The number of bytes per pixel the grey branch expects. */
  function BytesPerPixel(s: Shape): nat
  {
    if s.bitsAllocated <= 8 then 1 else 2
  }

  /** The length of the pixel buffer the endpoint sends for decoded data
      of `dataLength` bytes: three bytes per pixel of the count for an RGB
      image; three bytes per decoded grey pixel, and the decoder stops at
      the data or at the expected length, whichever comes first. */
  function ServedLength(s: Shape, dataLength: nat): nat
  {
    var total := TotalPixels(s.rows, s.cols);
    if IsRgb(s) then 3 * total
    else
      var expected := total * BytesPerPixel(s);
      3 * ((if dataLength < expected then dataLength else expected) / BytesPerPixel(s))
  }

  /** `get_dicom_image` for a permitted path. */
  method GetDicomImage(file: Decoded, scale: (nat, nat, nat) -> byte) returns (reply: ImageReply)
    requires file.Opened? ==> ValidHeader(file.header)
    ensures file.NotOpened? ==> reply == ReadFailed("Error reading DICOM: " + file.error)
    ensures file.Opened? && file.pixelData.Err? ==>
      reply == DecodeFailed("Error decoding pixel data: " + file.pixelData.error)
    ensures file.Opened? && file.pixelData.Ok? ==>
      var s := ShapeOf(file.header);
      var data := file.pixelData.value;
      var total := TotalPixels(s.rows, s.cols);
      && reply.PixelData? && reply.width == s.cols && reply.height == s.rows
      && |reply.data| == ServedLength(s, |data|)
      && (IsRgb(s) ==>
            && |reply.data| == 3 * total
            && forall k :: 0 <= k < |reply.data| ==> reply.data[k] == if k < |data| then data[k] else 0)
      && (!IsRgb(s) ==>
            var bound := if |data| < total * BytesPerPixel(s) then |data| else total * BytesPerPixel(s);
            && |reply.data| == 3 * (bound / BytesPerPixel(s))
            && forall k :: 0 <= k < |reply.data| / 3 ==>
                 reply.data[3 * k] == reply.data[3 * k + 1] == reply.data[3 * k + 2])
  {
    if file.NotOpened? {
      return ReadFailed("Error reading DICOM: " + file.error);
    }
    if file.pixelData.Err? {
      return DecodeFailed("Error decoding pixel data: " + file.pixelData.error);
    }
    var s := ShapeOf(file.header);
    var data := file.pixelData.value;
    var total := TotalPixels(s.rows, s.cols);
    var normalized: seq<byte>;
    if IsRgb(s) {
      normalized := RgbBuffer(data, total);
    } else {
      var bytesPerPixel := BytesPerPixel(s);
      var expected := total * bytesPerPixel;
      var pixels: seq<nat>;
      if bytesPerPixel == 1 {
        pixels := DecodeGrey8(data, expected);
      } else {
        pixels := DecodeGrey16(data, expected);
      }
      normalized := GreyToRgb(pixels, scale);
      assert |normalized| / 3 == |pixels|;
      forall k | 0 <= k < |pixels|
        ensures normalized[3 * k] == normalized[3 * k + 1] == normalized[3 * k + 2]
      {
      }
    }
    reply := PixelData(s.cols, s.rows, normalized);
  }

  /** When the decoder delivers at least the expected number of bytes,
      the grey image has exactly three bytes per pixel, like the RGB one. */
  lemma GreyLengthFull(s: Shape, dataLength: nat)
    requires dataLength >= TotalPixels(s.rows, s.cols) * BytesPerPixel(s)
    ensures var expected := TotalPixels(s.rows, s.cols) * BytesPerPixel(s);
      3 * ((if dataLength < expected then dataLength else expected) / BytesPerPixel(s))
      == 3 * TotalPixels(s.rows, s.cols)
  {
  }
}
