/** The browser side of the viewer, `render_dicom_image`: every byte of the
    image buffer is taken as one grey pixel and becomes an opaque RGBA
    quadruple, and the RGBA buffer is handed to the `ImageData`
    constructor, which refuses a buffer that is not four bytes per pixel of
    a non-empty `width * height` image. */
module WebviewCanvas {
  import opened WebviewPixels
  import opened Text

  /** The expansion loop: four pushes per input byte, in input order. */
  method GreyToRgba(data: seq<byte>) returns (rgba: seq<byte>)
    ensures |rgba| == 4 * |data|
    ensures forall i :: 0 <= i < |data| ==>
      rgba[4 * i] == data[i] && rgba[4 * i + 1] == data[i] && rgba[4 * i + 2] == data[i]
    ensures forall i :: 0 <= i < |data| ==> rgba[4 * i + 3] == 255
  {
    rgba := [];
    var i := 0;
    while i < |data|
      invariant 0 <= i <= |data|
      invariant |rgba| == 4 * i
      invariant forall j :: 0 <= j < i ==>
        rgba[4 * j] == data[j] && rgba[4 * j + 1] == data[j] && rgba[4 * j + 2] == data[j] && rgba[4 * j + 3] == 255
    {
      var gray := data[i];
      rgba := rgba + [gray, gray, gray, 255];
      i := i + 1;
    }
  }

  /** The quadruple of byte `i` is `[g, g, g, 255]` and sits at offset
      `4 * i`: every position of the output is accounted for by exactly one
      input byte. */
  lemma RgbaLayout(data: seq<byte>, rgba: seq<byte>, k: int)
    requires |rgba| == 4 * |data|
    requires forall i :: 0 <= i < |data| ==>
      rgba[4 * i] == data[i] && rgba[4 * i + 1] == data[i] && rgba[4 * i + 2] == data[i]
    requires forall i :: 0 <= i < |data| ==> rgba[4 * i + 3] == 255
    requires 0 <= k < |rgba|
    ensures rgba[k] == if k % 4 == 3 then 255 else data[k / 4]
  {
    var i := k / 4;
    assert k == 4 * i + k % 4;
  }

  /** A buffer from the image endpoint holds three bytes per pixel; taken
      byte by byte it expands to twelve bytes per pixel, three times the
      four bytes per pixel of a `width * height` RGBA image. */
  lemma ServerBufferExpandsThreefold(width: nat, height: nat, data: seq<byte>, rgba: seq<byte>)
    requires |data| == 3 * (width * height)
    requires |rgba| == 4 * |data|
    ensures |rgba| == 3 * (4 * (width * height))
    ensures width * height > 0 ==> |rgba| != 4 * (width * height)
    ensures !ImageDataAccepts(|rgba|, width, height)
  {
    ImageDataAcceptsExactly(|rgba|, width, height);
  }

  /** What the `ImageData(data, sw, sh)` constructor of the HTML standard
      accepts, following its steps in the "Pixel manipulation" part of the
      canvas element: a non-zero multiple of four bytes, whose quarter is a
      multiple of `sw` with quotient `sh`. */
  predicate ImageDataAccepts(length: nat, width: nat, height: nat)
  {
    length > 0 && length % 4 == 0 && width > 0 && (length / 4) % width == 0 && length / 4 / width == height
  }

  /** Euclidean division is unique: a quotient and remainder that
      rebuild `n` are `n / d` and `n % d`. */
  lemma DivideUnique(n: nat, d: nat, k: nat, r: nat)
    requires d > 0 && r < d && n == d * k + r
    ensures n / d == k && n % d == r
  {
    var k', r' := n / d, n % d;
    assert n == d * k' + r';
    if k' < k {
      MulMono(d, d, k' + 1, k);
      assert false;
    } else if k < k' {
      MulMono(d, d, k + 1, k');
      assert false;
    }
  }

  /** An `ImageData` is made exactly when the buffer has four bytes per
      pixel of a non-empty image. */
  lemma ImageDataAcceptsExactly(length: nat, width: nat, height: nat)
    ensures ImageDataAccepts(length, width, height) <==> width > 0 && height > 0 && length == 4 * (width * height)
  {
    if ImageDataAccepts(length, width, height) {
      var n := length / 4;
      assert length == 4 * n;
      assert n == width * (n / width);
      assert n == width * height;
      assert n > 0;
    }
    if width > 0 && height > 0 && length == 4 * (width * height) {
      DivideUnique(length, 4, width * height, 0);
      DivideUnique(width * height, width, height, 0);
      assert width * height > 0;
    }
  }

  /** `render_dicom_image`: expand the bytes and build the `ImageData`;
      `drawn` is whether the image reaches `put_image_data` instead of the
      constructor's error being returned. */
  method RenderDicomImage(data: seq<byte>, width: nat, height: nat) returns (drawn: bool)
    ensures drawn <==> width > 0 && height > 0 && |data| == width * height
  {
    var rgba := GreyToRgba(data);
    drawn := ImageDataAccepts(|rgba|, width, height);
    ImageDataAcceptsExactly(|rgba|, width, height);
  }

  /** The browser refuses every RGB image the endpoint sends, and every grey
      one whose decoder delivered the expected number of bytes, when the
      image is non-empty and its pixel count does not wrap. */
  lemma ServedImageRefused(s: Shape, dataLength: nat)
    requires s.rows > 0 && s.cols > 0 && s.rows * s.cols < U32
    requires IsRgb(s) || dataLength >= s.rows * s.cols * BytesPerPixel(s)
    ensures ServedLength(s, dataLength) == 3 * (s.cols * s.rows)
    ensures !ImageDataAccepts(4 * ServedLength(s, dataLength), s.cols, s.rows)
  {
    if !IsRgb(s) {
      GreyLengthFull(s, dataLength);
    }
    ImageDataAcceptsExactly(4 * ServedLength(s, dataLength), s.cols, s.rows);
  }

  /** A grey image whose decoder delivers fewer bytes than expected is
      drawn exactly when the decoded pixels, three bytes each, fill one
      byte per image pixel: when a third of the pixels were decoded. */
  lemma ServedShortGreyDrawn(s: Shape, dataLength: nat)
    requires !IsRgb(s) && s.rows > 0 && s.cols > 0 && s.rows * s.cols < U32
    ensures ImageDataAccepts(4 * ServedLength(s, dataLength), s.cols, s.rows)
            <==> 3 * (dataLength / BytesPerPixel(s)) == s.cols * s.rows
  {
    var total := s.rows * s.cols;
    var bpp := BytesPerPixel(s);
    ImageDataAcceptsExactly(4 * ServedLength(s, dataLength), s.cols, s.rows);
    if dataLength >= total * bpp {
      GreyLengthFull(s, dataLength);
      assert dataLength / bpp >= total;
    }
  }

  /** Three rows of one 8-bit grey pixel with a single decoded byte: the
      endpoint sends three bytes and the browser draws them. */
  lemma ShortGreyExample()
    ensures var s := Shape(3, 1, 8, "MONOCHROME2", 1);
      && ServedLength(s, 1) == 3
      && ImageDataAccepts(4 * ServedLength(s, 1), s.cols, s.rows)
  {
    var s := Shape(3, 1, 8, "MONOCHROME2", 1);
    var p := s.photometric;
    forall i | 0 <= i && i + 3 <= |p| ensures !OccursAt(p, "RGB", i) {
      if i == 6 {
        assert p[i..i + 3][1] == 'O';
      } else {
        assert p[i..i + 3][0] != 'R';
      }
    }
    ServedShortGreyDrawn(s, 1);
  }
}
