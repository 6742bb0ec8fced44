/** The tensor pipeline of the WASM style-transfer engine: the built-in style
    registry, the per-element style transforms of run_inference, the re-layout
    of a 3-channel tensor as RGBA bytes, and the linear blend of two tensors.
    `f32` values are modelled as `real`; `sin` and `cos` are supplied by the
    caller as a `Trig` value and are otherwise unknown, so only properties that
    hold for every choice of them are stated. */
module StyleEngine {

  newtype byte = x: int | 0 <= x < 0x100
  newtype u32 = x: int | 0 <= x < 0x1_0000_0000

  /** The trigonometric functions the transforms call; nothing is assumed of them. */
  datatype Trig = Trig(sin: real -> real, cos: real -> real)

  /** One entry of the engine's style registry. */
  datatype StyleMetadata = StyleMetadata(
    name: string,
    sizeMb: real,
    inputWidth: u32,
    inputHeight: u32,
    modelUrl: string,
    description: string)

  datatype StyleTransferEngine = StyleTransferEngine(styles: seq<StyleMetadata>)

  const VanGoghName := "Van Gogh - Starry Night"
  const PicassoName := "Picasso - Cubist"
  const CyberpunkName := "Cyberpunk Neon"
  const MonetName := "Monet Impressionist"
  const AnimeName := "Anime Style"

  /** The engine as the constructor builds it: a fixed registry of five styles,
      all with a 256x256 input, under five distinct names. */
  function NewEngine(): (e: StyleTransferEngine)
    ensures |e.styles| == 5
    ensures forall s :: s in e.styles ==> s.inputWidth == 256 && s.inputHeight == 256
    ensures forall j, k :: 0 <= j < k < |e.styles| ==> e.styles[j].name != e.styles[k].name
  {
    StyleTransferEngine([
      StyleMetadata(VanGoghName, 2.4, 256, 256, "/models/starry_night.onnx",
                    "Transform with Van Gogh's swirling brushstrokes"),
      StyleMetadata(PicassoName, 2.1, 256, 256, "/models/picasso_cubist.onnx",
                    "Geometric abstraction in Picasso's style"),
      StyleMetadata(CyberpunkName, 2.8, 256, 256, "/models/cyberpunk_neon.onnx",
                    "Futuristic neon-lit digital enhancement"),
      StyleMetadata(MonetName, 2.2, 256, 256, "/models/monet_impressionist.onnx",
                    "Soft, dreamy impressionist style"),
      StyleMetadata(AnimeName, 2.0, 256, 256, "/models/anime_style.onnx",
                    "Colorful anime-inspired artistic style")
    ])
  }

  // ---------------------------------------------------------------------------
  // Style dispatch and the per-element transforms of run_inference
  // ---------------------------------------------------------------------------

  /** The transform run_inference picks; `Passthrough` is its wildcard arm. */
  datatype Style = VanGogh | Picasso | Cyberpunk | Monet | Anime | Passthrough

  /** Dispatch on the exact style name. */
  function StyleOf(name: string): (st: Style)
    ensures st == Passthrough <==>
      name !in {VanGoghName, PicassoName, CyberpunkName, MonetName, AnimeName}
  {
    if name == VanGoghName then VanGogh
    else if name == PicassoName then Picasso
    else if name == CyberpunkName then Cyberpunk
    else if name == MonetName then Monet
    else if name == AnimeName then Anime
    else Passthrough
  }

  /** `f32::clamp` on values that are never NaN. */
  function Clamp(x: real, lo: real, hi: real): (r: real)
    requires lo <= hi
    ensures lo <= r <= hi
    ensures lo <= x <= hi ==> r == x
    ensures x < lo ==> r == lo
    ensures hi < x ==> r == hi
  {
    if x < lo then lo else if hi < x then hi else x
  }

  /** The value run_inference computes for element `i` of the tensor, whose
      value is `base`, under style `st`. */
  function Enhance(st: Style, i: nat, base: real, trig: Trig): (r: real)
    ensures st == VanGogh || st == Monet ==> 0.0 <= r <= 1.0
    ensures st == Passthrough ==> r == base
  {
    match st
    case VanGogh => Clamp(base * 1.2 + trig.sin(i as real * 0.001) * 0.1, 0.0, 1.0)
    case Picasso => if (i / 3) % 16 < 8 then base * 0.8 else base * 1.3
    case Cyberpunk => if i % 3 == 2 then base * 1.4 else base * 0.9
    case Monet => Clamp(base * 0.9 + trig.cos(i as real * 0.002) * 0.15, 0.0, 1.0)
    case Anime =>
      var channel := i % 3;
      if channel == 0 then base * 1.1 else if channel == 1 then base * 0.95 else base * 1.05
    case Passthrough => base
  }

  /** The whole output tensor of run_inference, element by element. */
  function Stylize(styleName: string, input: seq<real>, trig: Trig): (out: seq<real>)
    ensures |out| == |input|
  {
    seq(|input|, i requires 0 <= i < |input| => Enhance(StyleOf(styleName), i, input[i], trig))
  }

  /** run_inference without its simulated delay: one element pushed per index. */
  method RunInference(styleName: string, input: seq<real>, trig: Trig) returns (output: seq<real>)
    ensures output == Stylize(styleName, input, trig)
    ensures StyleOf(styleName) == Passthrough ==> output == input
  {
    output := [];
    var i := 0;
    while i < |input|
      invariant 0 <= i <= |input|
      invariant |output| == i
      invariant forall j :: 0 <= j < i ==> output[j] == Enhance(StyleOf(styleName), j, input[j], trig)
    {
      var enhanced := Enhance(StyleOf(styleName), i, input[i], trig);
      output := output + [enhanced];
      i := i + 1;
    }
  }

  /** Every registered style is dispatched to its own transform, never to the
      wildcard arm. */
  lemma RegisteredStylesAreRecognized()
    ensures forall s :: s in NewEngine().styles ==> StyleOf(s.name) != Passthrough
    ensures forall j, k :: 0 <= j < k < |NewEngine().styles| ==>
      StyleOf(NewEngine().styles[j].name) != StyleOf(NewEngine().styles[k].name)
  {
  }

  /** Van Gogh and Monet clamp every element into [0,1], whatever sin and cos are. */
  lemma ClampedStylesStayInUnitRange(styleName: string, input: seq<real>, trig: Trig)
    requires styleName == VanGoghName || styleName == MonetName
    ensures forall i :: 0 <= i < |input| ==> 0.0 <= Stylize(styleName, input, trig)[i] <= 1.0
  {
    forall i | 0 <= i < |input|
      ensures 0.0 <= Stylize(styleName, input, trig)[i] <= 1.0
    {
      assert Stylize(styleName, input, trig)[i] == Enhance(StyleOf(styleName), i, input[i], trig);
    }
  }

  lemma PixelChannel(k: nat, c: nat)
    requires c < 3
    ensures (3 * k + c) / 3 == k && (3 * k + c) % 3 == c
  {
  }

  /** The unclamped styles, read per pixel `k` and channel `c` (element 3k+c):
      Cyberpunk boosts only blue, Picasso darkens the first 8 of every 16 pixels
      and brightens the other 8, Anime scales each channel by its own factor. */
  lemma ChannelScalingRules(input: seq<real>, trig: Trig, k: nat, c: nat)
    requires c < 3 && 3 * k + c < |input|
    ensures Stylize(CyberpunkName, input, trig)[3 * k + c] ==
      input[3 * k + c] * (if c == 2 then 1.4 else 0.9)
    ensures Stylize(PicassoName, input, trig)[3 * k + c] ==
      input[3 * k + c] * (if k % 16 < 8 then 0.8 else 1.3)
    ensures Stylize(AnimeName, input, trig)[3 * k + c] ==
      input[3 * k + c] * (if c == 0 then 1.1 else if c == 1 then 0.95 else 1.05)
  {
    PixelChannel(k, c);
  }

  /** The three unclamped styles can leave [0,1]: a full blue channel comes out
      of Cyberpunk at 1.4, a full red channel of pixel 8 out of Picasso at 1.3,
      and a full red channel out of Anime at 1.1. */
  lemma UnclampedStylesLeaveUnitRange(trig: Trig)
    ensures Stylize(CyberpunkName, [0.0, 0.0, 1.0], trig)[2] == 1.4
    ensures Stylize(PicassoName, seq(25, i => 1.0), trig)[24] == 1.3
    ensures Stylize(AnimeName, [1.0, 0.0, 0.0], trig)[0] == 1.1
  {
  }

  /** The unclamped styles map a black (all-zero) tensor to itself, and keep a
      non-negative tensor non-negative. */
  lemma UnclampedStylesKeepSign(styleName: string, input: seq<real>, trig: Trig)
    requires styleName in {PicassoName, CyberpunkName, AnimeName}
    ensures (forall i :: 0 <= i < |input| ==> input[i] == 0.0) ==>
      Stylize(styleName, input, trig) == input
    ensures (forall i :: 0 <= i < |input| ==> 0.0 <= input[i]) ==>
      forall i :: 0 <= i < |input| ==> 0.0 <= Stylize(styleName, input, trig)[i]
  {
    var out := Stylize(styleName, input, trig);
    forall i | 0 <= i < |input|
      ensures input[i] == 0.0 ==> out[i] == 0.0
      ensures 0.0 <= input[i] ==> 0.0 <= out[i]
    {
      assert out[i] == Enhance(StyleOf(styleName), i, input[i], trig);
    }
  }

  // ---------------------------------------------------------------------------
  // postprocess_image
  // ---------------------------------------------------------------------------

  /** `width * height` evaluated in u32 arithmetic, which wraps in a release build. */
  function PixelCount(width: u32, height: u32): (n: nat)
    ensures n < 0x1_0000_0000
    ensures width as int * height as int < 0x1_0000_0000 ==> n == width as int * height as int
  {
    (width as int * height as int) % 0x1_0000_0000
  }

  /** `(x * 255).clamp(0, 255) as u8`: the cast truncates toward zero, which on
      the clamped, non-negative value is the floor. */
  function ToByte(x: real): (b: byte)
    ensures b as real <= Clamp(x * 255.0, 0.0, 255.0) < b as real + 1.0
  {
    Clamp(x * 255.0, 0.0, 255.0).Floor as byte
  }

  /** The RGBA bytes of the first `n` pixels of a 3-channel tensor: byte j is
      channel j % 4 of pixel j / 4, and channel 3 (alpha) is always opaque. */
  function RgbaBytes(tensor: seq<real>, n: nat): (bytes: seq<byte>)
    requires 3 * n <= |tensor|
    ensures |bytes| == 4 * n
  {
    seq(4 * n, j requires 0 <= j < 4 * n =>
      if j % 4 == 3 then 255 as byte else ToByte(tensor[3 * (j / 4) + j % 4]))
  }

  /** postprocess_image: the source indexes the tensor up to 3 * width * height,
      which panics on a shorter tensor. */
  method PostprocessImage(tensor: seq<real>, width: u32, height: u32) returns (imageData: seq<byte>)
    requires 3 * PixelCount(width, height) <= |tensor|
    ensures |imageData| == 4 * PixelCount(width, height)
    ensures imageData == RgbaBytes(tensor, PixelCount(width, height))
  {
    var n := PixelCount(width, height);
    imageData := [];
    var i := 0;
    while i < n
      invariant 0 <= i <= n
      invariant |imageData| == 4 * i
      invariant forall j :: 0 <= j < 4 * i ==> imageData[j] == RgbaBytes(tensor, n)[j]
    {
      var r := ToByte(tensor[i * 3]);
      var g := ToByte(tensor[i * 3 + 1]);
      var b := ToByte(tensor[i * 3 + 2]);
      var a: byte := 255;
      PixelChannel(i, 0);
      imageData := imageData + [r, g, b, a];
      i := i + 1;
    }
  }

  /** Pixel view of the layout: alpha is 255, and colour channel c of pixel k is
      the byte of tensor element 3k+c. */
  lemma RgbaLayout(tensor: seq<real>, n: nat, k: nat, c: nat)
    requires 3 * n <= |tensor| && k < n && c < 3
    ensures RgbaBytes(tensor, n)[4 * k + 3] == 255
    ensures RgbaBytes(tensor, n)[4 * k + c] == ToByte(tensor[3 * k + c])
  {
    assert (4 * k + 3) / 4 == k && (4 * k + 3) % 4 == 3;
    assert (4 * k + c) / 4 == k && (4 * k + c) % 4 == c;
  }

  /** Values at or below 0 give byte 0, values at or above 1 give byte 255, and
      the conversion never decreases. */
  lemma ToByteSaturates(x: real, y: real)
    ensures x <= 0.0 ==> ToByte(x) == 0
    ensures 1.0 <= x ==> ToByte(x) == 255
    ensures x <= y ==> ToByte(x) <= ToByte(y)
  {
  }

  /** The normalization that preprocess_image applies to each RGB byte. */
  function Normalize(pixels: seq<byte>): (tensor: seq<real>)
    ensures |tensor| == |pixels|
  {
    seq(|pixels|, i requires 0 <= i < |pixels| => pixels[i] as real / 255.0)
  }

  /** postprocess_image undoes the normalization of preprocess_image exactly:
      the RGB bytes come back unchanged and alpha is added. */
  lemma PostprocessInvertsNormalize(pixels: seq<byte>, n: nat, k: nat, c: nat)
    requires |pixels| == 3 * n && k < n && c < 3
    ensures RgbaBytes(Normalize(pixels), n)[4 * k + c] == pixels[3 * k + c]
    ensures RgbaBytes(Normalize(pixels), n)[4 * k + 3] == 255
  {
    RgbaLayout(Normalize(pixels), n, k, c);
    var p := pixels[3 * k + c];
    assert Normalize(pixels)[3 * k + c] * 255.0 == p as real;
  }

  // ---------------------------------------------------------------------------
  // blend_images
  // ---------------------------------------------------------------------------

  function Min(a: int, b: int): int { if a <= b then a else b }

  /** The blend factor: strength clamped into [0,1]. */
  function BlendFactor(strength: real): (f: real)
    ensures 0.0 <= f <= 1.0
  {
    Clamp(strength, 0.0, 1.0)
  }

  /** blend_images: zips the two tensors (so the shorter one decides the
      length) and mixes each pair linearly by the blend factor. */
  function BlendImages(original: seq<real>, stylized: seq<real>, strength: real): (blended: seq<real>)
    ensures |blended| == Min(|original|, |stylized|)
  {
    var f := BlendFactor(strength);
    seq(Min(|original|, |stylized|), i requires 0 <= i < Min(|original|, |stylized|) =>
      original[i] * (1.0 - f) + stylized[i] * f)
  }

  /** A strength above 1 acts as 1 and a strength below 0 acts as 0. */
  lemma StrengthIsClamped(original: seq<real>, stylized: seq<real>, strength: real)
    ensures 1.0 < strength ==> BlendImages(original, stylized, strength) == BlendImages(original, stylized, 1.0)
    ensures strength < 0.0 ==> BlendImages(original, stylized, strength) == BlendImages(original, stylized, 0.0)
  {
  }

  /** Strength 0 gives the original and strength 1 the stylized tensor, both
      cut to the common length. */
  lemma BlendEndpoints(original: seq<real>, stylized: seq<real>)
    ensures BlendImages(original, stylized, 0.0) == original[..Min(|original|, |stylized|)]
    ensures BlendImages(original, stylized, 1.0) == stylized[..Min(|original|, |stylized|)]
  {
  }

  lemma MulNonNegative(x: real, y: real)
    requires 0.0 <= x && 0.0 <= y
    ensures 0.0 <= x * y
  {
  }

  /** `x` lies between `a` and `b`, whichever of them is the smaller. */
  predicate Between(x: real, a: real, b: real) {
    (a <= b ==> a <= x <= b) && (b <= a ==> b <= x <= a)
  }

  lemma MixBetween(a: real, b: real, f: real)
    requires 0.0 <= f <= 1.0
    ensures Between(a * (1.0 - f) + b * f, a, b)
  {
    assert a * (1.0 - f) + b * f == a + f * (b - a);
    if a <= b {
      MulNonNegative(f, b - a);
      MulNonNegative(1.0 - f, b - a);
    } else {
      MulNonNegative(f, a - b);
      MulNonNegative(1.0 - f, a - b);
    }
  }

  /** Each blended element lies between its original and stylized values. */
  lemma BlendIsBetween(original: seq<real>, stylized: seq<real>, strength: real)
    ensures forall i :: 0 <= i < Min(|original|, |stylized|) ==>
      Between(BlendImages(original, stylized, strength)[i], original[i], stylized[i])
  {
    var blended := BlendImages(original, stylized, strength);
    var f := BlendFactor(strength);
    forall i | 0 <= i < Min(|original|, |stylized|)
      ensures Between(blended[i], original[i], stylized[i])
    {
      assert blended[i] == original[i] * (1.0 - f) + stylized[i] * f;
      MixBetween(original[i], stylized[i], f);
    }
  }

  /** The blending scenario of the engine's integration test. */
  lemma BlendHalfway()
    ensures |BlendImages([0.0, 0.5, 1.0], [1.0, 0.5, 0.0], 0.5)| == 3
    ensures BlendImages([0.0, 0.5, 1.0], [1.0, 0.5, 0.0], 0.5)[0] == 0.5
  {
  }
}
