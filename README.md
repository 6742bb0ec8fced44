# Style-transfer tensor pipeline and model generator, in Dafny

This project models two small pieces of sequential logic from the image
style-transfer application. Each one is proved against its own contracts.

- **`StyleEngine`** (`style_engine.dfy`) models the WASM style engine
  (`wasm-engine/src/lib.rs`):
  - the registry of five built-in styles that the engine's constructor builds;
  - the per-element transform loop of `run_inference`. It dispatches on the
    exact style name, selects the channel by `i % 3` or the 16-pixel band by
    `(i / 3) % 16`, clamps two of the styles and passes unknown names through;
  - `postprocess_image`, which lays a 3-channel float tensor out as RGBA bytes
    with opaque alpha;
  - `blend_images`, a linear blend by a clamped strength over the zipped
    tensors.

  `f32` values are modelled as `real`. The engine calls `sin` and `cos`; these
  come in as a `Trig` value the caller supplies, and nothing is assumed about
  them. So every property stated about the Van Gogh and Monet transforms holds
  for any trigonometric functions.
- **`ModelGenerator`** (`model_generator.dfy`) models the model-generator
  script (`generate_models.py`):
  - the node list that `create_style_transfer_model` appends. A node is
    abstracted to its operator, name, input and output tensor names;
  - the branch choice, by the first of "Van Gogh", "Picasso", "Cyberpunk",
    "Monet" and "Anime" that occurs in the style name;
  - the file name that `main` derives: `lower()`, then `replace(" - ", "_")`,
    then `replace(" ", "_")`, then `".onnx"` appended.

  Python's substring test `in` is modelled by `Contains`, and `str.replace`
  (a left-to-right, non-overlapping scan) by `ReplaceAll`.

The engine works on a flat tensor of `[0,1]` floats, three per pixel. It
transforms that tensor element by element, blends two tensors linearly, and
dispatches on display names such as `"Van Gogh - Starry Night"`.

The engine's integration test expects three registered styles. The
constructor registers five, and the model follows the constructor
(`NewEngine`).

In `postprocess_image`, `width * height` is computed on `u32`. The model
takes the wrap-around of a release build (`PixelCount`, modulo 2^32). The
source indexes the tensor up to three times that count and panics on a
shorter tensor. `PostprocessImage` therefore requires a tensor that long.

## Model

| member | source | states |
|---|---|---|
| `StyleEngine.NewEngine` | image-style-transfer-nextjs/wasm-engine/src/lib.rs:38-88 | the engine holds exactly five style records, each with a 256x256 input, under pairwise distinct names |
| `StyleEngine.StyleOf` | image-style-transfer-nextjs/wasm-engine/src/lib.rs:122-145 | a name falls to the pass-through arm if and only if it is none of the five exact style names |
| `StyleEngine.Clamp` | image-style-transfer-nextjs/wasm-engine/src/lib.rs:125 | `f32::clamp`: the result lies in [lo, hi], equals x inside the range and the nearer bound outside it |
| `StyleEngine.Enhance` | image-style-transfer-nextjs/wasm-engine/src/lib.rs:122-146 | the Van Gogh and Monet values lie in [0,1] whatever sin and cos return, and the wildcard arm returns the element unchanged |
| `StyleEngine.Stylize` | image-style-transfer-nextjs/wasm-engine/src/lib.rs:119-148 | the output tensor has exactly as many elements as the input |
| `StyleEngine.RunInference` | image-style-transfer-nextjs/wasm-engine/src/lib.rs:115-148 | the loop pushes, for every index, the transformed element; an unrecognised style name returns the input tensor unchanged, element for element |
| `StyleEngine.RegisteredStylesAreRecognized` | image-style-transfer-nextjs/wasm-engine/src/lib.rs:42-145 | every registered style name reaches its own transform, never the pass-through arm, and no two registered names share a transform |
| `StyleEngine.ClampedStylesStayInUnitRange` | image-style-transfer-nextjs/wasm-engine/src/lib.rs:123-139 | every output element of "Van Gogh - Starry Night" and "Monet Impressionist" lies in [0,1] |
| `StyleEngine.ChannelScalingRules` | image-style-transfer-nextjs/wasm-engine/src/lib.rs:127-144 | for pixel k and channel c: Cyberpunk scales by 1.4 exactly on channel 2 and by 0.9 otherwise; Picasso scales by 0.8 on pixels with k % 16 < 8 and by 1.3 otherwise; Anime scales channels 0/1/2 by 1.1/0.95/1.05 |
| `StyleEngine.UnclampedStylesLeaveUnitRange` | image-style-transfer-nextjs/wasm-engine/src/lib.rs:127-144 | each unclamped style can leave [0,1]: a full blue channel comes out of Cyberpunk at 1.4, a full channel of pixel 8 out of Picasso at 1.3, and a full red channel out of Anime at 1.1 |
| `StyleEngine.UnclampedStylesKeepSign` | image-style-transfer-nextjs/wasm-engine/src/lib.rs:127-144 | Picasso, Cyberpunk and Anime map an all-zero tensor to itself and keep a non-negative tensor non-negative |
| `StyleEngine.PixelCount` | image-style-transfer-nextjs/wasm-engine/src/lib.rs:164-166 | the pixel count is width*height in u32 arithmetic: below 2^32, and the true product when that fits |
| `StyleEngine.ToByte` | image-style-transfer-nextjs/wasm-engine/src/lib.rs:167-169 | the byte is the integer part of the value scaled by 255 and clamped to [0,255] |
| `StyleEngine.RgbaBytes` | image-style-transfer-nextjs/wasm-engine/src/lib.rs:166-173 | n pixels give exactly 4n bytes |
| `StyleEngine.PostprocessImage` | image-style-transfer-nextjs/wasm-engine/src/lib.rs:163-176 | the output has 4*width*height bytes (u32 product); byte j is alpha 255 when j % 4 == 3 and otherwise the byte of tensor element 3*(j/4) + j%4 |
| `StyleEngine.RgbaLayout` | image-style-transfer-nextjs/wasm-engine/src/lib.rs:167-172 | for every pixel k, byte 4k+3 is 255 and byte 4k+c (c < 3) is the truncated, clamped value of tensor element 3k+c |
| `StyleEngine.ToByteSaturates` | image-style-transfer-nextjs/wasm-engine/src/lib.rs:167-169 | values at or below 0 give byte 0, values at or above 1 give byte 255, and the conversion is monotone |
| `StyleEngine.Normalize` | image-style-transfer-nextjs/wasm-engine/src/lib.rs:105-109 | the normalised tensor has one element per input byte |
| `StyleEngine.PostprocessInvertsNormalize` | image-style-transfer-nextjs/wasm-engine/src/lib.rs:105-172 | post-processing a tensor of normalised bytes p/255 gives back exactly the bytes p, with alpha 255 added |
| `StyleEngine.BlendFactor` | image-style-transfer-nextjs/wasm-engine/src/lib.rs:180 | the blend factor always lies in [0,1] |
| `StyleEngine.BlendImages` | image-style-transfer-nextjs/wasm-engine/src/lib.rs:179-184 | the blend has the length of the shorter input, because of the zip |
| `StyleEngine.StrengthIsClamped` | image-style-transfer-nextjs/wasm-engine/src/lib.rs:180 | a strength above 1 blends exactly like 1, and a strength below 0 exactly like 0 |
| `StyleEngine.BlendEndpoints` | image-style-transfer-nextjs/wasm-engine/src/lib.rs:180-183 | strength 0 returns the original and strength 1 the stylized tensor, both cut to the common length |
| `StyleEngine.BlendIsBetween` | image-style-transfer-nextjs/wasm-engine/src/lib.rs:180-183 | every blended element lies between its original and its stylized value |
| `StyleEngine.BlendHalfway` | image-style-transfer-nextjs/wasm-engine/tests/integration_tests.rs:15-23 | blending [0,.5,1] with [1,.5,0] at strength 0.5 gives three elements, the first of them 0.5 |
| `ModelGenerator.Contains` | image-style-transfer-nextjs/generate_models.py:42-123 | Python's `sub in s`; `ContainsAtSomeIndex` proves it true exactly when `sub` is the slice of `s` at some index |
| `ModelGenerator.ContainsAtSomeIndex` | image-style-transfer-nextjs/generate_models.py:42-123 | `sub in s` holds if and only if some index i has `s[i..i+len(sub)] == sub` |
| `ModelGenerator.NotContainedWithoutFirstChar` | image-style-transfer-nextjs/generate_models.py:42-123 | a keyword cannot occur in a name that lacks its first character |
| `ModelGenerator.LowerChar` | image-style-transfer-nextjs/generate_models.py:213 | a lowered character is never an ASCII capital, and anything else is left alone |
| `ModelGenerator.Lower` | image-style-transfer-nextjs/generate_models.py:213 | lowering keeps the length, leaves no ASCII capital and creates no space |
| `ModelGenerator.ReplaceAll` | image-style-transfer-nextjs/generate_models.py:213 | `str.replace` as a left-to-right, non-overlapping scan; its properties are stated by `ReplaceAllChars`, `ReplaceCharPointwise`, `ReplaceAllAbsent`, `ReplaceAllAtMatch`, `ReplaceAllSkip` and `ReplaceAllOnce` |
| `ModelGenerator.ReplaceAllAbsent` | image-style-transfer-nextjs/generate_models.py:213 | a string that lacks some character of the pattern is returned unchanged |
| `ModelGenerator.ReplaceAllAtMatch` | image-style-transfer-nextjs/generate_models.py:213 | at an occurrence of the pattern the replacement is emitted and the scan resumes after the occurrence |
| `ModelGenerator.ReplaceAllSkip` | image-style-transfer-nextjs/generate_models.py:213 | a prefix in which no occurrence can start is copied unchanged and the scan resumes after it |
| `ModelGenerator.ReplaceAllChars` | image-style-transfer-nextjs/generate_models.py:213 | every character after a replace comes from the input or from the replacement |
| `ModelGenerator.ReplaceCharPointwise` | image-style-transfer-nextjs/generate_models.py:213 | replacing one character by one character maps every position independently |
| `ModelGenerator.ReplaceAllOnce` | image-style-transfer-nextjs/generate_models.py:213 | a single occurrence of the pattern, with the pattern's telltale character nowhere else, is replaced exactly once and the rest is kept |
| `ModelGenerator.FileName` | image-style-transfer-nextjs/generate_models.py:213 | lower, replace " - " by "_", replace " " by "_", append ".onnx"; `FileNameIsWellFormed` and `StarryNightFileName` state its properties |
| `ModelGenerator.FileNameIsWellFormed` | image-style-transfer-nextjs/generate_models.py:213 | every derived file name ends in ".onnx" and contains neither a space nor an ASCII capital |
| `ModelGenerator.StarryNightFileName` | image-style-transfer-nextjs/generate_models.py:213 | "Van Gogh - Starry Night" becomes "van_gogh_starry_night.onnx", since " - " is replaced before " " |
| `ModelGenerator.BranchOf` | image-style-transfer-nextjs/generate_models.py:42-151 | the identity default is chosen if and only if none of the five keywords occurs in the name |
| `ModelGenerator.BranchIsFirstKeyword` | image-style-transfer-nextjs/generate_models.py:42-151 | the first keyword in the order Van Gogh, Picasso, Cyberpunk, Monet, Anime wins: a name selects keyword k's branch if and only if it contains keyword k and none of the keywords before it |
| `ModelGenerator.FirstKeywordBranch` | image-style-transfer-nextjs/generate_models.py:42-143 | a sufficient condition used for main's names: a name that starts with a keyword and lacks the first letter of every earlier keyword selects that keyword's branch |
| `ModelGenerator.MainStyleSelectsItsBranch` | image-style-transfer-nextjs/generate_models.py:202-208 | each of the five names in main selects its own branch, never the identity default |
| `ModelGenerator.MainGraphsAreStyled` | image-style-transfer-nextjs/generate_models.py:202-217 | every graph main builds has five nodes, with a Mul and an Add in the middle |
| `ModelGenerator.BranchNodes` | image-style-transfer-nextjs/generate_models.py:44-151 | a styled branch inserts a Mul node reading "normalized" and an Add node reading the Mul's output and writing "styled"; the default inserts a single Identity node from "normalized" to "styled" |
| `ModelGenerator.StyleGraph` | image-style-transfer-nextjs/generate_models.py:30-172 | the node list opens with normalize (Div, input -> normalized) and closes with clamp (Clip, styled -> clamped) and denormalize (Mul, clamped -> output); it has 5 nodes for a matched style and 4 for the identity default |
| `ModelGenerator.StyleGraphIsChain` | image-style-transfer-nextjs/generate_models.py:30-172 | the nodes form a linear chain: each has one input and one output, each reads what the node before it wrote, and no tensor is written twice |
| `ModelGenerator.CreateStyleTransferModel` | image-style-transfer-nextjs/generate_models.py:12-172 | the nodes appended along the if/elif chain are exactly the style's graph |
| `ModelGenerator.GenerateModel` | image-style-transfer-nextjs/generate_models.py:211-217 | one iteration of main's loop yields the derived file name and the style's graph |
| `ModelGenerator.GenerateModels` | image-style-transfer-nextjs/generate_models.py:194-221 | main produces one file name and one graph per style, in order |

## Left out

- `preprocess_image` is not modelled. It decodes the image and resizes it
  with Lanczos3, both inside the `image` crate. Only its per-byte
  normalisation (`p / 255`) is modelled, as `Normalize`, so that the round
  trip through `postprocess_image` can be stated.
- The simulated 200 ms delay in `run_inference` is not modelled. It awaits
  a JavaScript timer, and the error that await can return is not modelled
  either. `RunInference` returns the tensor directly.
- `console_log`, `get_styles` (serde serialisation to a JavaScript value) and
  the `wee_alloc` allocator are not modelled.
- IEEE `f32` rounding, NaN and infinities are not modelled: values are exact
  reals. On NaN, `clamp` and the `as u8` cast would behave differently.
  `i as f32` loses precision for large indices, and the model ignores that.
- `StyleEngine.Enhance`: says nothing about the Van Gogh and Monet values
  beyond the [0,1] clamp. `sin` and `cos` are arbitrary functions in the
  model, not the real trigonometric functions.
- `StyleEngine.PixelCount`: models the wrap-around of a release build. A
  debug build would panic on the overflow instead. The `width * height * 4`
  that only sizes the output's initial capacity is not modelled.
- The engine's `self` is unused by `run_inference`, `postprocess_image` and
  `blend_images`, so the model writes them as module-level members.
- ONNX specifics are not modelled: value infos, the numeric attributes of
  each node (the scale and offset constants, Clip's bounds, the 255 factor),
  `make_graph`/`make_model`, shape inference, and serialisation. Whether
  `make_node` accepts the `attrs` keyword the script passes belongs to the
  ONNX library, which is not part of this model.
- `main`'s directory creation, output-path joining, file writing, printing
  and exception handling are not modelled. `GenerateModels` takes the style
  list as a parameter, and `main`'s fixed list is `ModelGenerator.Styles`.
- `ModelGenerator.Lower`: lowers only the ASCII letters A–Z, one character
  at a time, so it keeps the length. Python's `str.lower` also lowers
  non-ASCII capitals, and can change the length: 'İ' becomes two code points.
- `ModelGenerator.LowerChar`: maps only A–Z to a–z and leaves every other
  character alone, unlike Python's full Unicode lowering.
- The engine registers model URLs and names such as
  `monet_impressionist.onnx`. The generator writes different file names,
  such as `monet_water_lilies.onnx`. No property is stated about this
  mismatch.
