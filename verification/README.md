# Spinning-cube ASCII grid: the pure core in Dafny

The program renders a rotating, colour-faced cube with WebGL, reads the
frame back as an RGBA byte buffer, and shows it as a grid of two-character
cells whose background is the pixel's colour. This project models the three
pure pieces of that pipeline and proves their properties:

- **`HexColor`**: `componentToHex` / `rgbToHex` (`src/gl.ts`). A channel is
  `Option<nat>`, where `None` is JavaScript's `undefined`. `Radix16` models
  `Number.prototype.toString(16)` on non-negative integers.
- **`CubeMesh`**: the constant mesh tables `cubePositions`, `cubeColors`
  and `cubeIndices`; the colour expansion `createColors`; the data that
  `initBuffers` uploads; and the 36-index draw call. Positions and colours
  are exact `real`s. `Uint16Array` conversion is reduction modulo 2^16.
- **`Seqs`**: `_.flatten` on a list of number lists, with the facts about
  flattening equal-length rows that the mesh proofs need.
- **`CellView`**: the byte offset `dataIndex` of pixel (x, y), the three
  channel reads, and the choice between the random text and the `"__"`
  placeholder in `Cell` (`src/components/cell.tsx`). It also models the
  buffer size that `getImageData` allocates. A read past the end of the
  `Uint8Array` gives `None`. The text `Math.random().toString(36).substring(7, 9)`
  is a parameter `random`. `IsRandomText` describes what it can be: at most
  two base-36 digits.
- **`Options`**: the `Option` datatype.

Each operation has a partner definition that its lemmas are checked against:

- the encoder has the decoder `DecodeHexColor`, and `Radix16` has `ParseHex`;
- `createColors` has the per-vertex reference list `PerVertexColors`;
- the index table has the per-face reference `FaceIndices`;
- `dataIndex` has its inverse `PixelOf`.

## Model

| member | source | states |
|---|---|---|
| HexColor.Radix16 | src/gl.ts:104 | `toString(16)` of n is a canonical lower-case hex numeral (no leading zero) that reads back as n |
| HexColor.Radix16OfParseHex | src/gl.ts:104 | every canonical hex numeral is `toString(16)` of the number it reads as, so Radix16 and ParseHex are inverse on canonical numerals |
| HexColor.Radix16Length | src/gl.ts:104-105 | `toString(16)` writes one digit exactly below 16, two exactly for 16..255, and three or more exactly from 256 |
| HexColor.ComponentToHex | src/gl.ts:103-106 | `undefined` gives "00"; a byte gives exactly two hex digits (high nibble, low nibble); below 16 the single digit is padded with one '0'; from 16 the digits are `toString(16)` unchanged; length 2 holds exactly for bytes and `undefined`; from 256 there are three or more digits and nothing is cut off |
| HexColor.PadHex | src/gl.ts:105 | the padding step: a one- or two-digit numeral comes out with exactly two digits, and a hex numeral keeps its value (a leading '0' adds nothing); `ComponentToHex` states the padded result in full |
| HexColor.ComponentToHexRoundTrip | src/gl.ts:103-106 | a byte component reads back as its value, and `undefined` reads back as 0 |
| HexColor.ComponentToHexOfParse | src/gl.ts:103-106 | every two-digit hex string is the encoding of the byte it reads as |
| HexColor.ComponentToHexZero | src/gl.ts:104-105 | a component is "00" exactly when it is 0 or `undefined` |
| HexColor.RgbToHex | src/gl.ts:108-110 | the result starts with '#' and is at least 7 characters; it is exactly 7 characters iff all three channels are bytes or `undefined`, and then it is '#' plus six hex digits |
| HexColor.RgbToHexSlices | src/gl.ts:108-110 | for byte channels, characters 1-2, 3-4 and 5-6 are the red, green and blue components |
| HexColor.RgbToHexRoundTrip | src/gl.ts:108-110 | decoding the colour of byte channels gives back (r, g, b), with `undefined` read as 0 |
| HexColor.DecodeHexColorRoundTrip | src/gl.ts:108-110 | every '#rrggbb' string is the colour of the bytes it decodes to |
| HexColor.RgbToHexInjective | src/gl.ts:108-110 | distinct byte triples give distinct colour strings |
| HexColor.RgbToHexUnclamped | src/gl.ts:104-110 | a channel of 256 or more is not clamped: the colour is longer than 7 characters and does not decode |
| HexColor.RgbToHexBlack | src/gl.ts:103-110 | the colour is "#000000" exactly when every channel is 0 or `undefined` |
| HexColor.RgbToHexExamples | src/gl.ts:103-110 | (0,0,0) gives "#000000", (255,0,0) gives "#ff0000", (undefined,255,128) gives "#00ff80" |
| HexColor.RgbToHexOverflowExample | src/gl.ts:104-109 | (256,0,0) gives the 8-character "#1000000" |
| Seqs.Flatten | src/gl.ts:125 | `_.flatten` of a list of number lists: every row fits in the result; `FlattenUniformLength`, `FlattenUniformAt` and `FlattenConcat` pin its length and its entries |
| Seqs.FlattenConcat | src/gl.ts:125 | flattening distributes over concatenation of row lists |
| Seqs.FlattenUniformLength | src/gl.ts:125 | flattening n rows of length k gives k * n entries |
| Seqs.FlattenUniformAt | src/gl.ts:125 | entry j of row v sits at position k * v + j of the flattened list |
| CubeMesh.FaceQuad | src/gl.ts:119-124 | the literal coordinate list of one face has 12 entries; `FaceQuadShape`, `FaceQuadOnPlane`, `FaceQuadPerimeter` and `FaceQuadWinding` state what the four corners are |
| CubeMesh.FaceQuads | src/gl.ts:125 | the six face lists, one per face; `FaceQuadsInOrder` pins their order to front, back, top, bottom, right, left |
| CubeMesh.CubePositions | src/gl.ts:118-127 | `cubePositions` holds 72 numbers, 24 vertices of 3; `CubePositionsShape` and `CubeVertexOfFace` pin each entry |
| CubeMesh.FaceQuadShape | src/gl.ts:119-124 | each face list has 12 coordinates, each 1 or -1 |
| CubeMesh.FaceQuadOnPlane | src/gl.ts:119-124 | the four vertices of a face share its fixed coordinate: front z = 1, back z = -1, top y = 1, bottom y = -1, right x = 1, left x = -1 |
| CubeMesh.FaceQuadPerimeter | src/gl.ts:119-124 | consecutive vertices of a face differ in exactly one coordinate, so the four go round the square's edge |
| CubeMesh.FaceQuadCornersDistinct | src/gl.ts:119-124 | the four vertices of a face are distinct |
| CubeMesh.FaceQuadWinding | src/gl.ts:119-124 | both triangles (0,1,2) and (0,2,3) of every face wind counter-clockwise seen from outside the cube |
| CubeMesh.FaceQuadsInOrder | src/gl.ts:125 | the flattened face lists are front, back, top, bottom, right, left, in that order |
| CubeMesh.CubePositionsShape | src/gl.ts:118-127 | `cubePositions` has 72 numbers (24 vertices of 3), each exactly 1 or -1 |
| CubeMesh.CubeVertexOfFace | src/gl.ts:118-127 | vertex v of `cubePositions` is corner v % 4 of face v / 4 |
| CubeMesh.VerticesOfQuads | src/gl.ts:125 | flattening any list of 12-coordinate quads puts corner v % 4 of quad v / 4 at vertex v |
| CubeMesh.CubeVerticesOnFaces | src/gl.ts:118-127 | every vertex v lies on the plane of face v / 4 |
| CubeMesh.CubeColors | src/gl.ts:129-137 | `cubeColors` holds one colour per face; `CubeColorsShape` gives their arity, range and alpha |
| CubeMesh.CubeColorsShape | src/gl.ts:129-137 | six colours, one per face, of four components in [0, 1], each with alpha 1.0 |
| CubeMesh.CreateColors | src/gl.ts:150-152 | `createColors(fc)` has 4 times as many numbers as fc holds in total; `CreateColorsExpands` pins its contents to the per-vertex reference list |
| CubeMesh.AppendFourTimes | src/gl.ts:151 | the reduce step `acc.concat(c, c, c, c)` only appends: the starting list is a prefix of the result; `AppendFourTimesExpands` says what is appended |
| CubeMesh.CreateColorsExpands | src/gl.ts:150-152 | `createColors(fc)` equals the flattening of the reference list that gives vertex v the colour fc[v / 4] |
| CubeMesh.AppendFourTimesExpands | src/gl.ts:151 | the left fold `acc.concat(c, c, c, c)` from any starting list appends the per-vertex colours to it |
| CubeMesh.VertexColorsOf | src/gl.ts:150-152 | for RGBA face colours, group v of `createColors(fc)` is fc[v / 4] |
| CubeMesh.OpaqueVertexColors | src/gl.ts:150-152 | opaque face colours give every vertex alpha 1.0 |
| CubeMesh.CubeVertexColors | src/gl.ts:129-152 | the expanded cube colours are 96 numbers (24 RGBA vertices), vertex v has face v / 4's colour and alpha 1.0 |
| CubeMesh.MeshAlignment | src/gl.ts:118-152 | positions and expanded colours describe the same 24 vertices in the same order: vertex v lies on face v / 4 and has that face's colour |
| CubeMesh.IndexTable | src/gl.ts:140-145 | the six literal index lists, one per face; `IndexTableByFace` equates list k with the reference `FaceIndices(k)` |
| CubeMesh.CubeIndices | src/gl.ts:139-148 | `cubeIndices` holds exactly the 36 indices the draw call reads; `CubeIndicesByFace` lays them out face by face |
| CubeMesh.FaceIndicesCoverFace | src/gl.ts:140-145 | face k's six indices lie in 4k .. 4k+3 and cover all four; the triangles are {4k, 4k+1, 4k+2} and {4k, 4k+2, 4k+3} |
| CubeMesh.IndexTableByFace | src/gl.ts:140-145 | the literal list for face k is [4k, 4k+1, 4k+2, 4k, 4k+2, 4k+3] |
| CubeMesh.CubeIndexAt | src/gl.ts:139-148 | entry 6k + m of `cubeIndices` is entry m of face k's reference list |
| CubeMesh.CubeIndicesByFace | src/gl.ts:139-148 | `cubeIndices` has 36 entries laid out face by face as the reference lists |
| CubeMesh.CubeIndicesInRange | src/gl.ts:139-148 | every index is below 24, so it names one of the 24 vertices |
| CubeMesh.CubeTriangles | src/gl.ts:139-148 | read as triangles, `cubeIndices` is 12 triangles; triangle t is (4k, 4k+1+h, 4k+2+h) for k = t / 2 and h = t % 2, so it has three distinct vertices of face k |
| CubeMesh.TrianglesByFace | src/gl.ts:139-148 | any 36-entry list laid out face by face has those 12 triangles |
| CubeMesh.TriangleWinds | src/gl.ts:118-148 | a triangle made of corners (0,1,2) or (0,2,3) of a quad winds as the quad does |
| CubeMesh.QuadMeshWinds | src/gl.ts:118-148 | for any six outward-winding quads, flattened and indexed face by face as `cubeIndices` is, each of the 12 triangles has three increasing in-range vertices and winds outwards through its own face t / 2 |
| CubeMesh.FaceQuadsWindOut | src/gl.ts:118-125 | each of the six face lists of `cubePositions` winds outwards through its face |
| CubeMesh.CubeTrianglesWindOut | src/gl.ts:118-148 | every triangle t of `cubeIndices`, read on `cubePositions`, is counter-clockwise seen from outside the cube: its normal points out through face t / 2 |
| CubeMesh.ToUint16Array | src/gl.ts:167 | `new Uint16Array` keeps the length and maps each integer to the unique value in [0, 65536) congruent to it modulo 2^16 |
| CubeMesh.ToUint16ArrayKeepsSmall | src/gl.ts:167 | values already in [0, 65536) are unchanged |
| CubeMesh.InitBuffers | src/gl.ts:154-169 | the uploaded data: 72 position numbers (24 vertices), 96 colour numbers (24 vertices) and 36 indices; `InitBuffersDrawable` pins the index buffer and its bounds |
| CubeMesh.InitBuffersDrawable | src/gl.ts:154-169 | the uploaded index buffer equals `cubeIndices` (nothing wraps); it holds exactly the 36 indices the draw call reads; the 36 indices are whole triangles, each naming a vertex that both the 3-component position buffer and the 4-component colour buffer hold, for the draw of 36 indices at src/gl.ts lines 224-227 |
| CellView.ImageDataSize | src/gl.ts:113 | the snapshot buffer holds a whole number of RGBA pixels, exactly w * h of them |
| CellView.DataIndex | src/components/cell.tsx:7 | `dataIndex` is a multiple of 4 and is 4 times the row-major pixel number y * w + x; `PixelOfDataIndex` and `WindowsDisjoint` make it invertible |
| CellView.DataIndexInBounds | src/components/cell.tsx:7-10 | for x < w and y < h, the reads at dataIndex .. dataIndex+3 lie inside the w * h * 4 bytes that `getImageData` allocates (src/gl.ts line 113) for a drawing buffer of the grid's w × h |
| CellView.PixelOfCovers | src/components/cell.tsx:7 | every offset i is byte i % 4 of the window of pixel `PixelOf(i)`; an offset inside the buffer belongs to an in-grid pixel |
| CellView.PixelOfDataIndex | src/components/cell.tsx:7 | byte c of pixel (x, y)'s window maps back to (x, y) |
| CellView.WindowsDisjoint | src/components/cell.tsx:7 | windows of distinct in-grid pixels are disjoint, so (x, y) to dataIndex is injective |
| CellView.WindowOwner | src/components/cell.tsx:7 | the windows tile [0, w * h * 4): each offset is byte i % 4 of exactly one in-grid pixel's window |
| CellView.ReadByte | src/components/cell.tsx:8-10 | a `Uint8Array` read is a byte or `undefined` |
| CellView.Channels | src/components/cell.tsx:8-10 | the three reads at dataIndex, +1, +2 are bytes or `undefined`; each is defined exactly when its offset is inside the buffer, and then it is the byte stored there |
| CellView.CellText | src/components/cell.tsx:13 | the text is the random text or "__", and it is "__" exactly when the colour is "#000000" or the random text is "__" |
| CellView.Cell | src/components/cell.tsx:7-13 | the colour is always '#' plus six hex digits and decodes to the three reads (`undefined` as 0); the text is "__" iff the colour is "#000000" or the random text is "__"; otherwise it is the random text |
| CellView.PlaceholderIffBlack | src/components/cell.tsx:12-13 | for any genuine random text, the text is "__" exactly when the colour is "#000000" |
| CellView.CellBlackIff | src/components/cell.tsx:8-12 | the colour is "#000000" exactly when each of the three reads is 0 or past the end of the buffer |
| CellView.ShortBufferCell | src/components/cell.tsx:8-13 | when the buffer is empty (as the initial empty `Uint8Array` of src/components/table.tsx line 12 is) or ends at or before `dataIndex`, the cell is "#000000" with text "__" |
| CellView.CellReadsOnlyItsPixel | src/components/cell.tsx:8-12 | the cell depends only on the red, green and blue bytes of its pixel |
| CellView.CellIgnoresAlpha | src/components/cell.tsx:8-12 | overwriting the alpha byte does not change the cell |
| CellView.FullSnapshotCell | src/components/cell.tsx:7-12 | in a full w × h snapshot, every in-grid cell's colour decodes to exactly its pixel's red, green and blue bytes |

## Left out

- WebGL and canvas setup are not modelled: creating the context, compiling shaders, linking the program, looking up locations, creating and binding buffers. These are GPU and DOM side effects. Only the data `initBuffers` uploads is modelled (`InitBuffers`).
- `drawScene` is not modelled: clearing, the projection and model-view matrices, and the `cubeRotation` accumulator. This is floating-point matrix work in an external library, plus mutation of a module global. Only the draw call's index count and index type are used.
- `readPixels` in `getImageData` is not modelled. It is a blocking GPU read. Only the buffer size `w * h * 4` is used, as `ImageDataSize`.
- The shader source strings are not modelled. They are opaque GLSL text.
- `Float32Array` rounding is not modelled. Positions and colours are exact reals. The positions are ±1, so Float32 holds them exactly. The colour fractions such as 163/255 are compared only for count, arity, range and alpha.
- Channels that are negative or fractional numbers are not modelled. `Cell` only ever passes `Uint8Array` reads, which are bytes or `undefined`. `toString(16)` of such numbers (a '-' sign, a fraction point) is outside the model.
- The drawing buffer is taken to be the grid's w × h pixels. `getImageData` allocates `drawingBufferWidth * drawingBufferHeight * 4` bytes (src/gl.ts:113), while `Cell` indexes with the grid width `w` (src/components/line.tsx:11). `src/components/table.tsx` passes the same 50 × 50 to `initGl` and to the grid (lines 6-9), but a browser may give a smaller drawing buffer than the canvas asks for (src/gl.ts:83-84). `ImageDataSize`, `DataIndexInBounds`, `WindowOwner`, `PixelOfCovers` and `FullSnapshotCell` use one pair w, h for both. With a smaller drawing buffer only `ShortBufferCell`, `CellBlackIff`, `CellReadsOnlyItsPixel` and `Cell` itself still describe what is drawn.
- `Math.random` is not modelled. The random cell text is the parameter `random`.
- The React elements are not modelled: the `span` with its style and class name, and the row and table components (`src/components/line.tsx`, `src/components/table.tsx`). They are UI glue; in particular the grid enumeration x < w, y < h is taken as the range of the cell lemmas.
- The `Buffers` class constructor's `position: string` parameter (`src/gl.ts:39`) is not modelled. It is a type-annotation slip that is never exercised, because `initBuffers` returns an object literal.
