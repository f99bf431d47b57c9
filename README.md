# Comic bubble editor: a verified model of its core

The editor places speech, thought, shout and combo bubbles over a comic page. It is a single
browser script, `src/main.js`. This project models in Dafny the parts of that script that are
plain computation, and proves what they promise:

- **The layered-document (PSD) export.** The file is written following the Adobe Photoshop File
  Formats Specification. It holds the File Header section, empty Color Mode Data and Image
  Resources sections, the Layer and Mask Information section and the Image Data section.
  - The writers fill zero-initialised byte buffers through an offset cursor. They are modelled as
    methods over `array<byte>`.
  - Each writer is proved equal to a byte-sequence function.
  - Layout lemmas say where a reader finds each field. They also show that every length field
    agrees with the bytes it describes.
  - The layer list (`buildLayers`) is modelled with the pixels of each layer abstract.
- **The text pipeline.**
  - Cleaning typed text (`pro5_sanitizeText`).
  - The character-budget wrap for Chinese text and the greedy width wrap. The width wrap takes the
    text measurement as a parameter.
  - The padding presets and the text rectangle.
  - The two auto-fit operations, which grow a bubble's height to its measured text.
- **Bubble box and tail arithmetic over exact reals.**
  - Box-relative coordinates and the bubble ellipses.
  - Default tails and dragging the tail tip.
  - Resizing through a handle, handle positions and the selection overlay.
  - The rounded-rectangle corner radius and the fit of the shout-burst outline into the box.
- **Seam bookkeeping.**
  - The collection of overlap runs along a sampled ellipse (`pro5_sampleOverlapRanges`). It works
    over given inside/outside flags, or over cosine and sine tables.
  - The pairs of rectangles that get seams, and the arcs drawn for combo bubbles.
- **The document and its undo history.**
  - Inserting and removing bubbles, with the id counter.
  - Pushing onto and undoing the history; snapshots are opaque values.

Bubbles and the document are classes whose methods update fields in place, as the script does.
The code works on one JavaScript number type. Byte fields are modelled as integers reduced
explicitly modulo 2^16 or 2^32, and geometry as exact reals.

Files, one module each:

- `options.dfy`: Option.
- `seqs.dfy`: flattening and slicing of sequences.
- `bytes.dfy`: big-endian writers and buffer concatenation.
- `psd.dfy`: the PSD serializer.
- `layers.dfy`: the layer list.
- `geometry.dfy`: box, ellipse and tail arithmetic.
- `text.dfy`: the text pipeline.
- `bubbles.dfy`: the bubble class.
- `seams.dfy`: seams.
- `document.dfy`: document and history.

## Model

| member | source | states |
|---|---|---|
| Bytes.BE32 | src/main.js:2527-2532 | The four bytes of a 32-bit field read back, big-endian, as the value modulo 2^32 |
| Bytes.BE16 | src/main.js:2270-2284 | The two bytes of `setUint16` read back as the value modulo 2^16 |
| Bytes.Int16Bytes | src/main.js:2534-2538 | `writeInt16` stores the same bytes as an unsigned 16-bit write of the value; any value in [-32768, 32767], -1 included, reads back as itself when read as signed |
| Bytes.WriteUint32 | src/main.js:2527-2532 | Exactly the four bytes at the offset change, and they become the big-endian bytes of the value |
| Bytes.WriteInt16 | src/main.js:2534-2538 | Exactly the two bytes at the offset change, to the two's-complement bytes of the value |
| Bytes.WriteUint16 | src/main.js:2270-2284 | Exactly the two bytes at the offset change, to the big-endian bytes of the value |
| Bytes.CopyInto | src/main.js:2515-2526 | `set(src, offset)` replaces the bytes at the offset by `src` and leaves every other byte as it was |
| Bytes.ConcatBytes | src/main.js:2515-2526 | The result is the arrays one after another, and its length is the sum of their lengths |
| Psd.CreatePsdHeader | src/main.js:2270-2284 | The header buffer equals the 26-byte header sequence |
| Psd.HeaderLayout | src/main.js:2270-2284 | The header is 26 bytes. It starts with "8BPS", then version 1 and six zero bytes. It gives 4 channels, the height at offset 14, the width at offset 18, depth 8 and colour mode 3 |
| Psd.Utf8Char | src/main.js:2473-2482 | One character encodes to 1 to 4 bytes. ASCII is one byte equal to its code, and a longer encoding is a lead byte followed by continuation bytes |
| Psd.Utf8 | src/main.js:2473-2482 | The encoded name has between 1 and 4 bytes per character |
| Psd.Utf8CharDecodes | src/main.js:2473-2482 | The lead byte of a character's encoding announces the encoding's length, and the bytes decode to the character's code point |
| Psd.Utf8RoundTrip | src/main.js:2473-2482 | Decoding the encoded name gives back its code points, one per character, in order |
| Psd.Utf8Injective | src/main.js:2473-2482 | Two names with the same encoding are the same name |
| Psd.PascalString | src/main.js:2473-2482 | The first byte is min(255, encoded length), followed by that many bytes of the name, then zeros. The whole string is a multiple of 4 bytes long, with at most 3 pad bytes |
| Psd.InterleavePlanes | src/main.js:2458-2471 | Splitting an RGBA buffer into four planes and interleaving them again gives the buffer back |
| Psd.PlanesInterleave | src/main.js:2458-2471 | Interleaving four planes and splitting again gives the planes back |
| Psd.CanvasToChannels | src/main.js:2458-2471 | Channel k holds byte k of every pixel: `channels[k][i] == rgba[4i + k]` |
| Psd.EncodeCompositeImage | src/main.js:2499-2513 | The composite is the 2-byte raw-compression header followed by the four planes |
| Psd.PlanarPixels | src/main.js:2504-2511 | The pixel loop leaves plane after plane in the buffer |
| Psd.WritePixel | src/main.js:2506-2511 | One loop turn adds the four bytes of pixel i to the state after i turns |
| Psd.CompositeLayout | src/main.js:2499-2513 | The composite is 2 + 4·w·h bytes and starts with compression 0. Also `out[2 + k·n + i] == rgba[4i + k]` |
| Psd.ChannelEntries | src/main.js:2399-2405 | Four entries with ids 0, 1, 2, -1, paired with the R, G, B and A planes |
| Psd.ChannelInfo | src/main.js:2420-2427 | The channel information is 6 bytes per channel |
| Psd.ChannelInfoAt | src/main.js:2422-2427 | At 6·k in the channel information are channel k's id as 16 bits, then its data length + 2 as 32 bits |
| Psd.BoundsBytes | src/main.js:2411-2419 | The bounds are 16 bytes |
| Psd.BlendBytes | src/main.js:2428-2435 | The blend fields are 12 bytes |
| Psd.ExtraBytes | src/main.js:2436-2443 | The extra data is 12 bytes plus the name |
| Psd.ChannelBlock | src/main.js:2447-2453 | A channel data block is 2 + plane length bytes, with compression 0 followed by the plane |
| Psd.Blocks | src/main.js:2447-2453 | One block per channel, in channel order |
| Psd.BuildRasterLayer | src/main.js:2397-2456 | The layer built from a canvas equals the layer function of its name and pixels |
| Psd.WriteChannelBlock | src/main.js:2447-2453 | The block written equals the channel block |
| Psd.WriteChannelInfo | src/main.js:2422-2427 | After the loop the record holds its earlier bytes, then the channel information, with zeros after |
| Psd.WriteLayerRecord | src/main.js:2406-2445 | The record buffer is exactly bounds, count, channel information, blend fields and extra data; its allocated length leaves no spare byte |
| Psd.WriteBounds | src/main.js:2411-2419 | The first 16 bytes of the record become the bounds |
| Psd.WriteBlend | src/main.js:2428-2435 | The next 12 bytes become "8BIM", "norm", 255, 0, 0, 0 |
| Psd.WriteExtra | src/main.js:2436-2443 | The next bytes become the extra length, two zero lengths and the name |
| Psd.BoundsLayout | src/main.js:2411-2419 | The bounds read as top 0, left 0, bottom = height, right = width |
| Psd.ExtraLayout | src/main.js:2436-2443 | The extra length reads 8 + name length, followed by two zero lengths and the name |
| Psd.LayerRecordLayout | src/main.js:2406-2445 | A four-channel record is 66 + name bytes long. The lemma gives each field at its offset: bounds, count 4, channel ids and lengths, blend fields, extra length, and the name at 66 |
| Psd.LayerRecordChannels | src/main.js:2419-2427 | Each of the four channel entries sits 6 bytes after the previous one, starting at offset 18: its id as a big-endian 16-bit value, then its data length plus 2 as a big-endian 32-bit value |
| Psd.RasterLayerLayout | src/main.js:2397-2456 | A raster layer is self-describing. Its bounds are the raster size and its count is 4. Channel ids read back 0, 1, 2, -1. Each declared length equals its data block's length, and each block is two zero bytes followed by plane k. The name is the Pascal string of the UTF-8 name |
| Psd.PlanesLayerLayout | src/main.js:2397-2456 | The same, over a pixel count given as a number |
| Psd.PlaneChannelLayout | src/main.js:2397-2456 | Channel k's record fields agree with channel k's data block |
| Psd.ChannelIdAt | src/main.js:2422-2424 | A channel id written with `setInt16` reads back as itself, so -1 is stored as 0xFFFF |
| Psd.Records | src/main.js:2288 | The records of the layers, in layer order |
| Psd.LayerInfoLength | src/main.js:2291-2294 | The layer info length is 2 + records + channel data, rounded up to even |
| Psd.SectionHead | src/main.js:2296-2302 | The section starts with 10 bytes: two lengths and the count |
| Psd.SectionBody | src/main.js:2303-2311 | Records, channel data and pad byte together are the layer info length minus the 2-byte count |
| Psd.CreateLayerInfoSection | src/main.js:2286-2314 | The section equals the section function over the concatenated records and the concatenated channel blocks |
| Psd.WriteSection | src/main.js:2291-2314 | The buffer written equals the section bytes of the count and the two buffers |
| Psd.WriteSectionHead | src/main.js:2296-2302 | The first 10 bytes become the total length, the layer info length and the count |
| Psd.WriteSectionBody | src/main.js:2303-2311 | The records, then the channel data, then a zero byte if the layer info would be odd. Returns the offset reached |
| Psd.SectionLengths | src/main.js:2286-2314 | The first field is the section length minus 4, and the second is the length of the (even) layer info. The section ends in four zero bytes, and a count that fits reads back at offset 8 |
| Psd.SectionContents | src/main.js:2286-2314 | The records start at offset 10 and the channel data follows them. Every byte after that is zero, and there are 4 or 5 of them |
| Psd.BuildPsdDocument | src/main.js:2236-2268 | The file buffer equals header, two zero lengths, layer section and composite, in that order |
| Psd.DocumentLayout | src/main.js:2236-2268 | The file is 26 + 8 + section + 2 + 4·w·h bytes, and bytes 26-33 are zero. The section starts at 34, and its declared length leads exactly to the composite image data |
| Psd.DocumentWalk | src/main.js:2236-2268 | The offsets of the four parts in the concatenated file |
| LayerPlan.TextLayers | src/main.js:2322-2325 | At most one text layer per bubble |
| LayerPlan.TextLayersAreBubblesWithText | src/main.js:2322-2325 | The text layers are exactly the bubbles with non-empty text, in bubble order. Each is named "文字-" + id and drawn from that bubble |
| LayerPlan.WithTextContains | src/main.js:2322-2325 | Every bubble with text gets a text layer |
| LayerPlan.WithTextWithin | src/main.js:2322-2325 | Every text layer comes from a bubble with text |
| LayerPlan.PlanShape | src/main.js:2316-2327 | The image layer comes first exactly when there is an image. The bubble layer exists exactly when there is a bubble, and comes next. The text layers follow |
| LayerPlan.PlanNamesDistinct | src/main.js:2316-2327 | With distinct bubble ids, all layer names are distinct |
| LayerPlan.TextLayerNames | src/main.js:2394 | Text layer names are pairwise distinct and start with "文字-" |
| LayerPlan.WithTextDistinct | src/main.js:2322-2325 | Keeping the bubbles with text keeps ids distinct |
| LayerPlan.BuildLayers | src/main.js:2316-2327 | Layer i is the raster layer of the i-th planned layer's name and pixels |
| LayerPlan.PushTextLayers | src/main.js:2322-2325 | Appends one raster layer per bubble with text, in bubble order |
| Geometry.Clamp | src/main.js:2079-2081 | The result lies in [lo, hi] when that interval is non-empty. A value already inside is unchanged; one below goes to lo and one above to hi |
| Geometry.NormAbsRoundTrip | src/main.js:357-369 | `absToNorm(normToAbs(p)) == p` on a box of non-zero size |
| Geometry.AbsNormRoundTrip | src/main.js:357-369 | `normToAbs(absToNorm(q)) == q` on a box of non-zero size |
| Geometry.NormToAbsInside | src/main.js:357-362 | A relative point in the unit square lands inside the box |
| Geometry.EllipseFromBubble | src/main.js:371-378 | The centre is the box centre and the radii are at least 8. When a radius exceeds the floor, the ellipse is inset from the box by max(1, stroke/2) |
| Geometry.InscribedEllipse | src/main.js:1559-1565 | The centre is the box centre and the radii are at least 1. A side of at least 2 makes the ellipse touch the box on that axis |
| Geometry.EllipseFShape | src/main.js:1567-1571 | The implicit function is -1 at the centre, which is its least value, and 0 at the four axis ends |
| Geometry.EllipseFSymmetric | src/main.js:1567-1571 | Reflecting a point through the centre leaves the value unchanged |
| Geometry.DefaultTail | src/main.js:794-823 | Combo, shout and non-speech/thought kinds get no tail. Every speech or thought kind gets one of the right shape, anchored on the box edge, except speech-pro-5deg, which gets the fixed-angle default |
| Geometry.TailBase | src/main.js:1182-1192 | A tail has a base exactly when it exists, and an anchor on the edge puts the base on the box |
| Geometry.TailTip | src/main.js:1194-1205 | A tail has a tip exactly when it exists |
| Geometry.RetargetTail | src/main.js:1207-1229 | The retargeted tail exists exactly when the old one did, and still fits the bubble kind |
| Geometry.RetargetTailTip | src/main.js:1207-1229 | After `setTailTip(x, y)` on a box of non-zero size, `getTailTip` is exactly (x, y) |
| Geometry.AnchoredTip | src/main.js:1226-1228 | An offset computed from the base to (x, y) puts the tip at (x, y) |
| Geometry.RetargetTailAnchor | src/main.js:1207-1229 | The anchor snaps to the side facing the point (0 or 1), and its other coordinate lies in [0.15, 0.85]. A fixed-angle tail keeps its angle and aim |
| Geometry.ResizedBox | src/main.js:1152-1180 | The side opposite the handle stays put. The handle's side moves by the drag delta, down to the minimum size. An axis the handle does not touch keeps its position and size |
| Geometry.ResizeKeepsMinimum | src/main.js:1152-1180 | A resize keeps both sides at least 80 |
| Geometry.HandlePosition | src/main.js:2005-2038 | A handle sits on the box grown by 28: left or right for w or e handles, top or bottom for n or s, centred on an axis it does not name |
| Geometry.OverlayRect | src/main.js:1854-1876 | The overlay holds the body and the tail tip with a margin of 28 on every side. Each of its sides is attained by the body or the tip |
| Geometry.CornerRadius | src/main.js:1813-1826 | The radius is at most the requested one and half of each side, and equals one of the three |
| Geometry.ScanBounds | src/main.js:838-839 | The scan returns the bounding box of the points, each bound attained by some point |
| Geometry.FitCoordWithin | src/main.js:840-842 | The affine fit maps [lo, hi] onto [start, start + size], end to end and order-preserving |
| Geometry.FitCoordFlat | src/main.js:840-842 | With no extent, the fallback divisor 1 puts every point on the starting side |
| Geometry.FitCoordAffine | src/main.js:840-846 | The offset-and-scale form `o + v·s` is the affine map that sends [lo, hi] onto [start, start + size]: the distance from the start side is the distance from lo times size/(hi - lo), and a flat axis lands on the start side |
| Geometry.FitDetermined | src/main.js:838-847 | The bounds of the points are unique, and with them the affine relation fixes the outline: two outlines fitted from the same points to the same box are equal |
| Geometry.FitOne | src/main.js:840-842 | For one axis, in both the spread and the flat case: inside the box and order-preserving |
| Geometry.FitAxes | src/main.js:840-847 | Each fitted point is its source point under the affine map x ↦ b.x + (x - minX)·w/(maxX - minX), and likewise for y, with a flat axis mapped to the start side. So every point is inside the box, in the order of the original points, and on an axis with spread both sides are touched |
| Geometry.FitTouchesX | src/main.js:840-847 | Points that differ in x reach both the left and the right side |
| Geometry.FitTouchesY | src/main.js:840-847 | Points that differ in y reach both the top and the bottom side |
| Geometry.FitOutline | src/main.js:838-847 | One outline point per input point, each the image of its input point under the affine map that sends the bounds of the points onto the box. So the outline lies inside the box, keeps left-to-right and top-to-bottom order, and spans the box on every axis with spread |
| Geometry.ShoutOutline | src/main.js:826-848 | The outline is the 43 burst points, each mapped by the affine map that sends their bounds onto the bubble box. It lies inside the box and touches all four of its sides |
| Text.Strip | src/main.js:466 | Deleting the characters of a class leaves none of them and never lengthens the text |
| Text.StripCounts | src/main.js:466 | Every character outside the class is kept exactly as often as it occurs |
| Text.StripAppend | src/main.js:466 | Deleting works piece by piece, so the kept characters stay in their order |
| Text.RemoveZeroWidth | src/main.js:466 | No U+200B..U+200D or U+FEFF remains, and every other character is kept as often as it occurs |
| Text.NormalizeBreaks | src/main.js:467 | No carriage return remains |
| Text.NormalizeBreaksKeepsText | src/main.js:467 | Everything but line breaks is kept, in order, and each "\r\n" pair becomes a single character |
| Text.TrimStart | src/main.js:469 | The result is a suffix of the input that does not start with `\s`, and everything cut off before it is `\s` |
| Text.TrimEnd | src/main.js:469 | The result is a prefix of the input that does not end with `\s`, and everything cut off after it is `\s` |
| Text.TrimKeepsText | src/main.js:469 | Trimming both ends deletes only `\s` characters |
| Text.CollapseBlanksShape | src/main.js:468 | After collapsing there is no tab, no U+3000 and no double space. The result starts with a space only when the input starts with a blank |
| Text.DropBlanksRun | src/main.js:468 | A leading run of blanks counts as one run and holds no other character |
| Text.CollapseBlanksKeepsText | src/main.js:468 | Every character but the blanks is kept, in order, and exactly one character stands for each run of blanks |
| Text.Sanitize | src/main.js:464-471 | For every input, the cleaned text has no zero-width character, no CR, no tab or U+3000, no double space, and no whitespace at either end |
| Text.SanitizeKeepsText | src/main.js:464-471 | Cleaning deletes only zero-width characters and whitespace: the other characters all stay, in order |
| Text.SanitizeIdempotent | src/main.js:464-471 | Cleaning a cleaned text changes nothing |
| Text.ToInt32 | src/main.js:452 | `v \| 0` is a 32-bit value and leaves values already in range unchanged |
| Text.Budget | src/main.js:452 | The budget lies in [4, 10] and equals the argument when that is already in range |
| Text.WrapChinese | src/main.js:451-462 | Concatenating the lines gives back the text, and no line is empty. A punctuation mark appears only as the last character of its line. A line ending in punctuation holds fewer than the budget of other characters; any other line holds exactly the budget, except that the last line may hold fewer |
| Text.ChineseStep | src/main.js:455-459 | One character keeps the loop invariant. Emitted lines plus the buffer grow by that character |
| Text.SplitLines | src/main.js:515 | `split('\n')` gives at least one piece, and no piece holds a line break |
| Text.SplitJoin | src/main.js:515 | Joining the pieces with line breaks gives the text back |
| Text.SplitLinesBreak | src/main.js:515 | A line break at the end of the text opens a new, empty piece |
| Text.SplitLinesExtend | src/main.js:515 | Any other character at the end extends the last piece |
| Text.WrapByWidth | src/main.js:513-531 | With wrapping off, the lines are the cleaned text split at its breaks, at least one of them. With it on, the lines fall into one run per piece between line breaks. Each run concatenates to its piece, and every piece but the last gives at least one line. Every line of 2 or more characters fits the width |
| Text.GreedyWrap | src/main.js:517-530 | The lines concatenate to the text without its breaks. They fall into one run per piece of `split('\n')`, each run concatenating to its piece, so every line break ends a line. No line of 2 or more characters is wider than the limit |
| Text.WrapChar | src/main.js:519-527 | A line break pushes the current line and empties it. Any other character leaves the lines already out unchanged and carries the current line on by that character. Every line keeps fitting |
| Text.Round | src/main.js:70 | `Math.round` gives the integer within half of the value, halves rounding up |
| Text.Ceil | src/main.js:566 | `Math.ceil` gives the least integer at or above the value |
| Text.PresetPadding | src/main.js:63-71 | For a bubble, the preset padding has 4 <= padY <= padX |
| Text.PresetPaddingMonotone | src/main.js:63-71 | Of the presets 1, 3 and 5, a looser preset never gives less padding |
| Text.TextRect | src/main.js:1329-1361 | The text rectangle is at least 20 by 20, and centred in the box on any axis above that floor. For every kind but the shout burst it is inset by at least 24 |
| Text.FitToTextHeight | src/main.js:1250-1258 | The height never decreases and then holds the text with twice the top padding. It changes exactly when ceil(text + 2·padY) exceeds the current height, and then becomes exactly that value |
| Text.GrowHeightOnText | src/main.js:563-567 | The height never decreases. It changes exactly when the text is taller than its rectangle and ceil(text + 2·padY) exceeds the height, and then becomes exactly that value. A text taller than its rectangle gets at least the text plus twice the top padding |
| Text.AutoFitMakesRoom | src/main.js:1231-1260 | For every kind but the shout burst, the grown box's text rectangle is tall enough for the text |
| Text.ShoutFitFallsShort | src/main.js:1329-1345 | A shout burst grown once can still be too low for its text, so fitting again grows it again |
| Bubbles.Bubble.constructor | src/main.js:773-789 | The new bubble has exactly the given id, kind, box, padding, stroke, font, text and tail |
| Bubbles.Bubble.SetTailTip | src/main.js:1207-1229 | Only the tail changes, to the retargeted tail, and the tip then sits at the point. A bubble without a tail is left alone |
| Bubbles.Bubble.AnchorFor | src/main.js:1213-1225 | The anchor snaps to the side facing the point, with its other coordinate clamped to [0.15, 0.85] |
| Bubbles.Bubble.ApplyResize | src/main.js:1152-1180 | The box becomes the start box resized through the handle, and stays at least 80 each way. A tail snapshot, if any, is put back. Padding, stroke, text and font are unchanged |
| Bubbles.Bubble.AutoFitToText | src/main.js:1231-1260 | Only the height changes: position, width, tail, padding, stroke, font and text stay. The height never decreases; it becomes the text plus twice the top padding when that is more. For every kind but the shout burst the text then fits |
| Bubbles.Bubble.AutoFitHeightOnText | src/main.js:555-569 | Only the height changes: position, width, tail, padding, stroke, font and text stay. The height never decreases. It changes only when the measured text is taller than the text rectangle |
| Seams.Prev | src/main.js:1628 | `(i - 1 + n) % n` is the index before i, wrapping from 0 to n - 1 |
| Seams.ScanToInv | src/main.js:1627-1631 | The collecting loop keeps its invariant. Closed runs are maximal, ordered and already ended. An open run is all inside since its start. The covered samples are exactly those reached so far |
| Seams.CollectedRangesShape | src/main.js:1625-1633 | After the loop and the closing of an open run, the runs are maximal and ordered. They cover exactly the reached samples |
| Seams.NormalizeIsIdentity | src/main.js:1635 | The final normalisation never changes a run, because every run starts no later than it ends |
| Seams.OverlapRangesSpec | src/main.js:1613-1636 | Each range has start <= end, is inside throughout and follows an outside sample cyclically. Ranges are increasing with outside samples between them. A sample is covered exactly when it is inside, except for a run from sample 0 while the last sample is inside, which is dropped |
| Seams.FirstRange | src/main.js:1627-1631 | The first range starts at an inside sample after an outside one |
| Seams.OverlapRangesNoneInside | src/main.js:1613-1636 | No sample inside gives no range |
| Seams.OverlapRangesAllInside | src/main.js:1613-1636 | Every sample inside also gives no range |
| Seams.CollectOverlapRanges | src/main.js:1625-1635 | The loop with the start marker `s` computes the overlap ranges of the flags |
| Seams.InsideFlags | src/main.js:1617-1623 | One flag per sample |
| Seams.SampleOverlapRanges | src/main.js:1613-1636 | The ranges are the overlap ranges of the flags "inside or on B" at the sample angles |
| Seams.OfKind | src/main.js:1510-1516 | The filtered bubbles are exactly those of the given kinds |
| Seams.OfKindIsFilter | src/main.js:671 | Filtering distributes over concatenation and keeps a single bubble exactly when its kind is listed, so order and repeats are kept |
| Seams.RectSeams | src/main.js:660-731 | n rectangles give n·(n-1) seams, one per ordered pair of distinct rectangles, row after row, with no overlap test |
| Seams.OrderedPairs | src/main.js:705-730 | The same, for any list: row i holds (rects[i], rects[j]) for each j != i |
| Seams.AppendRow | src/main.js:708-729 | The inner loop appends (rects[i], rects[j]) for each j != i, in j order |
| Seams.PairArcs | src/main.js:1527-1554 | One arc per overlap range of the combo ellipse inside the candidate's, in range order |
| Seams.ArcsOver | src/main.js:1539-1553 | One arc per range, in range order, each carrying the combo, the candidate and its range |
| Seams.ComboSeams | src/main.js:1503-1556 | The drawn arcs are, in order, those of each combo bubble in page order, against each candidate in page order, over each overlap range. Every drawn arc comes from a combo bubble, a candidate with another id and an overlap range between the two, and every such arc is drawn |
| Seams.ArcsOfCombos | src/main.js:1522-1555 | The outer loop appends the arcs of each combo bubble in turn |
| Seams.ComboArcs | src/main.js:1522-1555 | For one combo bubble, the arcs against each candidate in turn, skipping the candidate with its own id; the same two membership facts |
| Seams.NoCandidatesNoArcs | src/main.js:1517 | With no candidates there are no arcs, so the early return draws exactly what the loops would |
| Seams.ArcsAgainstMembers | src/main.js:1527-1554 | The arcs of one combo against a candidate list are exactly the combo seams of that combo with those candidates |
| Seams.AllComboArcsMembers | src/main.js:1522-1555 | The arcs of a combo list against a candidate list are exactly the combo seams between the two lists |
| Seams.OfKindLists | src/main.js:1510-1516 | The two filters give every combo bubble and every seam candidate of the page, and only those |
| Seams.ComboArcsExact | src/main.js:1503-1556 | Over the filtered lists, the arcs are exactly the combo seams between any two bubbles of the page |
| Editor.Timeline.Push | src/main.js:2056-2065 | Drops every entry after the current one, appends the snapshot and makes it current |
| Editor.Timeline.Undo | src/main.js:2067-2077 | At index 0 or below nothing changes. Otherwise the index steps back and the snapshot there is restored. The entries never change |
| Editor.UndoAfterPush | src/main.js:2056-2077 | Undo right after a push restores the previous snapshot and keeps the pushed one as the only redo entry |
| Editor.PushAfterUndoDropsRedo | src/main.js:2056-2077 | A push after an undo discards the undone snapshot |
| Editor.UndoStopsAtFirst | src/main.js:2056-2077 | The first snapshot of an empty history cannot be undone |
| Editor.Decimal | src/main.js:774 | `${n}` prints at least one digit and only digits |
| Editor.ParseDecimalInverse | src/main.js:774 | The printed digits read back as the number |
| Editor.BubbleIdInjective | src/main.js:774 | Distinct counter values give distinct ids "bubble-n" |
| Editor.Without | src/main.js:903 | The filter keeps exactly the bubbles of another id, and nothing new |
| Editor.WithoutIsFilter | src/main.js:903 | Filtering distributes over concatenation and keeps a single bubble exactly when its id differs, so order and repeats are kept |
| Editor.WithoutRemovesOne | src/main.js:900-908 | With distinct ids, removing a present id removes exactly one bubble |
| Editor.WithoutAbsent | src/main.js:903 | Removing an absent id changes nothing |
| Editor.ListIdsDistinct | src/main.js:774 | Bubbles made from distinct counter values have distinct ids |
| Editor.RemoveOne | src/main.js:900-908 | Removing a bubble's id keeps the list valid and shortens it by one |
| Editor.AppendKeepsListValid | src/main.js:763-792 | Appending the bubble of the current counter keeps the list valid under the next counter |
| Editor.WithoutKeepsListValid | src/main.js:903 | Filtering keeps the list valid |
| Editor.Find | src/main.js:896-898 | `find` returns a bubble exactly when some bubble has the id, and then the first one |
| Editor.InsertSize | src/main.js:763-769 | A new bubble is at least 320 wide and at least 30% of the canvas width. A thought circle is square, and any other kind is at least 220 and 20% of the canvas high |
| Editor.Document.constructor | src/main.js:33-50 | The initial state: a 1200 by 1600 canvas, no bubbles, counter 1, stroke 2, font size 24, nothing selected, empty history at index -1 |
| Editor.Document.PushHistory | src/main.js:2056-2065 | The history becomes its push with the snapshot, and nothing else changes |
| Editor.Document.Undo | src/main.js:2067-2077 | The history and the returned snapshot are those of the timeline's undo, and nothing else changes |
| Editor.Document.Insert | src/main.js:763-792 | Appends a new bubble that has the next counter id, the insert size and the canvas centre. It has the padding and the stroke (default when 0), the document font, empty text and the kind's default tail. The counter advances, the bubble is selected and the history is pushed. Canvas, default stroke and font settings are unchanged. The document stays valid |
| Editor.Document.NewBubble | src/main.js:763-792 | The new bubble has those fields, and is valid |
| Editor.Document.RemoveSelected | src/main.js:900-908 | With no selection, or one no bubble has, nothing changes. Otherwise exactly the selected bubble is removed, the others stay in order, the selection is cleared and the history is pushed. The counter, canvas, default stroke and font settings are unchanged. The document stays valid |
| Editor.Document.RemoveAt | src/main.js:900-908 | Removes the bubbles of bubble k's id, which is exactly one bubble, keeping the others in order. Clears the selection and pushes the history. Canvas, default stroke and font settings are unchanged |

## Left out

- User interface, left out because it is DOM work: building SVG and DOM elements, overlay handles, event handlers, the inline editor, toolbar wiring and rendering.
  - This includes the seams' stroke width (twice the selected or default stroke width, src/main.js:675-676 and 1519), which only styles the drawn paths.
  - The early return of the rectangle seams needs no model of its own: with fewer than two rectangles `OrderedPairs` gives no seams. `ComboSeams` keeps its two early returns.
- Image and export I/O, left out because it is browser I/O: loading images, canvas drawing and `getImageData`, the PNG/JPG export and downloads.
  - The PSD writer takes the pixels of each layer and of the composite as given RGBA rasters.
  - It is not reachable from the toolbar in this version of the script.
- Asynchronous scheduling, left out because the model is sequential: the `Promise.all` of `buildLayers` is reduced to the resulting layer order.
- Trigonometry, square roots and viewport zoom/pan, left out because they are floating-point numerics.
  - Seam sampling takes the cosine and sine of the 541 sample angles as tables.
  - Seam ranges are pairs of sample indices rather than angles; index i stands for the angle i·2π/540.
- DOM text measurement, left out because the browser performs it: measured heights and text widths are parameters.
- `pro5_fitBubbleToText`, because nothing calls it and it depends on canvas measurement.
- Number-to-string formatting of SVG paths, left out because only the numbers are modelled.
  - `pro5_createShoutPath` is modelled by the points of its outline, not by the path string.
  - `createRoundedRectPath` is modelled by its clamped radius.
- Undo's restoration of the bubbles, selection and viewport from the restored JSON snapshot, because snapshots are opaque. `Undo` returns the snapshot to restore.
- Floating-point rounding, because the model uses exact reals for geometry and text metrics.
- JavaScript's `NaN` and `undefined` fallbacks, which are not modelled:
  - `Number(value) || default` for the stroke width is modelled as "0 gives the default".
  - `bubble.fontSize || 20` is modelled as "0 gives 20".
  - `String(text ?? '')` takes the text as a string.
- Integer widths: `ToInt32` models the `| 0` truncation for integer inputs only, not for fractional numbers.
- The padding computed at the end of `buildRasterLayer` (`offset += padding`), because it is never used and the record buffer is allocated before it.
- The first, identical definition of `pro5_wrapTextChinese` (src/main.js:73-86), because the later definition replaces it.
- The viewport part of `pushHistory`'s snapshot (src/main.js:2057-2061), because snapshots are opaque: `PushHistory` takes the serialised bubbles, selection and viewport as one value.
- Geometry.ScanBounds: starts its min/max scan from the first point instead of from ±Infinity. This gives the same result on any non-empty list, and the outline is never empty.
- Text.WrapByWidth, Text.GreedyWrap, Text.WrapChar: the contracts do not state that the greedy wrap fills each line maximally. They state only that no line is too wide, no character is lost and every line break ends a line.
- Geometry.EllipseFShape: does not relate the sign of the implicit function to the sampled points beyond the centre and the four axis ends.
- Psd.Utf8Char, Psd.Utf8: a name is a sequence of Unicode scalar values. A JavaScript string is UTF-16 and may hold a lone surrogate, which `TextEncoder` writes as EF BF BD; that case is not modelled.
- Geometry.RetargetTail: defined only for a box of non-zero width and height, where the source would divide by zero.
