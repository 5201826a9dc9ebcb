# Embroidery conversion core, modelled in Dafny

This project models the core of an image-to-embroidery converter. The library
(`src/lib/embroidery/`) turns a raster image into a stitch pattern in stages:
grayscale, threshold or bitmap, edge detection, contour tracing and
simplification, and stitch generation. The pattern is then reordered by the
stitch optimisers and written in one of the machine formats. The older,
stand-alone converter `src/lib/ImageProcessor.ts` is modelled too.

Each source file has its own module, and the model takes the source's own
form. Loops that fill typed arrays or walk pixels are methods over Dafny
arrays. Each of them is proved against a specification function, and the
function's properties are proved as lemmas. Code that only computes values
is written as functions and lemmas.

| module | file | models |
|---|---|---|
| `Types`, `Wrappers` | types.dfy, wrappers.dfy | points, stitches (normal, jump, trim, stop, end), patterns, settings, the errors a stage raises |
| `Numeric`, `Streams`, `Hex`, `Sorting` | numeric.dfy, streams.dfy, hex.dfy, sorting.dfy | the JavaScript number operations the writers use (rounding, byte stores, masks, decimal and UTF-8 text), byte streams built chunk by chunk, the hex colour parser, and the stable numeric sort |
| `Converter`, `FormatConversion` | converter.dfy, format_conversion.dfy | pattern validation and the dispatch to a writer |
| `Dst`, `Exp`, `Hus`, `Jef`, `Pes`, `Qcc`, `Vp3` | dst.dfy … vp3.dfy | the byte layout of each format writer: headers, stitch records, colour changes and end markers |
| `Optimizer`, `StitchOptimizer` | optimizer.dfy, stitch_optimizer.dfy | the passes that drop stitches too close to the last kept one, turn long stitches into jumps or split them, and insert stops at colour changes |
| `Raster`, `ConversionImageProcessor`, `ImageProcessor`, `Threshold`, `BitmapStep`, `BitmapProcessor`, `BinaryBitmap` | raster.dfy … binary_bitmap.dfy | grayscale planes, thresholds (fixed and adaptive), the binary bitmap and its connected-component labelling |
| `EdgeProcessor`, `EdgeAlgorithms` | edge_processor.dfy, edge_algorithms.dfy | Sobel gradients, thinning, non-maximum suppression and hysteresis |
| `Tracing`, `ContourAlgorithms`, `ContourTracer`, `ContourProcessor`, `ContourOptimizer` | tracing.dfy … contour_optimizer.dfy | the contour walks, Douglas–Peucker simplification, smoothing, running-stitch resampling and nearest-neighbour ordering |
| `Geometry`, `StitchGenerationStep`, `StitchGenerator`, `FillGenerator`, `StrokeGenerator`, `PatternGenerator` | geometry.dfy … pattern_generator.dfy | zone classification, outlines, scan-line fills, stroke, running and zig-zag stitches, and the staged pipeline |
| `ColorProcessor`, `PathConverter`, `EmbroideryMath` | color_processor.dfy, path_converter.dfy, embroidery_math.dfy | palette matching and colour layers, the SVG path reader, and unit and sizing arithmetic |
| `LegacyImageProcessor` | legacy_image_processor.dfy | the older converter: grayscale, edges, sampled stitches, nearest-neighbour order and its binary export |

Numbers are modelled as `int` or `real`, following the source. Where the
source depends on 8-bit or 32-bit storage, clamping, rounding or floating-point
special values (NaN, Infinity), the model writes that behaviour out. Square roots,
trigonometry, the clock and canvas I/O are parameters of the members that use
them; "## Left out" lists each one.

## Model

| member | source | states |
|---|---|---|
| Types.Rethrow | src/lib/embroidery/conversion/FormatConverter.ts:41-46 | the catch block rethrows a ProcessingError unchanged and wraps any other error in a ProcessingError with the stage's message and the original error |
| Types.OrDefault | src/lib/embroidery/fill-generator.ts:12-13 | a setting read with the `or` operator takes the fallback exactly when it is absent or zero, and is kept otherwise |
| Numeric.Minimum | src/lib/embroidery/formats/converter.ts:64-65 | `Math.min(...xs)` of a non-empty list is at most every element and is one of them |
| Numeric.Maximum | src/lib/embroidery/formats/dst.ts:60-62 | `Math.max(...xs)` of a non-empty list is at least every element and is one of them |
| Numeric.OrTopBitLow8 | src/lib/embroidery/formats/exp.ts:21-22 | `0x80` OR v stored in a Uint8Array is the top bit over the low seven bits of v |
| Numeric.LittleEndianValue | src/lib/embroidery/formats/jef.ts:21-25 | a little-endian DataView write of n bytes keeps exactly the value modulo 256^n |
| Numeric.Int32RoundTrip | src/lib/embroidery/formats/jef.ts:22-25 | a signed 32-bit field written little-endian reads back as the value written |
| Numeric.Utf8Ascii | src/lib/embroidery/formats/dst.ts:43 | TextEncoder turns ASCII text into one byte per character, equal to its code |
| Numeric.DigitsRoundTrip | src/lib/embroidery/formats/dst.ts:29-30 | the decimal text of a count in a template string reads back as that count |
| Hex.PairValue | src/lib/embroidery/formats/pes.ts:121-123 | `parseInt` of a captured pair of hex digits is a channel value in 0..255 |
| Hex.ParseHexColor | src/lib/embroidery/formats/pes.ts:118-125 | a string gives a colour exactly when it matches the pattern (an optional #, then six hex digits in either case), and every channel is in 0..255; otherwise no colour |
| Hex.ParseFormatRoundTrip | src/lib/embroidery/formats/pes.ts:118-125 | parsing the "#rrggbb" text of a colour gives that colour back |
| Hex.HashIsOptional | src/lib/embroidery/formats/pes.ts:119 | without the leading #, the same six digits parse to the same colour |
| Sorting.Insert | src/lib/embroidery/fill-generator.ts:26 | inserting adds one element |
| Sorting.InsertPermutes | src/lib/embroidery/fill-generator.ts:26 | inserting adds exactly the new element and keeps the others |
| Sorting.InsertSorted | src/lib/embroidery/fill-generator.ts:26 | inserting into a list sorted by key keeps it sorted |
| Sorting.SortBy | src/lib/embroidery/fill-generator.ts:26 | sorting keeps the length |
| Sorting.SortByIsSortedPermutation | src/lib/embroidery/fill-generator.ts:26 | `intersections.sort((a, b) => a.y - b.y)` returns a permutation of its input in ascending key order |
| Converter.Validate | src/lib/embroidery/formats/converter.ts:47-60 | a pattern passes validation exactly when it has stitches, a non-zero width and height, and at least one colour |
| Converter.ValidationErrors | src/lib/embroidery/formats/converter.ts:51-59 | each failed guard yields its own message in the source's order (stitches, then dimensions, then colours); a negative size is not rejected |
| Converter.MachinePattern | src/lib/embroidery/formats/converter.ts:62-79 | normalisation keeps the number of stitches and yields whole, non-negative machine coordinates |
| Converter.MachineUnits | src/lib/embroidery/formats/converter.ts:62-79 | every stitch keeps its type and colour, lands at x, y of 0 or more, and the dimensions are ten times the input, rounded; colours and metadata are untouched |
| Converter.MachineMinimumZero | src/lib/embroidery/formats/converter.ts:64-72 | the stitch at the smallest x and the stitch at the smallest y are moved to 0 on that axis |
| Converter.ConvertToFormat | src/lib/embroidery/formats/converter.ts:12-45 | an invalid pattern fails with its validation error whatever the tag; a valid one with a tag outside the eight fails with "Unsupported format: " and the tag; a valid one with a tag other than dst and pes always gives bytes; bytes come only from a valid pattern and a supported tag |
| Converter.Dispatch | src/lib/embroidery/formats/converter.ts:12-45 | an invalid pattern fails with its validation error whatever the tag; a valid one is normalised and written by the writer its tag names |
| Converter.UnsupportedFormat | src/lib/embroidery/formats/converter.ts:38-39 | a valid pattern with a tag outside the eight formats fails with "Unsupported format: " followed by the tag |
| FormatConversion.Validate | src/lib/embroidery/conversion/FormatConverter.ts:49-62 | a pattern passes exactly when it has stitches, a non-zero width and height, and at least one colour |
| FormatConversion.ConvertToFormat | src/lib/embroidery/conversion/FormatConverter.ts:12-47 | every failure that leaves convertToFormat is a ProcessingError; a validation error leaves unchanged; bytes come only from a valid pattern and one of the eight tags |
| FormatConversion.ValidationErrors | src/lib/embroidery/conversion/FormatConverter.ts:53-61 | no stitches, a zero width or height, or no colours fail with that guard's own ProcessingError, unwrapped, whatever the tag |
| FormatConversion.UnsupportedFormat | src/lib/embroidery/conversion/FormatConverter.ts:38-39 | a valid pattern with an unknown tag fails with the ProcessingError "Unsupported format: " and the tag, passed through unwrapped |
| FormatConversion.AgreesWithConverter | src/lib/embroidery/conversion/FormatConverter.ts:12-47 | the two converters accept the same patterns and tags and produce the same bytes; a writer's plain error is wrapped as "Failed to convert pattern format" |
| Dst.CalculateBounds | src/lib/embroidery/formats/dst.ts:49-64 | each bound holds for every stitch and is reached by some stitch: the minimum and maximum x and y |
| Dst.HeaderLines | src/lib/embroidery/formats/dst.ts:27-39 | the header text is made of exactly twelve lines |
| Dst.HeaderCounts | src/lib/embroidery/formats/dst.ts:27-30 | the header opens with the fixed label LA:Design Studio, and its ST and CO lines read back as the number of stitches and the number of colours |
| Dst.TaggedCount | src/lib/embroidery/formats/dst.ts:29-30 | a three-character tag followed by a count's decimal text keeps the tag in front and reads back as the count |
| Dst.CrlfLines | src/lib/embroidery/formats/dst.ts:40 | every line of the joined header text is followed by CR LF, so the text is at least two bytes per line |
| Dst.HeaderBytes | src/lib/embroidery/formats/dst.ts:18-47 | the 512-byte header holds the encoded text at offset 0 and zeros after it; it fails exactly when the text is longer than 512 bytes, as `Uint8Array.set` throws |
| Dst.CreateHeader | src/lib/embroidery/formats/dst.ts:18-47 | builds the header block described by HeaderBytes |
| Dst.CopyIntoBlock | src/lib/embroidery/formats/dst.ts:19-20 | a zeroed 512-byte block with the text copied in at offset 0 |
| Dst.Clamp121 | src/lib/embroidery/formats/dst.ts:116-117 | a delta is clamped into -121..121 and left unchanged when already inside |
| Dst.ControlByteBits | src/lib/embroidery/formats/dst.ts:125-144 | the control byte always has its two low bits set, its top bit set exactly for jump, stop and end, and for normal, trim and jump records bits 5 and 6 are the signs of x and y |
| Dst.TypeBitsBits | src/lib/embroidery/formats/dst.ts:132-144 | the type masks set both low bits, the top bit for all but normal and trim, and no sign bits for normal, trim and jump |
| Dst.ControlBit | src/lib/embroidery/formats/dst.ts:125-144 | a bit of the control byte is set exactly when it is set in the high nibbles, in a set sign flag or in the type mask |
| Dst.EncodeStitchDelta | src/lib/embroidery/formats/dst.ts:114-147 | one record is three bytes |
| Dst.DeltaRecordLayout | src/lib/embroidery/formats/dst.ts:114-147 | the first two bytes are the low nibbles of the clamped magnitudes of dy and dx; the control byte has the low bits, the top bit for jump, stop and end, and the sign bits of dx and dy for normal, trim and jump records |
| Dst.MarkerRecords | src/lib/embroidery/formats/dst.ts:72 | the initial record at the origin is 00 00 03 |
| Dst.StepCount | src/lib/embroidery/formats/dst.ts:80-84 | a move longer than 121 on either axis is split into at least two records |
| Dst.SplitRecords | src/lib/embroidery/formats/dst.ts:89-99 | a split move from step i on gives three bytes per remaining step |
| Dst.EncodeSplit | src/lib/embroidery/formats/dst.ts:86-99 | the split loop writes the records SplitRecords describes: jumps of the sub-deltas, the last carrying the stitch type |
| Dst.EncodeMove | src/lib/embroidery/formats/dst.ts:76-102 | one stitch gives a single record, or the split jumps when a delta exceeds 121 |
| Dst.EncodeStitches | src/lib/embroidery/formats/dst.ts:66-112 | the stream is the initial record, each stitch's records measured from the previous stitch (the first from the origin), then the end marker |
| Dst.DstFile | src/lib/embroidery/formats/dst.ts:4-16 | the file fails exactly when the header does; otherwise it is the 512-byte header followed by the stitch stream |
| Dst.Write | src/lib/embroidery/formats/dst.ts:4-16 | builds the file described by DstFile |
| Dst.RecordsLength | src/lib/embroidery/formats/dst.ts:75-106 | the stitch records are whole three-byte records, at least one per stitch |
| Dst.StreamLength | src/lib/embroidery/formats/dst.ts:66-112 | the stream length is three bytes times the records plus the two markers |
| Dst.StreamMarkers | src/lib/embroidery/formats/dst.ts:66-112 | the stream opens with 00 00 03 and closes with 00 00 F3 |
| Dst.ShortMoveIsOneRecord | src/lib/embroidery/formats/dst.ts:100-102 | a move within ±121 on both axes is one record with the stitch's own type and the magnitudes' low nibbles |
| Dst.SplitRecordAt | src/lib/embroidery/formats/dst.ts:89-99 | record j of a split move encodes the j-th sub-delta, as a jump except for the last, which carries the stitch type |
| Dst.LongMoveRecords | src/lib/embroidery/formats/dst.ts:80-99 | a long move gives StepCount records, all with the jump bit except the last, which carries the stitch's type |
| Dst.SplitMovesAreEqual | src/lib/embroidery/formats/dst.ts:86-92 | the "remaining" last sub-delta equals every other one: each is round(d/steps) |
| Dst.SplitTotalIsMultiple | src/lib/embroidery/formats/dst.ts:86-99 | a split moves steps · round(d/steps) in all |
| Dst.SplitLosesRemainder | src/lib/embroidery/formats/dst.ts:80-99 | a move of 250 along x becomes three jumps of 83, one unit short |
| Dst.CorrectedPartialSum | src/lib/embroidery/formats/dst.ts:89-92 | with cumulative rounding, the first n sub-deltas add up to the rounded share of n steps |
| Dst.CorrectedSplitIsExact | src/lib/embroidery/formats/dst.ts:89-92 | with cumulative rounding, the sub-deltas of a split add up to the whole move |
| Exp.SignBytes | src/lib/embroidery/formats/exp.ts:23-24 | one 0x20 byte is pushed per negative axis |
| Exp.Moves | src/lib/embroidery/formats/exp.ts:12-38 | every stitch after the first contributes one record |
| Exp.PushMove | src/lib/embroidery/formats/exp.ts:19-37 | the bytes pushed for one stitch, truncated to bytes as the Uint8Array does, are the record MoveBytes describes |
| Exp.EncodeStitches | src/lib/embroidery/formats/exp.ts:9-41 | the loop produces the records of every stitch after the first, each measured in tenths from the previous stitch, concatenated |
| Exp.Write | src/lib/embroidery/formats/exp.ts:4-7 | the file is the stitch records alone, with no header |
| Exp.ShortPatternIsEmpty | src/lib/embroidery/formats/exp.ts:12-13 | a pattern of at most one stitch gives an empty file |
| Exp.MoveAt | src/lib/embroidery/formats/exp.ts:12-38 | the record of stitch k + 1 sits in the file right after the records of the stitches before it |
| Exp.MoveLayout | src/lib/embroidery/formats/exp.ts:19-37 | a stop is F0 and an end F8; a jump is the low seven bits of the magnitudes with the top bit set, a normal or trim stitch their low eight bits; either is followed by one 0x20 per negative axis |
| Exp.MagnitudesDecode | src/lib/embroidery/formats/exp.ts:19-37 | for deltas under 128 the record reads back: the top bit says jump, the low seven bits give the magnitudes, and the trailing bytes count the negative axes |
| Exp.SignBytesDoNotNameAxis | src/lib/embroidery/formats/exp.ts:19-37 | the sign bytes do not say which axis is negative: moves (-1, 2) and (1, -2) give the same record |
| Hus.SignatureIsText | src/lib/embroidery/formats/hus.ts:19 | the signature is the ASCII encoding of "HUS" |
| Hus.HeaderFields | src/lib/embroidery/formats/hus.ts:21-27 | the six header writes fit in the 512-byte block and go to ascending, non-overlapping offsets |
| Hus.HusHeader | src/lib/embroidery/formats/hus.ts:16-30 | the header is 512 bytes, with the sizes rounded to tenths of a millimetre |
| Hus.HeaderLayout | src/lib/embroidery/formats/hus.ts:16-30 | the header holds the int32 3, the bytes of "HUS", then the stitch count, colour count, width and height as little-endian int32 at 8, 12, 16 and 20, and zeros everywhere else |
| Hus.HeaderWrites | src/lib/embroidery/formats/hus.ts:17-27 | the header is a zeroed block with the six writes of createHeader applied in order |
| Hus.WriteHeader | src/lib/embroidery/formats/hus.ts:21-27 | the writes produce the header HeaderBytes describes |
| Hus.CreateHeader | src/lib/embroidery/formats/hus.ts:16-30 | builds the header HusHeader describes |
| Hus.EncodeStitches | src/lib/embroidery/formats/hus.ts:32-64 | the stitch loop writes exactly the records the EXP writer does |
| Hus.Write | src/lib/embroidery/formats/hus.ts:4-14 | builds the file HusFile describes |
| Hus.BodyIsExp | src/lib/embroidery/formats/hus.ts:4-14 | the file is the 512-byte header followed by exactly the EXP writer's stitch records |
| Jef.HeaderFields | src/lib/embroidery/formats/jef.ts:21-25 | the five header writes fit in the 128-byte block at ascending, non-overlapping offsets |
| Jef.JefHeader | src/lib/embroidery/formats/jef.ts:16-28 | the header is 128 bytes, with the sizes rounded to tenths of a millimetre |
| Jef.MagicBytes | src/lib/embroidery/formats/jef.ts:21 | the magic 0x4A454600 is written little-endian as 00 46 45 4A ("\0FEJ") |
| Jef.HeaderLayout | src/lib/embroidery/formats/jef.ts:16-28 | the header holds the magic, the stitch count, the colour count, the width and the height as little-endian int32 at 0, 4, 8, 12 and 16, and zeros from 20 on |
| Jef.HeaderWrites | src/lib/embroidery/formats/jef.ts:17-25 | the header is a zeroed block with the five writes of createHeader applied in order |
| Jef.WriteHeader | src/lib/embroidery/formats/jef.ts:21-25 | the writes produce the header HeaderBytes describes |
| Jef.CreateHeader | src/lib/embroidery/formats/jef.ts:16-28 | builds the header JefHeader describes |
| Jef.MoveBytes | src/lib/embroidery/formats/jef.ts:42-58 | every stitch after the first writes two bytes |
| Jef.Moves | src/lib/embroidery/formats/jef.ts:35-59 | there are two bytes for each stitch after the first |
| Jef.EncodeMove | src/lib/embroidery/formats/jef.ts:42-58 | the switch writes the two bytes MoveBytes describes |
| Jef.EncodeStitches | src/lib/embroidery/formats/jef.ts:30-62 | the buffer of two bytes per stitch holds the bytes of every stitch after the first, in order, and zeros after them |
| Jef.Write | src/lib/embroidery/formats/jef.ts:4-14 | builds the file JefFile describes: the header followed by the stitch buffer |
| Jef.FileLength | src/lib/embroidery/formats/jef.ts:4-31 | a file for n stitches is 128 + 2n bytes |
| Jef.MoveAt | src/lib/embroidery/formats/jef.ts:35-59 | the bytes of stitch k + 1 sit at offsets 2k and 2k + 1 of the stitch buffer |
| Jef.StreamTail | src/lib/embroidery/formats/jef.ts:31-36 | the first stitch writes nothing, so the last two bytes of the buffer stay zero |
| Jef.MoveLayout | src/lib/embroidery/formats/jef.ts:42-58 | a jump writes `0x80` OR `d & 0x7F`, a normal or trim stitch `d & 0x7F` with the top bit clear, a stop F3 00 and an end F0 00 |
| Jef.DeltaDecodes | src/lib/embroidery/formats/jef.ts:42-58 | a delta from -64 to 63 reads back from the low seven bits of its byte as a signed seven-bit number, jump or not |
| Pes.ColorDistSq | src/lib/embroidery/formats/pes.ts:143-147 | the squared distance between two colours is never negative |
| Pes.NearestAmongIsNearest | src/lib/embroidery/formats/pes.ts:139-153 | after n palette colours the running minimum is a nearest one among them, and no earlier one is as near |
| Pes.ClosestThreadIsNearest | src/lib/embroidery/formats/pes.ts:127-156 | findClosestThreadColor picks a nearest palette colour, the lowest index on ties |
| Pes.PaletteColorMapsToItself | src/lib/embroidery/formats/pes.ts:129-156 | a palette colour maps to its own thread index |
| Pes.FindClosestThreadColor | src/lib/embroidery/formats/pes.ts:139-155 | the running minimum from infinity returns the index ClosestThread describes |
| Pes.ColorTable | src/lib/embroidery/formats/pes.ts:48-62 | the table has at most one entry per colour and every entry is a palette index |
| Pes.ColorTableOfValidColors | src/lib/embroidery/formats/pes.ts:52-59 | when every colour parses, the table has one entry per colour, its nearest thread |
| Pes.InvalidColorSkipped | src/lib/embroidery/formats/pes.ts:53-54 | a colour that does not parse adds no entry |
| Pes.CreateColorTable | src/lib/embroidery/formats/pes.ts:48-62 | the loop builds the table ColorTable describes |
| Pes.SignatureIsText | src/lib/embroidery/formats/pes.ts:21 | the signature is the ASCII encoding of "#PES0001" |
| Pes.HeaderFields | src/lib/embroidery/formats/pes.ts:17-40 | the fields written before the table fill a 532-byte header |
| Pes.PesHeader | src/lib/embroidery/formats/pes.ts:16-46 | the header is 532 bytes and fails exactly when the colour table runs past its end, as `setUint8` throws |
| Pes.FieldsLayout | src/lib/embroidery/formats/pes.ts:20-40 | the header holds the signature, the PEC marker 00 43 45 50 at 8, the width and height as uint16 at 524 and 526, the colour count at 528, the table length at 529, and zeros elsewhere |
| Pes.HeaderLayout | src/lib/embroidery/formats/pes.ts:39-43 | a table that stops before offset 524 sits at 48 and leaves every other byte as the fields wrote it, over bytes that were zero |
| Pes.MarkerBytes | src/lib/embroidery/formats/pes.ts:27 | the marker 0x50454300 is written little-endian as 00 43 45 50 |
| Pes.SizeFieldValue | src/lib/embroidery/formats/pes.ts:32-33 | a size field reads back as the rounded size in tenths, modulo 2^16 |
| Pes.CreateHeader | src/lib/embroidery/formats/pes.ts:16-46 | builds the header PesHeader describes, or its failure |
| Pes.WriteFields | src/lib/embroidery/formats/pes.ts:20-40 | the writes before the table produce HeaderFields and return the colour table |
| Pes.WriteTable | src/lib/embroidery/formats/pes.ts:41-43 | the table loop succeeds exactly when the table fits and then writes it from offset 48, changing nothing else |
| Pes.EncodeLongMove | src/lib/embroidery/formats/pes.ts:89-102 | a normal move beyond ±127 is written as the split pairs NormalMove describes |
| Pes.RepeatPair | src/lib/embroidery/formats/pes.ts:98-102 | the split loop pushes the same pair once per step |
| Pes.EncodeMove | src/lib/embroidery/formats/pes.ts:77-106 | the switch writes the bytes MoveBytes describes for one stitch |
| Pes.StreamStep | src/lib/embroidery/formats/pes.ts:70-110 | one iteration appends stitch i's bytes, moves the last position to the stitch and counts a stop |
| Pes.EncodeStitches | src/lib/embroidery/formats/pes.ts:64-116 | the loop gives the stream PesStream describes: every stitch's bytes, then 0xFF |
| Pes.PesFile | src/lib/embroidery/formats/pes.ts:4-14 | the file fails exactly when the header does, and otherwise is the header followed by the stitch stream |
| Pes.Write | src/lib/embroidery/formats/pes.ts:4-14 | builds the file PesFile describes |
| Pes.StreamLayout | src/lib/embroidery/formats/pes.ts:64-116 | the stream ends with 0xFF, and each stitch's bytes follow those of the stitches before it |
| Pes.JumpDecodes | src/lib/embroidery/formats/pes.ts:78-80 | a jump is 0x90 then two bytes that read back as the delta in tenths when it fits in a signed byte |
| Pes.ShortMoveDecodes | src/lib/embroidery/formats/pes.ts:103-105 | a normal move within ±127 is two bytes that read back as the delta |
| Pes.LongMoveDecodes | src/lib/embroidery/formats/pes.ts:89-102 | a longer move is max(ceil(abs(dx)/127), ceil(abs(dy)/127)) pairs, each reading back as (round(dx/steps), round(dy/steps)) |
| Pes.FirstStopIsZero | src/lib/embroidery/formats/pes.ts:81-83 | the first stop is FE 00: the colour counter starts at 0 |
| Qcc.SignatureIsText | src/lib/embroidery/formats/qcc.ts:19 | the signature is the ASCII encoding of "QCC" |
| Qcc.HeaderFields | src/lib/embroidery/formats/qcc.ts:21-26 | the five header writes fit in the 512-byte block at ascending, non-overlapping offsets |
| Qcc.QccHeader | src/lib/embroidery/formats/qcc.ts:16-29 | the header is 512 bytes, with the sizes rounded to tenths of a millimetre |
| Qcc.HeaderLayout | src/lib/embroidery/formats/qcc.ts:16-29 | the header holds the int32 3, the bytes of "QCC", then the stitch count, width and height as little-endian int32 at 8, 12 and 16 (no colour count), and zeros everywhere else |
| Qcc.HeaderWrites | src/lib/embroidery/formats/qcc.ts:17-26 | the header is a zeroed block with the five writes of createHeader applied in order |
| Qcc.WriteHeader | src/lib/embroidery/formats/qcc.ts:21-26 | the writes produce the header HeaderBytes describes |
| Qcc.CreateHeader | src/lib/embroidery/formats/qcc.ts:16-29 | builds the header QccHeader describes |
| Qcc.RecordBytes | src/lib/embroidery/formats/qcc.ts:42-44 | each record is five bytes |
| Qcc.Moves | src/lib/embroidery/formats/qcc.ts:34-45 | there is one five-byte record for each stitch after the first |
| Qcc.PushRecord | src/lib/embroidery/formats/qcc.ts:42-44 | the pushes of one iteration are the record RecordBytes describes |
| Qcc.PushedStep | src/lib/embroidery/formats/qcc.ts:34-45 | one iteration appends the record of stitch i's rounded delta from the stitch before |
| Qcc.EncodeStitches | src/lib/embroidery/formats/qcc.ts:31-48 | the loop gives the stream QccStream describes |
| Qcc.Write | src/lib/embroidery/formats/qcc.ts:4-14 | builds the file QccFile describes |
| Qcc.FileLength | src/lib/embroidery/formats/qcc.ts:4-14 | a file for n stitches is 512 + 5(n - 1) bytes, and the bare header for none |
| Qcc.MoveAt | src/lib/embroidery/formats/qcc.ts:34-45 | the record of stitch k + 1 sits at offset 5k of the stream and starts with 00 whatever the stitch type |
| Qcc.Int16RoundTrip | src/lib/embroidery/formats/qcc.ts:43-44 | a delta that fits in 16 bits reads back from its low and high bytes as a signed 16-bit value |
| Qcc.RecordDecodes | src/lib/embroidery/formats/qcc.ts:42-44 | a record reads back as 00 and the rounded deltas whenever both fit in 16 bits |
| Vp3.SignatureIsText | src/lib/embroidery/formats/vp3.ts:19 | the signature is the ASCII encoding of "VP3" |
| Vp3.HeaderFields | src/lib/embroidery/formats/vp3.ts:21-27 | the six header writes fit in the 512-byte block at ascending, non-overlapping offsets |
| Vp3.Vp3Header | src/lib/embroidery/formats/vp3.ts:16-30 | the header is 512 bytes, with the sizes rounded to tenths of a millimetre |
| Vp3.HeaderLayout | src/lib/embroidery/formats/vp3.ts:16-30 | the header holds the int32 3, the bytes of "VP3", then the stitch count, colour count, width and height as little-endian int32 at 8, 12, 16 and 20, and zeros everywhere else |
| Vp3.HeaderWrites | src/lib/embroidery/formats/vp3.ts:17-27 | the header is a zeroed block with the six writes of createHeader applied in order |
| Vp3.WriteHeader | src/lib/embroidery/formats/vp3.ts:21-27 | the writes produce the header HeaderBytes describes |
| Vp3.CreateHeader | src/lib/embroidery/formats/vp3.ts:16-30 | builds the header Vp3Header describes |
| Vp3.Moves | src/lib/embroidery/formats/vp3.ts:36-56 | there is one record for each stitch after the first |
| Vp3.PushMove | src/lib/embroidery/formats/vp3.ts:43-55 | the numbers pushed for one stitch, kept as bytes, are the record MoveBytes describes, and the colour counter advances exactly on a stop |
| Vp3.PushedStep | src/lib/embroidery/formats/vp3.ts:36-56 | one iteration appends the record of stitch i to what was pushed before |
| Vp3.CounterStep | src/lib/embroidery/formats/vp3.ts:48 | the counter past stitch i has counted it when it is a stop |
| Vp3.EncodeStitches | src/lib/embroidery/formats/vp3.ts:32-59 | the loop gives the stream Vp3Stream describes |
| Vp3.Write | src/lib/embroidery/formats/vp3.ts:4-14 | builds the file Vp3File describes: the header followed by the stream |
| Vp3.ShortPatternIsHeader | src/lib/embroidery/formats/vp3.ts:36-37 | a pattern of at most one stitch gives the bare 512-byte header |
| Vp3.MoveAt | src/lib/embroidery/formats/vp3.ts:36-56 | the record of stitch k + 1 follows the records of the stitches before it |
| Vp3.MoveDecodes | src/lib/embroidery/formats/vp3.ts:43-55 | a jump is 80 then the deltas, a normal stitch the deltas alone, each reading back exactly when it fits in a signed byte; a stop is F8 and the counter, an end FF |
| Vp3.StopsNumbered | src/lib/embroidery/formats/vp3.ts:48 | a later stop carries a larger colour number than an earlier one |
| Optimizer.FirstPass | src/lib/embroidery/optimizer.ts:17-45 | the first pass never lengthens the stitch list |
| Optimizer.FirstPassStep | src/lib/embroidery/optimizer.ts:21-45 | one iteration appends what the current stitch emits, given the last kept stitch |
| Optimizer.Visit | src/lib/embroidery/optimizer.ts:22-44 | handling one stitch appends exactly what its fate emits (itself when nothing was kept yet, nothing when a too-close normal stitch, a jump copy when a too-long normal stitch, otherwise itself), and the remembered last stitch is the last one kept |
| Optimizer.OptimizeStitches | src/lib/embroidery/optimizer.ts:17-48 | the loop gives the first pass followed by the colour pass |
| Optimizer.OptimizePattern | src/lib/embroidery/optimizer.ts:8-15 | only the stitch list is replaced, by the optimised stitches; colours, dimensions and metadata are unchanged |
| Optimizer.FirstPassIsEmitted | src/lib/embroidery/optimizer.ts:21-45 | the first pass is the in-order concatenation of what each input stitch emits: nothing, itself, or itself as a jump |
| Optimizer.FateRules | src/lib/embroidery/optimizer.ts:22-44 | the first stitch and every non-normal stitch are kept; a normal stitch is dropped exactly when it is closer than MIN_DISTANCE to the last kept one; a retyped stitch is normal, farther than MAX_STITCH, and keeps its position and colour |
| Optimizer.FirstStitchKept | src/lib/embroidery/optimizer.ts:22-25 | the first stitch is always kept unchanged |
| Optimizer.FirstPassDistances | src/lib/embroidery/optimizer.ts:28-44 | after the first pass every normal stitch lies between MIN_DISTANCE and MAX_STITCH from the one before it |
| Optimizer.OptimizeColorChanges | src/lib/embroidery/optimizer.ts:50-71 | the loop, tracking the last colour pushed, gives the colour pass |
| Optimizer.ColorPassLayout | src/lib/embroidery/optimizer.ts:54-68 | each stitch appears in order; it is preceded by a stop with its own position and colour exactly when its colour differs from a previous non-empty colour, which never happens for the first stitch |
| Optimizer.ColorPassOnlyAddsStops | src/lib/embroidery/optimizer.ts:50-71 | with the stops taken out, the colour pass's output is the input with its stops taken out: only stops are inserted |
| StitchOptimizer.Fill | src/lib/embroidery/stitch-optimizer.ts:29-36 | the split pushes steps - 1 stitches, none for fewer than two steps |
| StitchOptimizer.JumpsRetyped | src/lib/embroidery/stitch-optimizer.ts:47-76 | removeRedundantJumps keeps the length |
| StitchOptimizer.OptimizeStitches | src/lib/embroidery/stitch-optimizer.ts:5-44 | the first pass with its inner split loop, followed by removeRedundantJumps, gives Optimized |
| StitchOptimizer.RemoveRedundantJumps | src/lib/embroidery/stitch-optimizer.ts:47-76 | the loop, tracking the last normal input stitch, gives JumpsRetyped |
| StitchOptimizer.ShortListsUnchanged | src/lib/embroidery/stitch-optimizer.ts:6 | lists of at most two stitches come back unchanged |
| StitchOptimizer.FirstStitchKept | src/lib/embroidery/stitch-optimizer.ts:11-12 | the output starts with the first stitch, unchanged |
| StitchOptimizer.RecordShape | src/lib/embroidery/stitch-optimizer.ts:15-40 | an input stitch contributes nothing exactly when it is normal and closer than minLength to the last kept stitch; otherwise it ends its contribution, preceded by the split's stitches exactly when it is normal and farther than maxLength |
| StitchOptimizer.FillShape | src/lib/embroidery/stitch-optimizer.ts:29-36 | the split's stitches are normal, in the long stitch's colour, the first one step from the last kept stitch |
| StitchOptimizer.FillEvenlySpaced | src/lib/embroidery/stitch-optimizer.ts:26-35 | consecutive split stitches are one step, a steps-th of the long stitch, apart |
| StitchOptimizer.FillEndsOneStepShort | src/lib/embroidery/stitch-optimizer.ts:29-39 | the long stitch itself is one step after the last split stitch |
| StitchOptimizer.LongStitchSplits | src/lib/embroidery/stitch-optimizer.ts:24-25 | with a correct square root, a stitch longer than maxLength is split into at least two steps |
| StitchOptimizer.Records | src/lib/embroidery/stitch-optimizer.ts:11-41 | the first pass gives one record per input stitch, the first being the first stitch itself |
| StitchOptimizer.PassIsRecords | src/lib/embroidery/stitch-optimizer.ts:11-41 | the first pass's output is the concatenation of the records in input order |
| StitchOptimizer.RecordAt | src/lib/embroidery/stitch-optimizer.ts:14-41 | record k depends only on stitch k and the last kept input stitch before it |
| StitchOptimizer.RecordsEndWithStitch | src/lib/embroidery/stitch-optimizer.ts:14-41 | every input stitch that is not dropped appears in the output, in input order, and a stitch is dropped exactly when it is normal and closer than minLength to the last kept one |
| StitchOptimizer.RetypeRules | src/lib/embroidery/stitch-optimizer.ts:51-73 | removeRedundantJumps keeps every position and colour and only retypes normal stitches as jumps, exactly those farther than 12.1 from the previous normal input stitch |
| StitchOptimizer.LastNormalIsLatest | src/lib/embroidery/stitch-optimizer.ts:49-69 | the tracked stitch is the latest normal stitch before i, or none when there is none |
| Raster.LumaRange | src/lib/embroidery/conversion/ImageProcessor.ts:18-22 | the luminance weights sum to one, so the weighted sum of three bytes lies between 0 and 255 and rounds to a byte |
| Raster.GrayscaleImage | src/lib/embroidery/conversion/ImageProcessor.ts:11-27 | the loop fills a fresh buffer of the input's length with the grayscale copy of the data |
| Raster.GrayscalePixel | src/lib/embroidery/conversion/ImageProcessor.ts:17-27 | every pixel of the grayscale copy holds its rounded luminance in R, G and B and keeps its alpha |
| Raster.GrayOfGray | src/lib/embroidery/processors/BitmapProcessor.ts:13-23 | a gray pixel keeps its value, so the grayscale copy of a grayscale image is itself |
| ConversionImageProcessor.ProcessImage | src/lib/embroidery/conversion/ImageProcessor.ts:4-37 | the stage returns the processing result as specified, failure included |
| ConversionImageProcessor.ProcessedImage | src/lib/embroidery/conversion/ImageProcessor.ts:9-36 | processImage succeeds exactly on a non-empty image, keeping width and height, with each pixel's luminance in R, G and B and its alpha copied; otherwise a ProcessingError "Failed to process image" wrapping the constructor's error |
| ImageProcessor.GrayscalePlane | src/lib/embroidery/image-processor.ts:13-23 | the plane has one byte per pixel, pixel p holding round(0.299 R + 0.587 G + 0.114 B) of data bytes 4p..4p+2 |
| ImageProcessor.KernelTotal | src/lib/embroidery/image-processor.ts:74-82 | the 25 entries of the 5 × 5 kernel add up to the divisor 256 |
| ImageProcessor.ClampIndex | src/lib/embroidery/image-processor.ts:92-93 | a sample coordinate is clamped into 0..n-1: kept when inside, 0 below, n-1 above |
| ImageProcessor.Averaged | src/lib/embroidery/image-processor.ts:101 | Math.round(sum / 256) is a byte within one half of sum / 256 for any weighted sum of bytes |
| ImageProcessor.WindowTotal | src/lib/embroidery/image-processor.ts:88-99 | the inner loops add up the kernel-weighted samples of the clamped 5 × 5 window |
| ImageProcessor.GaussianBlur | src/lib/embroidery/image-processor.ts:69-106 | the result is a fresh plane of the same size whose every pixel is the rounded weighted window average |
| ImageProcessor.BlurBetween | src/lib/embroidery/image-processor.ts:86-103 | each blurred value lies between any lower and upper bound of its clamped window, hence between the window's minimum and maximum |
| ImageProcessor.BlurConstant | src/lib/embroidery/image-processor.ts:86-103 | the blur leaves a constant plane unchanged |
| ImageProcessor.SobelSums | src/lib/embroidery/image-processor.ts:31-50 | gx and gy are the horizontal and vertical Sobel sums over the eight neighbours of an interior pixel |
| ImageProcessor.SobelEdges | src/lib/embroidery/image-processor.ts:28-55 | the edge plane is 255 at an interior pixel whose gradient magnitude exceeds the threshold and 0 everywhere else, the border included |
| ImageProcessor.EdgeThreshold | src/lib/embroidery/image-processor.ts:28-55 | with sqrt the square root, an interior pixel is 255 exactly when gx² + gy² > threshold² (always for a negative threshold) and 0 otherwise; border pixels are 0 |
| ImageProcessor.IsLocalMax | src/lib/embroidery/image-processor.ts:121-130 | a pixel is a maximum exactly when it is at least Math.max of its eight neighbours |
| ImageProcessor.NonMaxSuppression | src/lib/embroidery/image-processor.ts:108-136 | the result is a fresh plane that keeps a non-zero interior pixel at least as large as all eight neighbours, and is 0 elsewhere |
| ImageProcessor.SuppressionKeepsOrClears | src/lib/embroidery/image-processor.ts:113-133 | every suppressed pixel is 0 or its input value, and every border pixel is 0 |
| ImageProcessor.SuppressBinary | src/lib/embroidery/image-processor.ts:108-136 | on a map of 0s and 255s, suppression keeps every interior pixel and zeroes the border |
| ImageProcessor.ProcessImage | src/lib/embroidery/image-processor.ts:4-67 | the record holds the input width and height, the unblurred grayscale plane, the suppressed edges of the blurred plane and the threshold |
| ImageProcessor.ProcessedEdges | src/lib/embroidery/image-processor.ts:26-66 | a returned edge pixel is 255 exactly when it is interior and the blurred plane's gx² + gy² exceeds threshold² (or the threshold is negative), and 0 otherwise |
| ImageProcessor.UniformImageHasNoEdges | src/lib/embroidery/image-processor.ts:17-58 | an image whose pixels all share one colour gives an all-zero edge map for any threshold ≥ 0 |
| Threshold.ThresholdData | src/lib/embroidery/conversion/algorithms/threshold.ts:26-48 | the result has as many bytes as the input |
| Threshold.IntegralImage | src/lib/embroidery/conversion/algorithms/threshold.ts:12-23 | entry y·w + x of the integral image holds the red values summed over rows 0..y and columns 0..x |
| Threshold.IntegralRow | src/lib/embroidery/conversion/algorithms/threshold.ts:17-22 | the inner loop fills row y of the integral image, left to right |
| Threshold.IntegralStep | src/lib/embroidery/conversion/algorithms/threshold.ts:19-21 | one step adds the pixel's red value to the running sum and reads the entry above, which is already in place |
| Threshold.AdaptiveThreshold | src/lib/embroidery/conversion/algorithms/threshold.ts:1-51 | the two passes give the image Thresholded describes |
| Threshold.ThresholdRow | src/lib/embroidery/conversion/algorithms/threshold.ts:27-47 | the inner loop fills row y of the result |
| Threshold.ThresholdPixel | src/lib/embroidery/conversion/algorithms/threshold.ts:28-41 | the value of pixel (x, y) read off the integral image is the threshold rule's |
| Threshold.PixelValueBytes | src/lib/embroidery/conversion/algorithms/threshold.ts:40-46 | pixel (x, y) of the result holds the value in R, G and B and 255 in alpha |
| Threshold.IntegralIsPrefixSum | src/lib/embroidery/conversion/algorithms/threshold.ts:12-23 | entry (x, y) of the integral image is the sum of the red values at rows 0..y and columns 0..x |
| Threshold.WindowSumIsRedSum | src/lib/embroidery/conversion/algorithms/threshold.ts:34-37 | the four corners give the red values summed over x1 < i <= x2 and y1 < j <= y2, leaving out the window's first row and column |
| Threshold.WindowClamped | src/lib/embroidery/conversion/algorithms/threshold.ts:28-33 | each corner of the window is halfWindow from the pixel or on the image's edge, whichever is nearer, and the count is never negative |
| Threshold.EmptyWindow | src/lib/embroidery/conversion/algorithms/threshold.ts:33-39 | the count is zero exactly for a half-window of zero or an image one pixel wide or high, and then the sum is zero too, so the mean is 0 / 0 |
| Threshold.ThresholdRule | src/lib/embroidery/conversion/algorithms/threshold.ts:39-41 | every pixel is 0 or 255, and 0 exactly when the window has cells and the red value is below their mean less C |
| Threshold.FlatImage | src/lib/embroidery/conversion/algorithms/threshold.ts:39-41 | on an image of one flat red value a pixel is black only when C is negative and its window has cells, so with C of zero or more the image comes out all white |
| Threshold.ThresholdedImage | src/lib/embroidery/conversion/algorithms/threshold.ts:1-51 | the function fails exactly on an empty image; otherwise the result has the input's size and every pixel is opaque black or white by the threshold rule |
| BitmapStep.Execute | src/lib/embroidery/conversion/steps/BitmapStep.ts:6-44 | the stage's result and its progress reports are those of the step as specified |
| BitmapStep.BitmapRules | src/lib/embroidery/conversion/steps/BitmapStep.ts:6-44 | execute succeeds exactly on a non-empty image, then changes only the bitmap, sets it to the adaptive threshold (window 11, C = 2) of the grayscale copy and reports ("bitmap", 100) once when there is a callback; a failure wraps the constructor's error in "Failed to process bitmap" and reports nothing |
| BitmapStep.BitmapPixels | src/lib/embroidery/conversion/steps/BitmapStep.ts:17-33 | the bitmap has the image's size and every pixel is black or white by the threshold of the grayscale copy, with alpha 255 |
| BitmapProcessor.Averaged | src/lib/embroidery/processors/BitmapProcessor.ts:63-66 | Math.round(sum / 16) lies within one half of sum / 16 |
| BitmapProcessor.CreateBitmap | src/lib/embroidery/processors/BitmapProcessor.ts:4-30 | the grayscale loop followed by the blur yields the created bitmap, or the wrapped error |
| BitmapProcessor.ApplyGaussianBlur | src/lib/embroidery/processors/BitmapProcessor.ts:32-71 | the nested loops yield the blurred image: a zeroed buffer with every interior pixel written |
| BitmapProcessor.BlurRow | src/lib/embroidery/processors/BitmapProcessor.ts:47-67 | one pass of the x loop fills the buffer up to the first interior pixel of the next row |
| BitmapProcessor.BlurPixel | src/lib/embroidery/processors/BitmapProcessor.ts:48-60 | the ky/kx loops compute the four kernel-weighted channel sums, each between 0 and 16 · 255 |
| BitmapProcessor.Convolution | src/lib/embroidery/processors/BitmapProcessor.ts:33-37 | the weighted sum is the 3 × 3 convolution: corners once, edge neighbours twice, centre four times |
| BitmapProcessor.SumRange | src/lib/embroidery/processors/BitmapProcessor.ts:50-60 | a weighted sum of bytes lies between 0 and 16 · 255 |
| BitmapProcessor.UniformNeighbourhood | src/lib/embroidery/processors/BitmapProcessor.ts:33-38 | the kernel sums to 16, so a uniform neighbourhood keeps its value under the blur |
| BitmapProcessor.ChannelsAgree | src/lib/embroidery/processors/BitmapProcessor.ts:55-66 | two channels equal over the whole neighbourhood blur to the same value |
| BitmapProcessor.PixelOfBlur | src/lib/embroidery/processors/BitmapProcessor.ts:40-68 | a pixel of the blurred data is zero on the border and the four blurred channels elsewhere |
| BitmapProcessor.BlurredImage | src/lib/embroidery/processors/BitmapProcessor.ts:32-71 | the blur fails exactly on an empty image; otherwise it keeps the size, leaves the border transparent black and blurs every interior pixel |
| BitmapProcessor.GraySample | src/lib/embroidery/processors/BitmapProcessor.ts:13-23 | the grayscale copy has R = G = B at every pixel |
| BitmapProcessor.GrayBlur | src/lib/embroidery/processors/BitmapProcessor.ts:46-68 | blurring a grayscale image keeps R = G = B at every interior pixel |
| BitmapProcessor.CreatedBitmapIsGray | src/lib/embroidery/processors/BitmapProcessor.ts:4-30 | createBitmap fails exactly on an empty image, with the wrapped ProcessingError; otherwise the result has the input's size and every pixel is gray |
| BinaryBitmap.CreateBitmap | src/lib/embroidery/bitmap-processor.ts:2-19 | the result is a fresh height × width grid whose cell (x, y) is set exactly when the rounded luminance of pixel (x, y) exceeds the threshold |
| BinaryBitmap.ForegroundMonotone | src/lib/embroidery/bitmap-processor.ts:9-14 | raising the threshold only clears cells: a pixel kept at a higher threshold is kept at every lower one |
| BinaryBitmap.ForegroundExtremes | src/lib/embroidery/bitmap-processor.ts:9-14 | a threshold of 255 or more keeps no pixel and a negative threshold keeps every pixel |
| BinaryBitmap.MergedJoins | src/lib/embroidery/bitmap-processor.ts:175-181 | after a union its two arguments answer the same `find`, and values that shared a root still share one |
| BinaryBitmap.ForestCompress | src/lib/embroidery/bitmap-processor.ts:165-170 | pointing a value on a parent chain straight at its root keeps every chain acyclic and every root unchanged |
| BinaryBitmap.ForestLink | src/lib/embroidery/bitmap-processor.ts:178-180 | pointing one root at another keeps every chain acyclic; the class of the first root now ends in the second |
| BinaryBitmap.LinkMerges | src/lib/embroidery/bitmap-processor.ts:175-181 | linking the root of x's class to the root of y's class moves exactly x's class under y's root and changes no other `find` |
| BinaryBitmap.UnionFind.constructor | src/lib/embroidery/bitmap-processor.ts:150-152 | a new union-find has an empty parent map and is a valid forest |
| BinaryBitmap.UnionFind.Find | src/lib/embroidery/bitmap-processor.ts:154-173 | returns x's root (x itself when x has no entry, which is then added as its own root); path compression changes no `find` answer, the forest stays acyclic and the only new key is x |
| BinaryBitmap.UnionFind.Union | src/lib/embroidery/bitmap-processor.ts:175-181 | afterwards exactly the class of x has joined the class of y, every other `find` answer is as before, and the keys grow by x and y |
| BinaryBitmap.GetNeighborLabels | src/lib/embroidery/bitmap-processor.ts:59-73 | returns, in offset order, the positive labels found at the offsets (-1,-1), (-1,0), (-1,1), (0,-1) that fall inside the grid |
| BinaryBitmap.NeighborsMeaning | src/lib/embroidery/bitmap-processor.ts:59-73 | at most four labels are collected, and a value is collected exactly when it is positive and is the label at one of the four offsets |
| BinaryBitmap.NeighborOffsetsAsWritten | src/lib/embroidery/bitmap-processor.ts:60 | the offsets leave out the upper-right neighbour, which a row-major scan has already visited, and include the lower-left one, which it has not |
| BinaryBitmap.UpRightMissed | src/lib/embroidery/bitmap-processor.ts:59-73 | with the anti-diagonal 2 × 2 bitmap, pixel (0, 1) touches the labelled pixel (1, 0) but collects no neighbour label |
| BinaryBitmap.CausalOffsetsComplete | src/lib/embroidery/bitmap-processor.ts:60 | the corrected offsets are exactly the eight-neighbours a row-major scan visits before the pixel |
| BinaryBitmap.EarlierNeighbours | src/lib/embroidery/bitmap-processor.ts:34 | in the middle of the first pass the lower-left neighbour is still 0, every collected label is an existing one, and every labelled left, upper-left or upper neighbour is collected |
| BinaryBitmap.MinOf | src/lib/embroidery/bitmap-processor.ts:39 | `Math.min(...neighbors)` is one of the neighbours and no larger than any of them |
| BinaryBitmap.UnionAll | src/lib/embroidery/bitmap-processor.ts:40-42 | after the unions every neighbour label shares the root of the pixel's label, and no two labels that shared a root are separated |
| BinaryBitmap.LabelPixel | src/lib/embroidery/bitmap-processor.ts:31-43 | a background pixel keeps 0; a foreground pixel with no labelled neighbour gets the next new label; otherwise it gets the smallest neighbour label, united with all of them; the labels before the pixel stay below the next label and joined to their labelled earlier neighbours |
| BinaryBitmap.LabelRow | src/lib/embroidery/bitmap-processor.ts:30-44 | one row of the first pass extends the labelled, joined prefix of the grid by a whole row |
| BinaryBitmap.FindOf | src/lib/embroidery/bitmap-processor.ts:51 | the `find` of the second pass answers as the forest at the end of the first pass, which it leaves valid |
| BinaryBitmap.ResolveRow | src/lib/embroidery/bitmap-processor.ts:48-54 | one row of the second pass replaces every positive label by its root and leaves 0 alone |
| BinaryBitmap.ResolvedLabelling | src/lib/embroidery/bitmap-processor.ts:47-55 | resolving the provisional labels gives 0 exactly on the background, a positive label on the foreground, and equal labels for a foreground pixel and each of its labelled left, upper-left and upper neighbours |
| BinaryBitmap.Resolve | src/lib/embroidery/bitmap-processor.ts:47-53 | the second pass turns the first pass's labels into such a labelling and changes no `find` answer |
| BinaryBitmap.FindConnectedComponents | src/lib/embroidery/bitmap-processor.ts:21-56 | an empty bitmap throws (reading `bitmap[0].length`); otherwise the result is a fresh grid of the bitmap's size that is 0 on the background, positive on the foreground, and gives each foreground pixel the label of its labelled left, upper-left and upper neighbours |
| BinaryBitmap.OwnComponent | src/lib/embroidery/bitmap-processor.ts:84-86 | the component of a labelled pixel counts that pixel, so it has at least one pixel |
| BinaryBitmap.CountRow | src/lib/embroidery/bitmap-processor.ts:81-87 | counting one row adds to each positive label's entry its number of pixels in that row, and only positive labels get entries |
| BinaryBitmap.CountSizes | src/lib/embroidery/bitmap-processor.ts:79-88 | the sizes map gives every positive label its number of pixels in the grid, and has entries only for positive labels |
| BinaryBitmap.ClearRow | src/lib/embroidery/bitmap-processor.ts:92-97 | one row of the clearing loop leaves set exactly the pixels whose label is positive and whose component has at least minSize pixels, and no other row changes |
| BinaryBitmap.RemoveSmallComponents | src/lib/embroidery/bitmap-processor.ts:75-98 | an empty bitmap throws; otherwise a pixel stays set exactly when it was set and its component, as findConnectedComponents labels it, has at least minSize pixels; no pixel is set |
| BinaryBitmap.DilateErodeOrder | src/lib/embroidery/bitmap-processor.ts:100-144 | dilation only sets cells and erosion only clears them |
| BinaryBitmap.ErodeIsDualOfDilate | src/lib/embroidery/bitmap-processor.ts:100-144 | erosion is the complement of the dilation of the complement |
| BinaryBitmap.Copy | src/lib/embroidery/bitmap-processor.ts:103 | the copy is a fresh grid with the bitmap's cells |
| BinaryBitmap.DilatePixel | src/lib/embroidery/bitmap-processor.ts:108-118 | the 3 × 3 search with its two breaks sets an interior cell exactly when one of the nine copied cells around it is set, and touches no other cell |
| BinaryBitmap.ErodePixel | src/lib/embroidery/bitmap-processor.ts:131-141 | the 3 × 3 search with its two breaks clears an interior cell exactly when one of the nine copied cells around it is clear, and touches no other cell |
| BinaryBitmap.Dilate | src/lib/embroidery/bitmap-processor.ts:100-121 | an empty bitmap throws; otherwise every interior cell becomes the dilation of the original cells and the border keeps its cells |
| BinaryBitmap.Erode | src/lib/embroidery/bitmap-processor.ts:123-144 | an empty bitmap throws; otherwise every interior cell becomes the erosion of the original cells and the border keeps its cells |
| BinaryBitmap.CausalNeighborsComplete | src/lib/embroidery/bitmap-processor.ts:59-73 | with the corrected offsets, the label of every labelled neighbour the scan visited before the pixel is collected, and every collected label is positive and belongs to one of those neighbours |
| BinaryBitmap.UpRightFound | src/lib/embroidery/bitmap-processor.ts:59-73 | on the anti-diagonal 2 × 2 bitmap the corrected offsets collect the upper-right label 1 |
| EdgeProcessor.ApplyKernel | src/lib/embroidery/processors/EdgeProcessor.ts:44-60 | the loops return the kernel-weighted sum of the red values of the 3 × 3 neighbourhood |
| EdgeProcessor.ConvolveOf | src/lib/embroidery/processors/EdgeProcessor.ts:44-60 | that sum is the nine red samples, each times the kernel entry at its offset |
| EdgeProcessor.SobelX | src/lib/embroidery/processors/EdgeProcessor.ts:34-37 | sobelX is the right column minus the left column of red values, the middle row weighted twice |
| EdgeProcessor.SobelY | src/lib/embroidery/processors/EdgeProcessor.ts:39-42 | sobelY is the bottom row minus the top row of red values, the middle column weighted twice |
| EdgeProcessor.SobelPass | src/lib/embroidery/processors/EdgeProcessor.ts:6-26 | the first image has the input's size, is zero on the border, and holds (e, e, e, 255) at each interior pixel, e being 255 when the magnitude exceeds the threshold and 0 otherwise |
| EdgeProcessor.GetNeighborValues | src/lib/embroidery/processors/EdgeProcessor.ts:88-100 | the list holds the eight neighbours' red values row by row, without the centre |
| EdgeProcessor.IsLocalMaximum | src/lib/embroidery/processors/EdgeProcessor.ts:102-104 | the value is a local maximum exactly when every member of the neighbour list is at most the value; an empty list always passes |
| EdgeProcessor.FullIsLocalMaximum | src/lib/embroidery/processors/EdgeProcessor.ts:102-104 | 255 is at least every neighbour byte, so isLocalMaximum(255, neighbours) always holds |
| EdgeProcessor.ThinEdges | src/lib/embroidery/processors/EdgeProcessor.ts:62-86 | the thinned image has the input's size and is white and opaque exactly at the interior red-255 local maxima, zero elsewhere |
| EdgeProcessor.ThinnedPixel | src/lib/embroidery/processors/EdgeProcessor.ts:62-86 | thinning keeps every interior red-255 pixel as (255, 255, 255, 255) and makes every other pixel, the border included, (0, 0, 0, 0) |
| EdgeProcessor.DetectEdges | src/lib/embroidery/processors/EdgeProcessor.ts:4-32 | detectEdges is the Sobel pass followed by thinning, or the wrapped constructor error for an empty image |
| EdgeProcessor.DetectedEdges | src/lib/embroidery/processors/EdgeProcessor.ts:4-31 | with sqrt the square root, a non-empty image gives an output of its size whose every pixel is white or zero, white exactly at interior pixels where gx² + gy² > threshold² (always for a negative threshold) |
| EdgeProcessor.EmptyImageFails | src/lib/embroidery/processors/EdgeProcessor.ts:5-31 | an image of zero width or height fails with ProcessingError("Failed to detect edges") wrapping the constructor's InvalidStateError |
| EdgeAlgorithms.GradientSums | src/lib/embroidery/conversion/algorithms/edge.ts:14-24 | the i/j loops leave gx and gy equal to the flattened-kernel sums over the nine red samples around the pixel, reading kernel entry (i + 1)·3 + (j + 1) |
| EdgeAlgorithms.FlatKernelXAgrees | src/lib/embroidery/conversion/algorithms/edge.ts:9-24 | the flattened sobelX kernel gives the horizontal gradient of EdgeProcessor: right column minus left column of red values, the middle row weighted twice |
| EdgeAlgorithms.FlatKernelYAgrees | src/lib/embroidery/conversion/algorithms/edge.ts:10-24 | the flattened sobelY kernel gives the vertical gradient of EdgeProcessor: bottom row minus top row, the middle column weighted twice |
| EdgeAlgorithms.SobelEdgeDetection | src/lib/embroidery/conversion/algorithms/edge.ts:1-33 | both arrays have width·height entries; an interior pixel holds √(gx² + gy²) and atan2(gy, gx); every border entry stays 0 |
| EdgeAlgorithms.MagnitudeOf | src/lib/embroidery/conversion/algorithms/edge.ts:26-28 | with a true square root, an interior magnitude is non-negative and its square is gx² + gy²; on the border both arrays hold 0 |
| EdgeAlgorithms.SobelBorder | src/lib/embroidery/conversion/algorithms/edge.ts:6-7 | entries the loops never reach keep the arrays' initial 0 |
| EdgeAlgorithms.SuppressedValue | src/lib/embroidery/conversion/algorithms/edge.ts:45-65 | the angle is direction·180/π, its bin picks the two neighbours, and the value is the magnitude when it is at least both, else 0 |
| EdgeAlgorithms.NonMaximumSuppression | src/lib/embroidery/conversion/algorithms/edge.ts:35-70 | the result has the input's length, holds the suppressed value at every interior pixel and 0 on the border |
| EdgeAlgorithms.Survives | src/lib/embroidery/conversion/algorithms/edge.ts:43-67 | every entry is 0 or the pixel's own magnitude, 0 on the border; inside, the magnitude is kept when it is at least both neighbours one step either way along the bin's direction, and a non-zero entry means it was at least both |
| EdgeAlgorithms.AcrossNeighbours | src/lib/embroidery/conversion/algorithms/edge.ts:51-63 | the bins compare left and right, up-right and down-left, up and down, up-left and down-right: two neighbours opposite each other across the pixel |
| EdgeAlgorithms.NegativeAngleIsHorizontal | src/lib/embroidery/conversion/algorithms/edge.ts:46-53 | a negative direction, like an angle above 157.5°, falls in the horizontal bin, which compares idx - 1 and idx + 1 |
| EdgeAlgorithms.SquareSide | src/lib/embroidery/conversion/algorithms/edge.ts:39-41 | Math.sqrt of a square length side² is side, so width = height = side and width·height is the length again |
| EdgeAlgorithms.PushNeighbours | src/lib/embroidery/conversion/algorithms/edge.ts:102-110 | the i/j loops append the in-image neighbours of the pixel, row by row, to the stack |
| EdgeAlgorithms.NeighbourListOf | src/lib/embroidery/conversion/algorithms/edge.ts:101-110 | the positions pushed are exactly the in-image positions 8-connected to the pixel, the pixel itself included |
| EdgeAlgorithms.MarkUnvisited | src/lib/embroidery/conversion/algorithms/edge.ts:91-92 | marking an unvisited pixel lowers the number of unvisited pixels by one, so each pixel is expanded at most once and trace ends |
| EdgeAlgorithms.MarkPainted | src/lib/embroidery/conversion/algorithms/edge.ts:92-99 | after a visit the result is white exactly at the visited pixels at least lowThreshold and zero elsewhere |
| EdgeAlgorithms.Visit | src/lib/embroidery/conversion/algorithms/edge.ts:88-111 | a popped unvisited pixel is marked visited and nothing else is; when at least lowThreshold it is painted and its neighbours are pushed, each reached through a chain from a strong pixel |
| EdgeAlgorithms.Trace | src/lib/embroidery/conversion/algorithms/edge.ts:84-113 | the seed ends visited, no visited pixel is unvisited again, and the result stays white exactly at the visited pixels at least lowThreshold, each with a chain back to a strong pixel |
| EdgeAlgorithms.Outcome | src/lib/embroidery/conversion/algorithms/edge.ts:115-125 | once every strong pixel is visited, every white pixel is at least lowThreshold and connected to a strong pixel, and with low ≤ high every strong pixel is white |
| EdgeAlgorithms.Hysteresis | src/lib/embroidery/conversion/algorithms/edge.ts:72-126 | a zero side fails with IndexSizeError; otherwise the result is side × side, every pixel is white or zero in all four channels, a white pixel is at least lowThreshold and 8-connected through such pixels to one at least highThreshold, and with low ≤ high every pixel at least highThreshold is white |
| Tracing.NextStep | src/lib/embroidery/conversion/algorithms/contour.ts:52-67 | a step found from direction k on is an in-image, unvisited edge pixel, an 8-neighbour of the current pixel and not the pixel itself; no step is found exactly when every direction from k on is closed |
| Tracing.StepIsFirst | src/lib/embroidery/conversion/algorithms/contour.ts:52-64 | the step taken is the first open direction in the order of the directions array: every direction tried before it is closed |
| Tracing.DirectionOf | src/lib/embroidery/conversion/algorithms/contour.ts:34-38 | the eight directions reach every 8-neighbour of a pixel |
| Tracing.DeadEnd | src/lib/embroidery/conversion/algorithms/contour.ts:50-68 | when no step is found, none of the 8-neighbours is an in-image, unvisited edge pixel |
| Tracing.TrailIsWalk | src/lib/embroidery/conversion/algorithms/contour.ts:27-71 | a traced walk is empty exactly when its start was visited, and otherwise starts there; its points are distinct image pixels not visited before; consecutive points are distinct 8-neighbours and every point after the first is an edge pixel; exactly its points join the visited set; and at its end no neighbour of its last point is open |
| Tracing.FindStep | src/lib/embroidery/conversion/algorithms/contour.ts:52-67 | the `for … of directions` loop with its break finds a neighbour exactly when NextStep does, and the same one |
| Tracing.TraceContour | src/lib/embroidery/conversion/algorithms/contour.ts:40-70 | the while loop returns the points and the visited set of the walk Trail from the start |
| Tracing.ScanStep | src/lib/embroidery/conversion/algorithms/contour.ts:9-21 | one pixel of the raster scan: an unvisited edge pixel where a walk may start is traced, and its walk kept when long enough; any other pixel changes nothing |
| Tracing.ScanIsGood | src/lib/embroidery/conversion/algorithms/contour.ts:3-25 | after every pixel of the scan the kept contours are long enough, start where a walk may start, lie on visited edge pixels, are chained by 8-neighbour steps, share no pixel and start in strictly increasing raster order; and every earlier edge pixel where a walk may start has been visited |
| ContourAlgorithms.FindContours | src/lib/embroidery/conversion/algorithms/contour.ts:3-25 | the nested loops return the contours of the raster scan over the whole image, as points |
| ContourAlgorithms.ScanPixel | src/lib/embroidery/conversion/algorithms/contour.ts:11-20 | the inner loop's body advances the scan by the pixel at raster index y·width + x |
| ContourAlgorithms.ContoursOfImage | src/lib/embroidery/conversion/algorithms/contour.ts:3-25 | every contour found has at least three points, each a pixel of the image whose red byte exceeds 128; consecutive points are distinct 8-neighbours; no pixel occurs twice in all the contours; and the contours start in strictly increasing raster order |
| ContourAlgorithms.SmoothContour | src/lib/embroidery/conversion/algorithms/contour.ts:98-124 | the push loop computes Smooth |
| ContourAlgorithms.Window | src/lib/embroidery/conversion/algorithms/contour.ts:106-115 | the window loop sums the three points at offsets -1, 0 and 1 around the closed contour, and counts 3 |
| ContourAlgorithms.AroundIs | src/lib/embroidery/conversion/algorithms/contour.ts:111 | the wrapped index (i + j + length) % length reaches the point before i for j = -1, point i for j = 0 and the point after i for j = 1, the last and first points being neighbours |
| ContourAlgorithms.WindowOf | src/lib/embroidery/conversion/algorithms/contour.ts:110-115 | the window of point i sums the point before it, itself and the point after it |
| ContourAlgorithms.SmoothProperties | src/lib/embroidery/conversion/algorithms/contour.ts:98-124 | smoothing keeps the number of points; factor 0 changes nothing; two points or fewer are returned as they are; with factor 1 every point becomes the mean of itself and its two circular neighbours |
| ContourAlgorithms.SmoothFixesConstant | src/lib/embroidery/conversion/algorithms/contour.ts:98-124 | a contour whose points all coincide is returned unchanged, whatever the factor |
| ContourTracer.NothingVisited | src/lib/embroidery/contour-tracer.ts:10 | the fresh zero-filled visited array marks no pixel as visited |
| ContourTracer.MarkVisited | src/lib/embroidery/contour-tracer.ts:59-60 | writing 1 at the raster index of an image pixel marks exactly that pixel as visited, and no other |
| ContourTracer.LineDistMeaning | src/lib/embroidery/contour-tracer.ts:146-160 | with a true square root the distance is non-negative, its square times the squared chord is the squared cross product, and it is zero exactly for points on the line through the two ends; for equal ends cross product and chord are both zero |
| ContourTracer.ChordPositive | src/lib/embroidery/contour-tracer.ts:154-157 | two distinct ends span a chord of positive squared length |
| ContourTracer.SquarePositive | src/lib/embroidery/contour-tracer.ts:155-156 | `Math.pow(d, 2)` is never negative and is positive unless d is zero |
| ContourTracer.ZeroChordNeverFarthest | src/lib/embroidery/contour-tracer.ts:103-106 | where the chord has length zero the distance never exceeds the running maximum, so the farthest-point search treats it as the source's NaN |
| ContourTracer.EdgeAtBytes | src/lib/embroidery/contour-tracer.ts:19 | the edge test of the walk is exactly `edges[idx] === 255` at the pixel's raster index, an index past the end reading as no edge |
| ContourTracer.MirrorsReads | src/lib/embroidery/contour-tracer.ts:73 | an in-image neighbour is open for the walk exactly when its edge byte is 255 and its visited byte is 0 |
| ContourTracer.Probe | src/lib/embroidery/contour-tracer.ts:65-79 | a neighbour is taken exactly when it lies inside the image, is an edge pixel and has not been visited |
| ContourTracer.FindNext | src/lib/embroidery/contour-tracer.ts:63-80 | the directions loop finds a next pixel exactly when some direction is open, and then the first open one in the order of the directions array |
| ContourTracer.Visit | src/lib/embroidery/contour-tracer.ts:59-80 | after marking the current pixel visited, the next pixel is the first open neighbour, an unvisited in-image edge pixel, and the visited bytes still mirror the visited set |
| ContourTracer.TraceContour | src/lib/embroidery/contour-tracer.ts:39-88 | the returned points and the visited pixels are the walk from the start pixel (Tracing.Trail: distinct in-image edge pixels, consecutive ones 8-neighbours, first open direction taken, stopping where no neighbour is open), and the visited array records exactly the visited set |
| ContourTracer.SmoothContour | src/lib/embroidery/contour-tracer.ts:118-144 | the result is the smoothing with factor 1: input of at most two points unchanged, otherwise each point the mean of itself and its two circular neighbours |
| ContourTracer.RawContoursGood | src/lib/embroidery/contour-tracer.ts:12-22 | every walk the scan keeps has at least 10 points and starts at an interior pixel; its points are in-image pixels whose edge byte is 255, consecutive points are 8-neighbours, and no pixel occurs twice across all walks |
| ContourTracer.RefinedLength | src/lib/embroidery/contour-tracer.ts:24-25 | simplifying with tolerance 1.0 and smoothing a walk of at least two points leaves at least two points and never more than the walk had |
| ContourTracer.TracedShape | src/lib/embroidery/contour-tracer.ts:14-36 | traceContours throws "No contours found in image. Try adjusting the edge threshold." exactly when no walk is kept, and otherwise returns one contour per kept walk, each of between two points and the walk's length; an image narrower or lower than three pixels always throws |
| ContourTracer.SkipBorder | src/lib/embroidery/contour-tracer.ts:15-16 | pixels on the one-pixel border start no walk, so the scan passes over them unchanged |
| ContourTracer.TraceContours | src/lib/embroidery/contour-tracer.ts:4-37 | the result is the interior raster scan's kept walks, each simplified with tolerance 1.0 and smoothed, in scan order, or the error when none is kept |
| ContourTracer.ScanInterior | src/lib/embroidery/contour-tracer.ts:15-30 | the row loop computes the scan over all pixels with walks of at least 10 points kept, each refined |
| ContourTracer.ScanRow | src/lib/embroidery/contour-tracer.ts:16-29 | one row of the inner loop advances the scan by one row's pixels and keeps the refined contours in step with the kept walks |
| ContourTracer.ScanPixel | src/lib/embroidery/contour-tracer.ts:17-28 | one pixel of the scan: a walk is traced from an unvisited interior edge pixel and kept, simplified and smoothed, when it has at least 10 points; otherwise nothing changes |
| ContourTracer.NextRow | src/lib/embroidery/contour-tracer.ts:15-17 | the first interior pixel of the next row lies width pixels further on and still inside the image |
| ContourTracer.RowEnd | src/lib/embroidery/contour-tracer.ts:15-16 | the two border pixels between rows leave the scan unchanged |
| Tracing.SkipScan | src/lib/embroidery/contour-tracer.ts:15-16 | a run of pixels where no walk may start leaves the scan unchanged |
| ContourProcessor.DistanceMeaning | src/lib/embroidery/processors/ContourProcessor.ts:101-105 | with a true square root, `distance(p1, p2) >= 1.0` holds exactly when dx² + dy² ≥ 1 |
| ContourProcessor.SimplifyContour | src/lib/embroidery/processors/ContourProcessor.ts:74-99 | the loop with its last kept point and the closing step compute the greedy simplification: the first point, every later point at least 1.0 from the point kept before it, and a copy of the first point when the ends are 1.0 or more apart |
| ContourProcessor.SubsequenceOfTail | src/lib/embroidery/processors/ContourProcessor.ts:81-89 | points that occur in order in the tail of a sequence occur in order in the sequence |
| ContourProcessor.SubsequenceOfFull | src/lib/embroidery/processors/ContourProcessor.ts:81-89 | dropping the first point of an in-order selection and of the sequence keeps it an in-order selection |
| ContourProcessor.ThinIsSubsequence | src/lib/embroidery/processors/ContourProcessor.ts:81-89 | the points the loop keeps occur in the input, in the input's order |
| ContourProcessor.SpacedCons | src/lib/embroidery/processors/ContourProcessor.ts:85-87 | a point at least 1.0 from the next kept point extends a spaced run in front |
| ContourProcessor.ThinSpaced | src/lib/embroidery/processors/ContourProcessor.ts:79-89 | every point the loop keeps is at least 1.0 from the point kept before it, the first from points[0] |
| ContourProcessor.ThinNothing | src/lib/embroidery/processors/ContourProcessor.ts:81-89 | the loop keeps nothing after a point exactly when every later point is closer than 1.0 to it |
| ContourProcessor.SimplifiedShape | src/lib/embroidery/processors/ContourProcessor.ts:74-99 | input of at most two points comes back unchanged; otherwise the result starts with the first point, consecutive points are at least 1.0 apart, it either ends with a copy of the first point or its ends are closer than 1.0, and before the closing copy it is the first point followed by an in-order selection of the rest |
| ContourProcessor.SimplifyAllSnoc | src/lib/embroidery/processors/ContourProcessor.ts:15-17 | pushing one more simplified walk appends it to the simplified contours |
| ContourProcessor.TraceContours | src/lib/embroidery/processors/ContourProcessor.ts:4-23 | the result is the raster scan over every pixel with the shared visited set, keeping the walks of at least three points from unvisited pixels whose red byte is 255, each simplified, in scan order |
| ContourProcessor.ScanPixel | src/lib/embroidery/processors/ContourProcessor.ts:10-18 | one pixel of the scan: a walk is traced from an unvisited pixel whose red byte is 255, and kept, simplified, when it has at least three points; otherwise nothing changes |
| ContourProcessor.ContoursOfEdges | src/lib/embroidery/processors/ContourProcessor.ts:4-72 | one simplified contour per kept walk, an empty list rather than an error when there is none; every kept walk has at least three points, all image pixels whose red byte is 255, consecutive points distinct 8-neighbours, no pixel in two places, and its simplified contour starts at its first pixel |
| ContourOptimizer.ClampRule | src/lib/embroidery/contour-optimizer.ts:117-120 | the projection parameter is clamped into [0, 1]: unchanged inside, 0 below and 1 above |
| ContourOptimizer.PerpendicularDistance | src/lib/embroidery/contour-optimizer.ts:108-128 | for a segment whose ends coincide the distance is the distance to that point; with a true square root it is never negative and never more than the distance to either end of the segment |
| ContourOptimizer.FootNearerThanEnds | src/lib/embroidery/contour-optimizer.ts:117-127 | the clamped projection is no farther from the point than either end of the segment |
| ContourOptimizer.ClampedQuadratic | src/lib/embroidery/contour-optimizer.ts:117-120 | at the clamped projection parameter the squared distance lies at or below its values at both ends of the segment |
| ContourOptimizer.FootPerpendicular | src/lib/embroidery/contour-optimizer.ts:117-127 | when the raw projection lies in [0, 1], the offset from the projected point to the point is orthogonal to the segment |
| ContourOptimizer.FarthestBefore | src/lib/embroidery/contour-optimizer.ts:14-20 | the running maximum has a non-negative distance and an index below i, and stays at index 0 exactly while no positive distance was seen |
| ContourOptimizer.FarthestIsMax | src/lib/embroidery/contour-optimizer.ts:14-20 | no inner point's offset exceeds maxDist; when maxIndex is not 0 maxDist is the offset at maxIndex, and every earlier inner point has a strictly smaller offset |
| ContourOptimizer.FindFarthest | src/lib/embroidery/contour-optimizer.ts:10-20 | the farthest-point loop computes the running maximum over all inner points |
| ContourOptimizer.Simplify | src/lib/embroidery/contour-optimizer.ts:5-30 | for any point-to-chord distance (the class's own is perpendicularDistance, as `Perpendicular(math)`): two points or fewer come back unchanged; a result of a longer contour keeps its first and last points and is no longer than the input |
| ContourOptimizer.SimplifyContour | src/lib/embroidery/contour-optimizer.ts:5-30 | the recursive method with its loop computes Simplify |
| ContourOptimizer.SimplifyTerminates | src/lib/embroidery/contour-optimizer.ts:5-30 | with a tolerance of at least 0 the recursion always ends with a result |
| ContourOptimizer.NegativeToleranceDiverges | src/lib/embroidery/contour-optimizer.ts:22-27 | with a negative tolerance and every point on the chord, the split index is 0 and the recursion never ends |
| ContourOptimizer.SimplifyKeepsOrder | src/lib/embroidery/contour-optimizer.ts:22-29 | the simplified contour is the points of the input at strictly increasing indices, from the first index to the last |
| ContourOptimizer.JoinPicks | src/lib/embroidery/contour-optimizer.ts:25-27 | joining the two halves without the repeated split point keeps the indices increasing and shifts the right half's by the split index |
| ContourOptimizer.MeasureSegments | src/lib/embroidery/contour-optimizer.ts:39-45 | the first loop builds one segment per pair of consecutive points and sums their lengths |
| ContourOptimizer.SeekSegment | src/lib/embroidery/contour-optimizer.ts:60-64 | the inner loop computes Seek |
| ContourOptimizer.Seek | src/lib/embroidery/contour-optimizer.ts:60-64 | the segment index never decreases and stays on a segment; it stops on the last segment or on one that reaches the target |
| ContourOptimizer.SeekCovered | src/lib/embroidery/contour-optimizer.ts:60-64 | distanceCovered stays the summed length of the segments before the current one |
| ContourOptimizer.CursorForward | src/lib/embroidery/contour-optimizer.ts:56-64 | from one stitch to the next the segment cursor only moves forward and never passes the last segment |
| ContourOptimizer.PlaceStitches | src/lib/embroidery/contour-optimizer.ts:49-73 | the stitch loop pushes stitch i at target i for every i below numStitches |
| ContourOptimizer.GenerateRunningStitch | src/lib/embroidery/contour-optimizer.ts:33-76 | the method computes RunningStitch, including the zero-spacing and short-path cases |
| ContourOptimizer.RunningStitchCount | src/lib/embroidery/contour-optimizer.ts:48 | with a non-zero spacing and two points or more there are max(2, ceil(totalLength / spacing)) stitches: 2 up to one spacing of length, else the least whole number at or above totalLength / spacing |
| ContourOptimizer.ZeroSpacing | src/lib/embroidery/contour-optimizer.ts:48-56 | a zero spacing gives no stitches for a zero-length path and a loop that never ends for a longer one |
| ContourOptimizer.ShortPathThrows | src/lib/embroidery/contour-optimizer.ts:66-67 | with fewer than two points and a non-zero spacing, reading the first segment throws |
| ContourOptimizer.TargetEnds | src/lib/embroidery/contour-optimizer.ts:49-57 | the targets start at 0, step by actualSpacing and reach the total length at the last stitch |
| ContourOptimizer.RunningStitchEnds | src/lib/embroidery/contour-optimizer.ts:56-72 | when no segment has zero length the first stitch is the path's first point and the last stitch its last point |
| ContourOptimizer.NearestIn | src/lib/embroidery/contour-optimizer.ts:87-96 | the chosen point is no farther from current than any point seen, and strictly nearer than every earlier one |
| ContourOptimizer.FindNearest | src/lib/embroidery/contour-optimizer.ts:87-96 | the inner loop finds no point in an empty set and otherwise the first nearest remaining point |
| ContourOptimizer.OptimizeStitchOrder | src/lib/embroidery/contour-optimizer.ts:79-106 | the method computes OptimizeOrder |
| ContourOptimizer.GreedyPermutation | src/lib/embroidery/contour-optimizer.ts:86-103 | the greedy walk outputs every remaining point exactly once |
| ContourOptimizer.OptimizeOrderPermutes | src/lib/embroidery/contour-optimizer.ts:79-103 | two stitches or fewer come back unchanged; otherwise the result starts with the first stitch and is a permutation of the input |
| ContourOptimizer.GreedyNearest | src/lib/embroidery/contour-optimizer.ts:88-102 | each output point is a nearest one, from the point output before it, among all the points still to come |
| Geometry.CrossingOnBoth | src/lib/embroidery/stitch-generator.ts:205-225 | for non-parallel segments the point at ua on the first line, which lineIntersection returns, is the point at ub on the second, so it lies on both |
| StitchGenerationStep.Area | src/lib/embroidery/conversion/steps/StitchGenerationStep.ts:88-96 | the area is never negative |
| StitchGenerationStep.CalculateArea | src/lib/embroidery/conversion/steps/StitchGenerationStep.ts:88-96 | the loop's result is half the absolute shoelace sum over every edge of the closed polygon, the edge from the last point back to the first included |
| StitchGenerationStep.DegenerateArea | src/lib/embroidery/conversion/steps/StitchGenerationStep.ts:88-96 | a contour of one or two points has area 0 |
| StitchGenerationStep.UnitSquareArea | src/lib/embroidery/conversion/steps/StitchGenerationStep.ts:88-96 | sanity check on one concrete input: the unit square has area 1 |
| StitchGenerationStep.CalculatePerimeter | src/lib/embroidery/conversion/steps/StitchGenerationStep.ts:98-107 | the loop's result is the sum of the square roots of the squared edge lengths over every edge |
| StitchGenerationStep.PerimeterCloses | src/lib/embroidery/conversion/steps/StitchGenerationStep.ts:98-107 | the perimeter is the sum over the edges between consecutive points plus the closing edge from the last point to the first |
| StitchGenerationStep.EdgesInOrder | src/lib/embroidery/conversion/steps/StitchGenerationStep.ts:91 | every edge but the last joins a point to the next one |
| StitchGenerationStep.PerimeterNonNegative | src/lib/embroidery/conversion/steps/StitchGenerationStep.ts:98-107 | with a non-negative square root the perimeter is never negative |
| StitchGenerationStep.Classify | src/lib/embroidery/conversion/steps/StitchGenerationStep.ts:59-68 | for a non-zero perimeter the zone is fill iff the compactness exceeds 0.8, satin iff it is below 0.2 and running iff it lies in 0.2..0.8 inclusive; for a zero perimeter the sign of π·area decides (±Infinity), with NaN falling through to running |
| StitchGenerationStep.AnalyzeStitchZones | src/lib/embroidery/conversion/steps/StitchGenerationStep.ts:55-70 | one zone per contour |
| StitchGenerationStep.ZoneRules | src/lib/embroidery/conversion/steps/StitchGenerationStep.ts:55-70 | zone k holds contour k with no angle or density; for a non-zero perimeter it is fill iff the compactness exceeds 0.8, satin iff it is below 0.2, running iff it lies in 0.2..0.8 inclusive |
| StitchGenerationStep.Generated | src/lib/embroidery/conversion/steps/StitchGenerationStep.ts:20-29 | after n zones the run has completed at most n of them, and all n when no generator threw |
| StitchGenerationStep.GenerateZones | src/lib/embroidery/conversion/steps/StitchGenerationStep.ts:20-29 | the loop's stitches and progress reports are those of the zone-by-zone run |
| StitchGenerationStep.AllGenerated | src/lib/embroidery/conversion/steps/StitchGenerationStep.ts:20-29 | when every generator succeeds the stitches are the zones' outputs concatenated in zone order |
| StitchGenerationStep.FailurePersists | src/lib/embroidery/conversion/steps/StitchGenerationStep.ts:23-25 | once a generator has thrown the later zones change nothing |
| StitchGenerationStep.FirstFailureStops | src/lib/embroidery/conversion/steps/StitchGenerationStep.ts:23-25 | the run fails with the error of the first failing zone, after completing the zones before it |
| StitchGenerationStep.Execute | src/lib/embroidery/conversion/steps/StitchGenerationStep.ts:9-53 | execute returns the specified context or error and makes the specified progress calls |
| StitchGenerationStep.ExecuteRules | src/lib/embroidery/conversion/steps/StitchGenerationStep.ts:9-53 | missing contours fail with "Stitch generation failed" wrapping "Contours are required"; success iff every zone generator succeeds; on success only the pattern changes, with the concatenated stitches, the settings' colour and size |
| StitchGenerationStep.FinalReport | src/lib/embroidery/conversion/steps/StitchGenerationStep.ts:27-28 | after all n zones the rounded running sum of 100/n is 100 |
| StitchGenerationStep.ProgressReports | src/lib/embroidery/conversion/steps/StitchGenerationStep.ts:27-28 | a successful run with a callback reports once per contour under "stitches", ending at 100 |
| StitchGenerator.Spacing | src/lib/embroidery/stitch-generator.ts:56 | the stitch spacing 1 / density is positive for a positive density |
| StitchGenerator.UnderlaySettings | src/lib/embroidery/stitch-generator.ts:21-28 | the underlay keeps the colour and halves the density |
| StitchGenerator.UnderlayAngleRules | src/lib/embroidery/stitch-generator.ts:21 | the underlay angle is angle + 90 for angles in [-90, 270), angle - 270 in [270, 630), lies in [0, 360) from -90 up and in (-360, 0] below, as JavaScript's truncating remainder gives |
| StitchGenerator.Underlay | src/lib/embroidery/stitch-generator.ts:20-31 | the underlay pass yields the fill at the turned angle and half density when enabled, and nothing otherwise |
| StitchGenerator.BoundsOfIsBox | src/lib/embroidery/stitch-generator.ts:158-179 | the box of a non-empty point list encloses every point and each side is attained by a point; the list is empty exactly when no box exists |
| StitchGenerator.CalculateBounds | src/lib/embroidery/stitch-generator.ts:158-179 | the nested loops over every point of every contour compute the box of all the points |
| StitchGenerator.FrameOf | src/lib/embroidery/stitch-generator.ts:88-106 | the frame computed from a box has a positive spacing |
| StitchGenerator.FillFrame | src/lib/embroidery/stitch-generator.ts:88-106 | the frame of the contours' box has a positive spacing |
| StitchGenerator.FrameFor | src/lib/embroidery/stitch-generator.ts:88-106 | spacing, direction (cos, sin of the angle in radians), diagonal, numLines = ceil(diagonal / spacing) and centre computed from the box are the frame of that box |
| StitchGenerator.FillSetup | src/lib/embroidery/stitch-generator.ts:88-106 | the code before the scan-line loop computes the frame of the contours' box |
| StitchGenerator.Diagonal | src/lib/embroidery/stitch-generator.ts:97-100 | the diagonal is the square root of the box's squared diagonal |
| StitchGenerator.LineCountRule | src/lib/embroidery/stitch-generator.ts:102-108 | with a non-negative diagonal there are 2 ceil(diagonal / spacing) + 1 scan lines |
| StitchGenerator.ScanLineGeometry | src/lib/embroidery/stitch-generator.ts:109-117 | scan line i runs 2 diagonal along the fill direction and its midpoint is the box centre moved i spacings across it |
| StitchGenerator.MakeLine | src/lib/embroidery/stitch-generator.ts:109-117 | the loop body's line is the scan line of index i |
| StitchGenerator.LineIntersection | src/lib/embroidery/stitch-generator.ts:205-225 | near-parallel segments (denominator below 1e-10 in size) give no crossing, and a crossing returned lies on both segments |
| StitchGenerator.IntersectionRules | src/lib/embroidery/stitch-generator.ts:205-225 | no crossing when the denominator is below 1e-10 in size; otherwise a crossing exactly when ua and ub lie in [0, 1], and then it is the point at ua on the first segment and at ub on the second |
| StitchGenerator.SameIntersection | src/lib/embroidery/stitch-generator.ts:205-225 | this lineIntersection agrees with the scan-line fill's on every input |
| StitchGenerator.ContourCrossings | src/lib/embroidery/stitch-generator.ts:189-199 | the first n edges of a contour give at most n crossings |
| StitchGenerator.ContourIntersections | src/lib/embroidery/stitch-generator.ts:189-199 | the inner loop appends the crossings with the edges contour[i] → contour[i + 1], in order |
| StitchGenerator.FindIntersections | src/lib/embroidery/stitch-generator.ts:181-203 | findIntersections returns the crossings of every contour, contour by contour |
| StitchGenerator.ContourCrossingsFromEdges | src/lib/embroidery/stitch-generator.ts:189-199 | a contour's crossings are exactly those of its open edges c[i] → c[i + 1] |
| StitchGenerator.CrossingsFromEdges | src/lib/embroidery/stitch-generator.ts:181-203 | every crossing found lies on an open edge of some contour, and every open edge's crossing is found |
| StitchGenerator.CrossingsOnEdges | src/lib/embroidery/stitch-generator.ts:181-203 | every crossing findIntersections returns lies on an open edge c[i] → c[i + 1] of some contour |
| StitchGenerator.EdgeCrossingsFound | src/lib/embroidery/stitch-generator.ts:181-203 | the crossing of every open edge of every contour is among those findIntersections returns |
| StitchGenerator.OpenContourExample | src/lib/embroidery/stitch-generator.ts:189 | a diagonal that crosses only the edge from the last point back to the first finds no crossing: there is no closing edge |
| StitchGenerator.PairSteps | src/lib/embroidery/stitch-generator.ts:133-134 | every pair is divided into at least one step |
| StitchGenerator.PairShape | src/lib/embroidery/stitch-generator.ts:130-152 | a pair gives its start (a jump for the line's first pair, normal otherwise) then max(1, ceil(distance / spacing)) evenly spaced normal stitches, the last on the pair's end |
| StitchGenerator.DividePair | src/lib/embroidery/stitch-generator.ts:143-151 | the inner loop appends the stitches at step / steps for step = 1 .. steps |
| StitchGenerator.PushPair | src/lib/embroidery/stitch-generator.ts:131-151 | one pass of the pair loop appends the pair's stitches |
| StitchGenerator.PushPairs | src/lib/embroidery/stitch-generator.ts:130-152 | the loop with j += 2 appends the stitches of pairs (0, 1), (2, 3), ..., dropping an odd last crossing |
| StitchGenerator.SortedAlongLine | src/lib/embroidery/stitch-generator.ts:123-127 | the crossings are sorted by their projection on the fill direction and are a permutation of those found |
| StitchGenerator.LineFillRules | src/lib/embroidery/stitch-generator.ts:119-152 | a scan line with fewer than two crossings gets no stitches; otherwise its first stitch is a jump to its first crossing along the line |
| StitchGenerator.LineFillThreaded | src/lib/embroidery/stitch-generator.ts:136-150 | a scan line's stitches are normal stitches and jumps in the fill colour |
| StitchGenerator.FillLine | src/lib/embroidery/stitch-generator.ts:119-152 | one pass of the scan-line loop appends that line's stitches |
| StitchGenerator.ScanLines | src/lib/embroidery/stitch-generator.ts:108-153 | the loop for i = -numLines .. numLines appends every scan line's stitches in order |
| StitchGenerator.GenerateFillStitches | src/lib/embroidery/stitch-generator.ts:83-156 | generateFillStitches yields the fill of the contours |
| StitchGenerator.FillThreaded | src/lib/embroidery/stitch-generator.ts:83-156 | the fill is made of normal stitches and jumps in the settings' colour |
| StitchGenerator.OneStep | src/lib/embroidery/stitch-generator.ts:65-67 | a segment at least one spacing long takes at least one step |
| StitchGenerator.LastStep | src/lib/embroidery/stitch-generator.ts:70-73 | the last step of a division lands on the segment's end |
| StitchGenerator.OutlineSegmentShape | src/lib/embroidery/stitch-generator.ts:59-77 | a segment shorter than one spacing gets nothing; a longer one gets ceil(d / spacing) + 1 evenly spaced stitches from its start to its end, a jump then normal ones |
| StitchGenerator.DivideOutline | src/lib/embroidery/stitch-generator.ts:69-77 | the inner loop appends the stitches at step / steps for step = 0 .. steps, the first a jump |
| StitchGenerator.OutlineSegmentOf | src/lib/embroidery/stitch-generator.ts:59-77 | one pass of the outline loop appends the segment's stitches, or nothing for a short segment |
| StitchGenerator.GenerateOutlineStitches | src/lib/embroidery/stitch-generator.ts:50-81 | generateOutlineStitches appends the stitches of the segments points[i - 1] → points[i] in order |
| StitchGenerator.OutlineThreaded | src/lib/embroidery/stitch-generator.ts:50-81 | an outline is made of normal stitches and jumps in its colour |
| StitchGenerator.OutlineContours | src/lib/embroidery/stitch-generator.ts:34-41 | the loop over the contours appends their outlines in contour order |
| StitchGenerator.GenerateStitches | src/lib/embroidery/stitch-generator.ts:4-48 | generateStitches yields the underlay fill (when enabled), then the outlines in contour order, then the main fill |
| StitchGenerator.StitchesThreaded | src/lib/embroidery/stitch-generator.ts:4-48 | everything generateStitches emits is a normal stitch or a jump in the settings' colour |
| FillGenerator.Spacing | src/lib/embroidery/fill-generator.ts:12 | the line spacing is never zero, so the division by it is defined |
| FillGenerator.FillDefaults | src/lib/embroidery/fill-generator.ts:12-13 | a missing or zero spacing is 0.4 and a missing or zero angle is 0 radians |
| FillGenerator.EmptyFill | src/lib/embroidery/fill-generator.ts:9 | an empty point list gives no stitches |
| FillGenerator.CalculateBounds | src/lib/embroidery/fill-generator.ts:51-60 | the box encloses every point and each of its four sides is attained by some point |
| FillGenerator.RotatedWidth | src/lib/embroidery/fill-generator.ts:73 | the box's extent across the fill direction is never negative |
| FillGenerator.GenerateFillLines | src/lib/embroidery/fill-generator.ts:62-95 | the loop builds the scan lines for i = -numLines .. numLines in order |
| FillGenerator.FillLineCount | src/lib/embroidery/fill-generator.ts:75-78 | with a positive spacing there are 2 ceil(rotatedWidth / spacing) + 1 lines and the middle one passes through the box's centre |
| FillGenerator.FillLineGeometry | src/lib/embroidery/fill-generator.ts:78-91 | line k is centred k - numLines spacings from the box's centre along (cos, sin) and spans 2 diagonal along (sin, -cos) |
| FillGenerator.LineIntersection | src/lib/embroidery/fill-generator.ts:117-135 | near-parallel segments (denominator below 1e-10 in size) give no crossing, and a crossing returned lies on both segments |
| FillGenerator.IntersectionRules | src/lib/embroidery/fill-generator.ts:117-135 | near-parallel segments give no crossing; otherwise a crossing is returned exactly when ua and ub lie in [0, 1], and it is the same point on both segments |
| FillGenerator.Intersections | src/lib/embroidery/fill-generator.ts:101-114 | there are at most as many crossings as edges |
| FillGenerator.FindIntersections | src/lib/embroidery/fill-generator.ts:97-115 | the loop collects the crossings with edges 0 .. n - 1 in edge order |
| FillGenerator.IntersectionsFromEdges | src/lib/embroidery/fill-generator.ts:103-112 | every crossing found comes from an edge of the closed polygon, and every edge that crosses contributes its crossing |
| FillGenerator.ClosingEdge | src/lib/embroidery/fill-generator.ts:104 | the last edge runs from the last point back to the first, and a crossing on it is the last one found |
| FillGenerator.Pairs | src/lib/embroidery/fill-generator.ts:29-44 | m pairs give 2m stitches |
| FillGenerator.PushPairs | src/lib/embroidery/fill-generator.ts:29-44 | the inner loop appends the pairs (0, 1), (2, 3), ... of the sorted crossings, dropping an odd last one |
| FillGenerator.PairsInOrder | src/lib/embroidery/fill-generator.ts:29-44 | stitches 2k and 2k + 1 are the crossings 2k and 2k + 1 as normal stitches in the given colour |
| FillGenerator.LineStitchesSorted | src/lib/embroidery/fill-generator.ts:24-44 | a line's stitches are its crossings sorted by ascending y, a permutation of them, joined in consecutive pairs, so each pair runs upwards in y |
| FillGenerator.FewCrossings | src/lib/embroidery/fill-generator.ts:24 | a line with fewer than two crossings adds nothing |
| FillGenerator.StitchLine | src/lib/embroidery/fill-generator.ts:22-46 | one pass of the forEach appends that line's stitches |
| FillGenerator.LineStitchesShape | src/lib/embroidery/fill-generator.ts:29-44 | one line gives normal stitches in the given colour, two per pair of crossings |
| FillGenerator.FillNormal | src/lib/embroidery/fill-generator.ts:22-46 | every stitch of the fill is normal and in the given colour |
| FillGenerator.FillPairs | src/lib/embroidery/fill-generator.ts:22-46 | the fill has two stitches per pair of crossings over all lines |
| FillGenerator.GenerateFill | src/lib/embroidery/fill-generator.ts:4-49 | generateFill returns the stitches of every scan line in order, nothing for an empty polygon |
| FillGenerator.FillStitches | src/lib/embroidery/fill-generator.ts:4-49 | generateFill emits only normal stitches in the given colour, an even number of them |
| StrokeGenerator.StrokeDefaults | src/lib/embroidery/stroke-generator.ts:10-11 | missing or zero settings give a spacing of 0.4 and a minimum length of 0.1 |
| StrokeGenerator.GenerateStroke | src/lib/embroidery/stroke-generator.ts:4-36 | the loops build the stitches of every segment in order, skipping segments shorter than minLength |
| StrokeGenerator.DivideSegment | src/lib/embroidery/stroke-generator.ts:23-32 | the inner loop appends the segment's ceil(d / spacing) points |
| StrokeGenerator.SegmentShape | src/lib/embroidery/stroke-generator.ts:23-32 | a segment adds ceil(d / spacing) normal stitches of the given colour at t = j / steps for j = 1..steps, none at its start |
| StrokeGenerator.SegmentEndsAtEnd | src/lib/embroidery/stroke-generator.ts:24-28 | the last stitch of a segment with at least one step is on its end point |
| StrokeGenerator.StrokeShape | src/lib/embroidery/stroke-generator.ts:14-33 | every stitch is normal in the given colour; each segment adds its count and a segment shorter than minLength adds nothing |
| StrokeGenerator.AllShortSegments | src/lib/embroidery/stroke-generator.ts:21 | when every segment is shorter than minLength the stroke is empty |
| StrokeGenerator.TotalLength | src/lib/embroidery/stroke-generator.ts:47-52 | the first loop computes the sum of the segment lengths |
| StrokeGenerator.AdvanceCursor | src/lib/embroidery/stroke-generator.ts:63-70 | the inner loop moves the cursor over whole segments until the distance fits or the last segment is reached |
| StrokeGenerator.Advance | src/lib/embroidery/stroke-generator.ts:63-70 | the cursor only moves forward, stays on a segment of the path, and ends with the distance within the segment unless it is on the last segment |
| StrokeGenerator.GenerateRunningStitch | src/lib/embroidery/stroke-generator.ts:38-87 | the loops emit the specified stitches, one per step of the cursor |
| StrokeGenerator.RunningStitchShape | src/lib/embroidery/stroke-generator.ts:55-87 | there are exactly ceil(total / spacing) stitches, each normal in the given colour, and the cursor's segment never decreases nor passes the last segment |
| StrokeGenerator.RunningStitchesIndex | src/lib/embroidery/stroke-generator.ts:62-85 | stitch i is the one placed from the cursor after i increments |
| StrokeGenerator.FirstRunningStitchNotFinite | src/lib/embroidery/stroke-generator.ts:56-72 | as written, whenever there is a stitch the first one divides 0 by 0 and is not finite |
| StrokeGenerator.RunningStitchExample | src/lib/embroidery/stroke-generator.ts:56-72 | two points one unit apart give three stitches, the first not finite |
| StrokeGenerator.CorrectedRunningStitches | src/lib/embroidery/stroke-generator.ts:55-85 | the corrected running stitch has the same number of stitches |
| StrokeGenerator.CorrectedStartsAtFirstPoint | src/lib/embroidery/stroke-generator.ts:72-78 | with t taken as 0 on a zero-length segment, the first stitch is the path's first point |
| StrokeGenerator.GenerateZigZagStitch | src/lib/embroidery/stroke-generator.ts:89-127 | the loops emit the specified zig-zag stitches, segment by segment |
| StrokeGenerator.ZigZagSegmentIndex | src/lib/embroidery/stroke-generator.ts:109-123 | a segment adds ceil(d / spacing) + 1 stitches, stitch j computed at step j |
| StrokeGenerator.ZigZagSegmentShape | src/lib/embroidery/stroke-generator.ts:105-123 | stitch j lies at t = j / steps along the segment, moved by the perpendicular offset on the + side for even j and the - side for odd j; a zero-length segment gives stitches that are not finite |
| StrokeGenerator.ZigZagOffset | src/lib/embroidery/stroke-generator.ts:106-107 | the offset is perpendicular to the segment and, with an exact square root, has length width / 2 |
| PatternGenerator.LongOnly | src/lib/embroidery/conversion/PatternGenerator.ts:28 | the filter keeps only contours of three points or more and never adds any |
| PatternGenerator.LongOnlyFromInput | src/lib/embroidery/conversion/PatternGenerator.ts:28 | every contour the filter keeps is one of its input's |
| PatternGenerator.LongOnlyKeepsLong | src/lib/embroidery/conversion/PatternGenerator.ts:28 | every contour of three points or more survives the filter |
| PatternGenerator.LongOnlyEmpty | src/lib/embroidery/conversion/PatternGenerator.ts:28-32 | the filter leaves nothing exactly when no contour has three points |
| PatternGenerator.GeneratePattern | src/lib/embroidery/conversion/PatternGenerator.ts:18-63 | every failure leaves as a ProcessingError; a produced pattern has at least one stitch, the settings' colour as its only colour and the settings' width and height |
| PatternGenerator.GeneratedPattern | src/lib/embroidery/conversion/PatternGenerator.ts:18-57 | a pattern is produced exactly when tracing succeeds, some simplified and smoothed contour keeps three points and the stitch generator returns stitches; it has those stitches, the settings' colour as its only colour, the settings' size and the fixed metadata |
| PatternGenerator.GenerationFailures | src/lib/embroidery/conversion/PatternGenerator.ts:30-63 | every failure is a ProcessingError: no long contour and no stitches have their own messages, and a stage's error is passed on when it is a ProcessingError and wrapped as "Failed to generate pattern" otherwise |
| PatternGenerator.FirstNaNIsFirst | src/lib/embroidery/conversion/PatternGenerator.ts:80-84 | the scan finds the earliest stitch with a NaN coordinate, or reports none exactly when there is none |
| PatternGenerator.ValidatePattern | src/lib/embroidery/conversion/PatternGenerator.ts:66-85 | every rejection is a ProcessingError with no cause; an accepted pattern has stitches, colours and a positive width and height |
| PatternGenerator.ValidationRules | src/lib/embroidery/conversion/PatternGenerator.ts:66-85 | a pattern passes exactly when it has stitches, colours, a positive width and height and no NaN coordinate; otherwise the first failed check is reported in the source's order, naming the index of the first bad stitch |
| ColorProcessor.HexToRgb | src/lib/embroidery/color-processor.ts:49-60 | a string parses exactly when it matches the six-hex-digit pattern (optional #, any case), giving three channels in 0..255; otherwise the "Invalid color format" error |
| ColorProcessor.ProcessColors | src/lib/embroidery/color-processor.ts:4-47 | the loops compute the processed colours as specified, failure included |
| ColorProcessor.ClosestColor | src/lib/embroidery/color-processor.ts:22-35 | the forEach with minDistance starting at Infinity yields the first index of a smallest distance |
| ColorProcessor.GenerateColorLayers | src/lib/embroidery/color-processor.ts:80-104 | one fresh height × width layer per colour index up to the largest entry, a cell true exactly when its entry is that index |
| ColorProcessor.ColorDistance | src/lib/embroidery/color-processor.ts:62-78 | with a true square root and channels in 0..255 the distance is never negative, its square is the weighted sum of squared channel differences, and it is zero exactly between identical colours |
| ColorProcessor.DistanceSqProperties | src/lib/embroidery/color-processor.ts:67-77 | the weighted sum under the square root is symmetric, never negative, and zero exactly between identical colours |
| ColorProcessor.DistanceProperties | src/lib/embroidery/color-processor.ts:62-78 | the weighted distance is symmetric, never negative under the square root, and zero exactly between identical colours |
| ColorProcessor.ScanFindsFirstMinimum | src/lib/embroidery/color-processor.ts:22-35 | the scan keeps a smallest distance, the first of them, and index 0 when there is none |
| ColorProcessor.NearestColor | src/lib/embroidery/color-processor.ts:16-38 | each colour-map entry is the first palette index at the smallest distance from the pixel, clamped to 255 by the Uint8ClampedArray |
| ColorProcessor.ProcessColorsRules | src/lib/embroidery/color-processor.ts:4-47 | processColors fails exactly when a palette entry is not a hex colour, wrapping the first one's error; otherwise it returns the palette unchanged and one entry per pixel |
| ColorProcessor.PaletteRules | src/lib/embroidery/color-processor.ts:10 | the palette parses exactly when every entry does, in order; otherwise the first bad entry's error |
| ColorProcessor.MaxOfIsMax | src/lib/embroidery/color-processor.ts:86 | the largest entry of the map is at least every entry and is one of them |
| ColorProcessor.LayersPartition | src/lib/embroidery/color-processor.ts:86-101 | every pixel's entry is below the layer count and the pixel is set in exactly the layer of its entry |
| PathConverter.NextLetter | src/lib/embroidery/path-converter.ts:33 | the scan stops at the first ASCII letter at or after the start, or at the end, and skips only non-letters |
| PathConverter.ChunkShape | src/lib/embroidery/path-converter.ts:33 | every match of `/[a-zA-Z][^a-zA-Z]*/g` is one letter followed by non-letters only |
| PathConverter.ChunksCoverData | src/lib/embroidery/path-converter.ts:33 | the matches, joined, are the path data without the non-letters before its first letter |
| PathConverter.Commands | src/lib/embroidery/path-converter.ts:33-39 | there is one command per match, in order |
| PathConverter.Samples | src/lib/embroidery/path-converter.ts:65-77 | the curve loop takes one sample per step of t |
| PathConverter.ApplyCommand | src/lib/embroidery/path-converter.ts:41-87 | the switch on one command leaves the current point and the points exactly as one step of the command semantics: M/L/H/V move and emit one point, C emits the eleven samples t = 0, 0.1, ..., 1 and moves to its end point, Z repeats the first point, other letters change nothing |
| PathConverter.ParseSvgPath | src/lib/embroidery/path-converter.ts:31-91 | the loop over the commands gives the points of running every command from the origin with no points |
| PathConverter.Parsed | src/lib/embroidery/path-converter.ts:16-17 | every path is parsed, in order |
| PathConverter.SvgPathsToPoints | src/lib/embroidery/path-converter.ts:9-29 | the contours are the parsed paths with more than two points, each scaled by the smaller of the two size ratios, in path order |
| PathConverter.Bezier | src/lib/embroidery/path-converter.ts:93-101 | the cubic Bézier curve is at its first control point for t = 0 and at its last for t = 1 |
| PathConverter.Step | src/lib/embroidery/path-converter.ts:41-87 | one command keeps every point emitted so far as a prefix and appends at most eleven (the eleven samples of C) |
| PathConverter.LineCommands | src/lib/embroidery/path-converter.ts:42-62 | M and L move to the given pair (absolute in upper case, relative in lower case) and emit that point; H and V change only x or only y and emit one point; any letter but M, L, H, V, C and Z changes nothing |
| PathConverter.CurveCommand | src/lib/embroidery/path-converter.ts:64-80 | C emits eleven points along the curve, the first at the current point and the last at the end point, and moves the current point to the end point |
| PathConverter.CloseCommand | src/lib/embroidery/path-converter.ts:82-86 | Z appends a copy of the first point and leaves the current point where it was; on an empty path it does nothing |
| PathConverter.RunExtends | src/lib/embroidery/path-converter.ts:37-88 | commands only append points; earlier points never change |
| PathConverter.KeptAreLong | src/lib/embroidery/path-converter.ts:16-26 | every contour has more than two points, every parsed path with more than two points gives a contour, and there are no more contours than paths |
| EmbroideryMath.MmToPoints | src/lib/embroidery/math.ts:3-5 | millimetres become points at 2.83465 per millimetre: dividing back gives the length, and the sign is kept |
| EmbroideryMath.PointsToMm | src/lib/embroidery/math.ts:8-10 | points become millimetres at 2.83465 points per millimetre: multiplying back gives the length, and the sign is kept |
| EmbroideryMath.UnitsRoundTrip | src/lib/embroidery/math.ts:3-10 | converting millimetres to points and back, or points to millimetres and back, gives the starting value |
| EmbroideryMath.StitchDensity | src/lib/embroidery/math.ts:13-16 | the stitch count is the whole number nearest to area times density, halves rounding up, and is not negative for non-negative inputs |
| EmbroideryMath.StitchLength | src/lib/embroidery/math.ts:19-22 | the stitch length is a tenth of the radius clamped to [0.5, 3] mm: that tenth inside the range, 0.5 below it, 3 above it |
| EmbroideryMath.StitchLengthGrows | src/lib/embroidery/math.ts:19-22 | the stitch length grows with the radius |
| LegacyImageProcessor.ToGrayscale | src/lib/ImageProcessor.ts:38-48 | the result is a fresh plane of one byte per pixel, pixel p holding round(0.299 R + 0.587 G + 0.114 B) of data bytes 4p..4p+2 |
| LegacyImageProcessor.DetectEdges | src/lib/ImageProcessor.ts:50-85 | the result is a fresh plane holding the Sobel threshold map of the grayscale plane: 0 on the border, 255 or 0 inside by the magnitude test |
| LegacyImageProcessor.EdgeMapMeaning | src/lib/ImageProcessor.ts:50-85 | with sqrt the square root, a pixel of detectEdges(toGrayscale(img)) is 255 exactly when it is interior and the unblurred gx² + gy² exceeds threshold² (or the threshold is negative), and 0 otherwise |
| LegacyImageProcessor.SpacingAdvances | src/lib/ImageProcessor.ts:94-98 | the step Math.round(1 / density) is at least 1, so the sampling loops move forward, exactly when 0 ≤ density ≤ 2 (density 0 stepping by Infinity) |
| LegacyImageProcessor.SampleRow | src/lib/ImageProcessor.ts:98-108 | the x loop appends to the stitches the row's samples, one per edge pixel at columns 0, step, 2·step, … |
| LegacyImageProcessor.SampleEdges | src/lib/ImageProcessor.ts:97-109 | the two loops produce the grid samples in row-major order |
| LegacyImageProcessor.SamplesMeaning | src/lib/ImageProcessor.ts:97-109 | a stitch is sampled exactly when it is a normal #000000 stitch at an edge pixel (value > 0) whose column and row are multiples of the step |
| LegacyImageProcessor.GenerateStitches | src/lib/ImageProcessor.ts:87-113 | the result is the sampled stitches reordered by optimizeStitchOrder |
| LegacyImageProcessor.GeneratedStitches | src/lib/ImageProcessor.ts:87-113 | for a density from 0 to 2, generateStitches returns exactly the normal black stitches on the edge pixels of the sampling grid |
| LegacyImageProcessor.Distance | src/lib/ImageProcessor.ts:144-148 | with sqrt the square root, the distance is non-negative and squares to dx² + dy² |
| LegacyImageProcessor.DistanceOrder | src/lib/ImageProcessor.ts:144-148 | with sqrt the square root, distances are non-negative, compare as the squared distances do, and a stitch is at distance 0 from itself |
| LegacyImageProcessor.DistanceSymmetric | src/lib/ImageProcessor.ts:144-148 | the distance from a to b equals the distance from b to a |
| LegacyImageProcessor.NearestIn | src/lib/ImageProcessor.ts:126-133 | the inner loop's `nearest` after m stitches is one at minimal distance among them, and strictly nearer than every earlier one (first wins ties) |
| LegacyImageProcessor.FindNearest | src/lib/ImageProcessor.ts:123-133 | with minDist starting at Infinity, the loop yields no stitch for an empty set and otherwise the first nearest remaining stitch |
| LegacyImageProcessor.OptimizeStitchOrder | src/lib/ImageProcessor.ts:115-142 | the loops compute the greedy nearest-neighbour order, leaving lists of fewer than two stitches unchanged |
| LegacyImageProcessor.GreedyPermutation | src/lib/ImageProcessor.ts:122-139 | the outer loop emits every remaining stitch exactly once |
| LegacyImageProcessor.OptimizeOrder | src/lib/ImageProcessor.ts:115-142 | fewer than two stitches come back unchanged; otherwise the result starts with the first stitch and is a permutation of the input |
| LegacyImageProcessor.GreedyNearest | src/lib/ImageProcessor.ts:122-139 | each stitch the outer loop emits is at least as near to the previous one as every stitch emitted after it |
| LegacyImageProcessor.OrderNearest | src/lib/ImageProcessor.ts:115-142 | from the second position on, each stitch of the order is a nearest one to its predecessor among the stitches not yet visited |
| LegacyImageProcessor.Header | src/lib/ImageProcessor.ts:152-159 | the header is 512 bytes: the label length modulo 256 at 0, the label from 1, zeros after; a label over 511 bytes is a RangeError |
| LegacyImageProcessor.WriteMove | src/lib/ImageProcessor.ts:169-176 | the forEach body writes dx & 0x7F, dy & 0x7F and 0x03 at offset, offset + 1 and offset + 2 and nothing else |
| LegacyImageProcessor.ExportPattern | src/lib/ImageProcessor.ts:150-185 | the result is the header followed by the 3n-byte stitch buffer, whatever the format argument |
| LegacyImageProcessor.ExportLayout | src/lib/ImageProcessor.ts:150-185 | export fails exactly when the label exceeds 511 bytes; otherwise it is 512 + 3n bytes with the length byte, the label, zero padding, and three zero bytes at the end |
| LegacyImageProcessor.ExportedMove | src/lib/ImageProcessor.ts:166-177 | bytes 512 + 3(j-1) .. 512 + 3j are round(dx) & 0x7F, round(dy) & 0x7F and 0x03 for stitch j from stitch j - 1 |
| LegacyImageProcessor.SevenBitMove | src/lib/ImageProcessor.ts:174-175 | the mask keeps a move from 0 to 127, maps a move d from -128 to -1 to d + 128, and writes -1 like 127 |
| LegacyImageProcessor.DefaultLabel | src/lib/ImageProcessor.ts:157 | a pattern with no name or an empty one gets the 20-byte ASCII label LA:Converted Pattern |

## Left out

- StitchGenerationStep: the `Unknown stitch type` default of generateZoneStitches is not modelled; the zone types come from analyzeStitchZones and are always fill, satin or running.
- StitchGenerationStep: `Math.PI` is a parameter; the zone generators of algorithms/fill, satin and running are not part of this model and are parameters that may fail.
- ColorProcessor.DistanceProperties: non-negativity and the zero case are stated on the quantity under the square root, since Math.sqrt is a parameter; ColorProcessor.ColorDistance states them on the distance itself for a parameter that is a true square root.
- StrokeGenerator: `maxLength` is read by generateStroke but never used, so it has no effect in the model either.
- StrokeGenerator: a stitch with NaN or infinite coordinates is kept as `NotFinite`, without its coordinates.
- StitchGenerator: the density is assumed positive, as the settings form only offers 1 to 10; with a density of zero the source divides by zero.
- StitchGenerator: the fill requires at least one point; with none the source's bounds stay at ±Infinity, numLines is Infinity and its scan-line loop does not end.
- StitchGenerator: Math.cos, Math.sin, Math.sqrt, Math.hypot and Math.PI come from a parameter of uninterpreted functions; `Math.pow(x, 2)` is x · x.
- ContourOptimizer: `Math.sqrt` is a parameter, so distances are compared as values of an uninterpreted function; the point of the segment nearest to a point is not proved to be the projected one beyond FootPerpendicular.
- ContourOptimizer.Simplify: the unbounded recursion that a negative tolerance can cause is returned as `None` instead of a stack overflow.
- ContourOptimizer.RunningStitch: the endless stitch loop of a zero spacing over a positive length is returned as `Endless`, and the TypeError of a path with fewer than two points as `Crash`; a stitch with NaN or infinite coordinates, from a zero-length segment, is kept as `NotFinite`.
- ContourOptimizer.OptimizeOrder: the source's remaining points are a Set of object references; the model keeps them as a sequence in insertion order, as if every stitch were a distinct object, so a stitch object repeated in the input is not deduplicated.
- ContourOptimizer.OptimizeStitchOrder: the `if (!nearest) break` exit is not modelled; it cannot be taken, since the remaining set is non-empty there and the first distance is always below Infinity.
- ImageProcessor.EdgeThreshold, ImageProcessor.ProcessedEdges, ImageProcessor.UniformImageHasNoEdges: hold under the hypothesis that the `sqrt` parameter is the square root on the non-negative reals (Numeric.IsSqrt); the rounding of `Math.sqrt` is not modelled.
- ImageProcessor.ProcessImage: the `targetWidth` and `targetHeight` options, which processImage ignores, are not parameters; the image data is assumed to hold exactly four bytes per pixel, and the Promise wrapper is not modelled.
- EdgeProcessor.DetectedEdges: holds under the hypothesis that the `sqrt` parameter is the square root on the non-negative reals.
- EdgeProcessor.DetectEdges: the only error modelled is the ImageData constructor's on an empty image; the wrapped error is kept whatever its class, since a DOMException is an Error.
- EdgeAlgorithms: Float32Array entries are reals; rounding to single precision is not modelled.
- EdgeAlgorithms.MagnitudeOf: assumes Math.sqrt returns the true square root, which the model receives as a parameter.
- EdgeAlgorithms.NonMaximumSuppression: takes the image side as a parameter and requires the length to be its square; for a length that is not a perfect square the source's width is not an integer and its indexing is not modelled.
- EdgeAlgorithms.NonMaximumSuppression: requires π > 0, since Math.PI is received as a parameter.
- EdgeAlgorithms.Hysteresis: takes the image side as a parameter and requires the length to be its square, as for non-maximum suppression.
- EdgeAlgorithms.Hysteresis: proves every strong pixel white, but not that every pixel connected to a strong one through weak pixels is white.
- EdgeAlgorithms.Trace: the closure over result, visited and width becomes a method over the two arrays.
- ContourAlgorithms: simplifyContour, perpendicularDistance and distance of conversion/algorithms/contour.ts are the same code as ContourOptimizer's simplifyContour, perpendicularDistance and distance, and are modelled there once.
- ContourAlgorithms.FindContours: the string keys `${x},${y}` of the visited set are modelled as pairs of integers, which they stand for one to one.
- ContourTracer.LineDist: where the chord has length zero the source divides 0 by 0 and gets NaN; the model returns 0, which the farthest-point search treats the same way (ZeroChordNeverFarthest), since NaN > maxDist and 0 > maxDist are both false for maxDist ≥ 0.
- ContourTracer: `simplifyContour` of contour-tracer.ts is the same recursion as ContourOptimizer's simplifyContour, with pointLineDistance (ContourTracer.LineDistance) as the distance; it is modelled there once and instantiated with this distance.
- ContourTracer: `Math.sqrt` is a parameter (Numeric.MathLib); the distance lemmas hold under the hypothesis that it is the true square root.
- ContourTracer.TraceContours: the Promise wrapper is not modelled; the visited Uint8ClampedArray is an array of bytes whose contents are tied to a ghost set of pixels.
- ContourProcessor: the `traceContour` of processors/ContourProcessor.ts is the walk of conversion/algorithms/contour.ts with the test `data[idx] === 255` in place of `> 128`; both are Tracing.TraceContour, instantiated with ContourProcessor.RedIs255.
- ContourProcessor: `Math.sqrt` is a parameter (Numeric.MathLib); DistanceMeaning holds under the hypothesis that it is the true square root, and the Promise wrapper is not modelled.
- ContourProcessor.TraceContours: requires image data of exactly four bytes per pixel, as every ImageData has; the string keys of the visited set are modelled as pairs of integers.
- BinaryBitmap: the rows of a `boolean[][]` or `number[][]` are modelled as one rectangular `array2`. Every bitmap the library builds is rectangular, and rows are never shared.
- BinaryBitmap.FindConnectedComponents: states what the labels promise locally (background 0, foreground positive, the same label as each labelled left, upper-left and upper neighbour). It does not prove that two pixels with one label are connected.
- BinaryBitmap.RemoveSmallComponents: the labels it computes are returned as a ghost value so that its contract can name the components.
- BinaryBitmap.UnionFind: the ghost root and depth maps exist only for the proofs; the class keeps the source's single parent map.
- LegacyImageProcessor: processImage of src/lib/ImageProcessor.ts draws the image on a DOM canvas and reads its pixels back; the canvas is not part of this model, and the stages after it are modelled one by one.
- LegacyImageProcessor.GenerateStitches: requires that the sampling loops end (a density from 0 to 2, or an image without rows); for any other density the source loops forever.
- LegacyImageProcessor.ToGrayscale: the grayscale and Sobel loops are the same as those of src/lib/embroidery/image-processor.ts, so these methods take their meaning from ImageProcessor; the order in which detectEdges adds the gradient terms is not modelled, since integer sums do not depend on it.
- LegacyImageProcessor.OptimizeStitchOrder: the Set of remaining stitch objects is a sequence in insertion order; the `break` for a missing nearest stitch is unreachable because every real distance is below Infinity (NaN coordinates are not modelled).
- EmbroideryMath: numbers are reals; the floating-point rounding of `mm * 2.83465` and of the division back is not modelled, so UnitsRoundTrip holds exactly only over the reals.
- PathConverter: the numbers of a command are read by a parameter standing for `.trim().split(/[\s,]+/).map(Number)`, since the model has no string-to-number conversion.
- PathConverter.ParseSvgPath: requires every command to carry the numbers it reads; with fewer, the source reads `undefined` and emits NaN coordinates, which the model does not represent.
- PathConverter.SvgPathsToPoints: requires non-zero original sizes; with a zero one the source's scale is Infinity or NaN.
- PathConverter.CurveCommand: the curve parameter is exact tenths; in binary floating point the eleventh sample is at t = 0.9999999999999999, so the source's last curve point is the end point only up to rounding.
- PatternGenerator: findContours, simplifyContour, smoothContour and StitchGenerator.generateStitches are reached through a parameter, so its lemmas hold for any such stages; the clock behind `new Date().toISOString()` is a parameter, and the Promise is not modelled.
- PatternGenerator.ValidationRules: `isNaN` is a parameter, since the model's reals have no NaN.
- Pes: like the DST writer, the PES split moves steps · round(d/steps) in all, which can differ from d; the model writes it as the source does.
- Threshold: the integral image is a Float32Array in the source; the model keeps exact integer sums, so the single-precision rounding of sums above 2^24 (an image of more than about 65 000 pixels) is not modelled.
- Threshold.AdaptiveThreshold: the window size is a natural number, halved by integer division as `Math.floor(windowSize / 2)` does; a negative or fractional size is not modelled.
- StitchOptimizer: `Math.sqrt` is a parameter (Numeric.MathLib), used only for the number of steps of a split; every other distance test compares squared distances, which is exact for a true square root.
- Converter: the PAT writer (src/lib/embroidery/formats/pat.ts) is not part of this model; both converters take it as a parameter, so the "pat" tag yields whatever that writer returns.
- Converter: the `console.error` logging of a failed conversion (src/lib/embroidery/formats/converter.ts:42) is not modelled; it has no effect on the returned result.

## Findings

| source | as written | input that shows it | evidently intended | confidence | as-written member | corrected member |
|---|---|---|---|---|---|---|
| src/lib/embroidery/stroke-generator.ts:56-72 | the first iteration computes `t = currentDist / segmentLength` with both still 0, so the first running stitch has NaN coordinates | points (0,0), (1,0) with default settings: three stitches, the first at (NaN, NaN) | the first stitch is the path's first point | high, not executed | StrokeGenerator.FirstRunningStitchNotFinite | StrokeGenerator.CorrectedStartsAtFirstPoint |
| src/lib/embroidery/bitmap-processor.ts:60 | the neighbour offsets are (-1,-1), (-1,0), (-1,1), (0,-1): the upper-right neighbour (1,-1) is never read, and the lower-left one (-1,1) is still unlabelled when it is read | the 2 × 2 bitmap with only (1,0) and (0,1) set: the two touching pixels get labels 1 and 2 and are never united | the four neighbours a row-major scan has already visited: (-1,-1), (0,-1), (1,-1), (-1,0) | medium, not executed | BinaryBitmap.UpRightMissed | BinaryBitmap.CausalNeighborsComplete |
| src/lib/embroidery/formats/dst.ts:86-92 | the last sub-delta is `round(dx - stepX*i)` with stepX = dx/steps, which equals stepX itself, so every sub-delta is round(dx/steps) and the rounding error is never made up | a stitch 250 units to the right of the previous one: three jumps of 83, 249 in all | the sub-deltas of a split move add up to the move | high, not executed | Dst.SplitLosesRemainder | Dst.CorrectedSplitIsExact |
