# Closed-loop ironing of defective print layers — a Dafny model

The system prints a part layer by layer and photographs each finished layer. It predicts where
the layer's outer perimeter should appear in the image and isolates that region. It counts the
dark anomalies inside the region. When a layer has too many, it logs the layer as fixed and
can reprint it as an "ironing" pass, with less extrusion and a lower fan speed.

The model covers the G-code text processing and the per-layer bookkeeping around the camera check:

- `LayerGeometry` (`layer_geometry.dfy`) models `get_layer_coordinates`. A tagging pass labels
  every command line with its layer number and feature type and records the `;Z:` heights. An
  extraction pass then collects the X/Y points of one layer's moves of one type into closed
  contours. Both passes are methods proved equal to prefix-recursive functions.
- `LayerParsing` (`layer_parsing.dfy`) models `parse_layer`. It splits the sliced file into a
  setup segment, one structural and one support segment per layer, and an end segment.
- `Ironing` (`ironing.dfy`) models `generate_iron_layer`. It drops comment lines and scales the
  non-negative `E` and `S` words.
- `NozzleMove` (`nozzle_move.dfy`) models `add_nozzle_movement`. It appends a retraction and a
  travel to the photo position to every per-layer file of a directory. The directory is a class
  whose one field maps file names to contents.
- `DefectDetection` (`defect_detection.dfy`) models the parts of the `DefectDetection` class that
  do not call OpenCV: the `Detector` class with its nozzle pose, the camera-pose composition,
  the assembly of 3-D contours, the projection pipeline around the rasteriser, and the
  conversion of a defect mask to positions.
- `Masks` (`masks.dfy`) holds the image work, written as array methods over 2-D arrays: the XOR
  of the contour masks, cropping, the white background, the alpha channel, and the in-place
  area filter of `get_defect_mask`.
- `Orchestrator` (`orchestrator.dfy`) models the module-level run of
  `iron_detect_and_correct.py`. It is an event trace (log writes, file sends, captures, ironing
  generation) computed from the per-layer defect counts, plus the fixed-layer list. `Workflow`
  is the run in which every call returns. `Run` also takes the layers on which
  `generate_iron_layer` raises, and then ends at the first such layer, as the exception does.
- `Text`, `Numbers` and `Wrappers` are support modules. They hold Python's `strip`, `split(" ")`,
  `" ".join`, `in`, `float`, `round`, `int` and `str` on exact decimals, and the
  `Option`/`Result` types. Python's exceptions become `Err` values.

Points where the code is easily misread, modelled as the code behaves:

- Segments in `parse_layer` end at any line that *contains* a sentinel, not only at lines that
  equal it.
- Contours are dropped only when they are empty. A contour with fewer than three points is kept.
- The white background fill turns every all-black pixel white, inside the mask as well as outside.
- The run summary takes two lines: the count, then the list.
- After the ironing pass of a fixed layer, the script generates an ironed support file
  (`layer_<i>_cor.gcode` of the support directory, with speed ratio 1). It never sends that
  file. It sends the uncorrected support file again instead. The trace records both events
  exactly as the script does them.
- `cv.split` names the channels r, g, b, but they come out in the image's own order. The model
  keeps the three channels in place.

## Model

| member | source | states |
|---|---|---|
| Text.Strip | gcode_ironing.py:10 | the stripped text is no longer than the input and neither starts nor ends with whitespace |
| Text.StripAll | gcode_ironing.py:10 | one stripped line per input line, in order |
| Text.StripIdempotent | layer_parsing_separate.py:39-40 | stripping an already stripped line changes nothing |
| Text.ContainsAt | layer_parsing_separate.py:24 | the substring test holds iff the substring occurs at some position |
| Text.RemoveNewlines | layer_parsing_separate.py:34 | the result has no newline and is no longer than the input |
| Text.Split | gcode_ironing.py:19 | splitting on a space gives at least one token and no token holds a space |
| Text.SplitCount | gcode_ironing.py:19 | the number of tokens is the number of spaces plus one |
| Text.JoinSplit | gcode_ironing.py:19-35 | joining the tokens of a split line with single spaces gives back the line |
| Text.SplitJoin | gcode_ironing.py:19-35 | splitting a space-joined list of space-free tokens gives back the tokens |
| Numbers.ParseDecimal | gcode_ironing.py:22 | blank text is unreadable; a read value is negative exactly when the text starts with a minus |
| Numbers.RoundHalfEven | gcode_ironing.py:22 | the result is within one half of the input, and exact halves go to the even integer |
| Numbers.RoundMilli | gcode_ironing.py:22 | rounding to 3 places moves the value by at most half a thousandth |
| Numbers.Truncate | gcode_ironing.py:34 | `int()` truncates toward zero: the result is within one of the input, on the zero side |
| Numbers.FormatNatValue | gcode_ironing.py:34 | the printed digits of a natural number read back as that number |
| Numbers.FormatIntRoundTrip | gcode_ironing.py:34 | the printed text of an integer parses back to that integer |
| Numbers.FormatMilliRoundTrip | gcode_ironing.py:27 | the printed 3-place value parses back to exactly that many thousandths |
| Numbers.FormatMilliWord | gcode_ironing.py:27 | a printed 3-place value is one space-free word of at least three characters |
| LayerGeometry.TypeCode | gcode_layer_visualization.py:37-54 | the nine `;TYPE:` comments give codes 1 to 9 |
| LayerGeometry.ZCommentIsNoType | gcode_layer_visualization.py:35-54 | a `;Z:` comment is never also a type comment |
| LayerGeometry.TagGcode | gcode_layer_visualization.py:20-54 | the tagging loop computes the tagging function: tagged lines, current layer and type, and z table, or the `float()` error |
| LayerGeometry.TagLinesErrorSticks | gcode_layer_visualization.py:36 | once a `;Z:` value fails to parse, the whole pass fails with that error |
| LayerGeometry.TagStepFields | gcode_layer_visualization.py:24-54 | one line fails exactly when it is an unreadable `;Z:` comment; otherwise it updates each field by its own rule |
| LayerGeometry.TagStepLayerChange | gcode_layer_visualization.py:32-34 | a `;LAYER_CHANGE` line always succeeds and takes the field-wise update (layer plus one, type 0) |
| LayerGeometry.TagStepZ | gcode_layer_visualization.py:35-36 | a `;Z:` line succeeds iff its value is readable, and then records it for the current layer |
| LayerGeometry.TagStepOther | gcode_layer_visualization.py:24-54 | every other line succeeds and takes the field-wise update |
| LayerGeometry.ZReadableEvery | gcode_layer_visualization.py:35-36 | the file can be tagged iff every one of its lines is readable |
| LayerGeometry.TagStepMeaning | gcode_layer_visualization.py:20-54 | one step from the closed-form description of a prefix gives the description of the longer prefix |
| LayerGeometry.TagLinesMeaning | gcode_layer_visualization.py:20-54 | tagging succeeds iff every `;Z:` value is readable, and then equals the closed form (layer = number of layer changes, type in force, recorded lines, last z per layer) |
| LayerGeometry.KindAfterRange | gcode_layer_visualization.py:32-54 | the type in force is always between 0 and 9 |
| LayerGeometry.TagsLayersOrdered | gcode_layer_visualization.py:27-34 | tagged layers never decrease, never exceed the layer count, and every type is in 0..9 |
| LayerGeometry.TagsAreRecordedLines | gcode_layer_visualization.py:23-29 | one tag per recorded line (neither `"\n"` nor a `;` comment), holding that line stripped |
| LayerGeometry.RecordedLines | gcode_layer_visualization.py:23-29 | every kept line is a recorded one |
| LayerGeometry.Coordinate | gcode_layer_visualization.py:75-78 | reading an `X`/`Y` token fails exactly when the text after the letter is not a number |
| LayerGeometry.CollectPoints | gcode_layer_visualization.py:73-78 | collected points only extend the X and Y lists |
| LayerGeometry.AppendPoints | gcode_layer_visualization.py:74-78 | the token loop computes the collecting function |
| LayerGeometry.CollectPointsErrorSticks | gcode_layer_visualization.py:76-78 | the first unreadable coordinate fails the whole line |
| LayerGeometry.CollectPointsMeaning | gcode_layer_visualization.py:73-78 | on success the X and Y lists gain exactly the line's `X` and `Y` values, in token order |
| LayerGeometry.ZLookup | gcode_layer_visualization.py:71 | `dict.get` finds a value iff the layer has a z entry |
| LayerGeometry.BreakAt | gcode_layer_visualization.py:65-68 | the scan stops at the first line of a later layer, and every line before it is at or below the target layer |
| LayerGeometry.RemoveEmpty | gcode_layer_visualization.py:94-96 | the result is no longer than the input and holds no empty list |
| LayerGeometry.Finish | gcode_layer_visualization.py:91-99 | no returned X or Y contour is empty |
| LayerGeometry.ScanLine | gcode_layer_visualization.py:72-90 | the loop body computes one scan step: points, skip, or close |
| LayerGeometry.ExtractContours | gcode_layer_visualization.py:56-101 | the extraction loop with its break computes the extraction function |
| LayerGeometry.ScanTagsErrorSticks | gcode_layer_visualization.py:65-90 | a failed line fails every longer scan the same way |
| LayerGeometry.GetLayerCoordinates | gcode_layer_visualization.py:9-101 | the whole function is tagging followed by extraction |
| LayerGeometry.Targets | gcode_layer_visualization.py:70 | only lines of the target layer and type are kept |
| LayerGeometry.ScanOnlyTargets | gcode_layer_visualization.py:65-90 | lines of other layers or types neither add points nor close a contour |
| LayerGeometry.BreakKeepsTargets | gcode_layer_visualization.py:66-68 | with ordered layers, the break loses no target line |
| LayerGeometry.NoTargets | gcode_layer_visualization.py:67-68 | lines all beyond the target layer contain no target line |
| LayerGeometry.ScanZ | gcode_layer_visualization.py:63-71 | the z returned is 0 when no target line was met, else the target layer's z entry (possibly missing) |
| LayerGeometry.LineStepClosed | gcode_layer_visualization.py:83-90 | a scan step keeps every finished contour closed |
| LayerGeometry.ScanClosed | gcode_layer_visualization.py:83-90 | every contour finished inside the loop repeats its first point at its end |
| LayerGeometry.RemoveEmptyFlatten | gcode_layer_visualization.py:94-96 | removing empty lists loses no point |
| LayerGeometry.RemoveEmptyKeeps | gcode_layer_visualization.py:94-96 | a list of non-empty lists is left as it is |
| LayerGeometry.RemoveEmptyFrom | gcode_layer_visualization.py:94-96 | a property of every non-empty list holds for every list kept |
| LayerGeometry.ExtractClosed | gcode_layer_visualization.py:83-99 | every returned X contour but the last (the final flush) is closed, and none is empty |
| LayerGeometry.CoordinatesFromTargets | gcode_layer_visualization.py:65-101 | the result depends only on the target lines of the tagged file |
| LayerGeometry.CoordinatesZ | gcode_layer_visualization.py:35-71 | the returned z is the last `;Z:` value of the target layer if a target line exists, missing if the layer had none, and 0 with no target line |
| LayerGeometry.RemoveTargetsIdempotent | gcode_layer_visualization.py:70 | filtering the target lines twice is filtering once |
| LayerParsing.FirstSetupEnd | layer_parsing_separate.py:20-24 | the index found is at most the number of lines |
| LayerParsing.FirstSetupEndIsFirst | layer_parsing_separate.py:20-31 | the setup ends at the first line containing `M107`: no earlier line contains it |
| LayerParsing.Blankless | layer_parsing_separate.py:33-35 | after removal no line is empty and none holds a newline |
| LayerParsing.Kept | layer_parsing_separate.py:38-41 | the main loop keeps only non-empty stripped lines |
| LayerParsing.ParseLayer | layer_parsing_separate.py:9-60 | the whole procedure computes the splitting function |
| LayerParsing.ReadSetup | layer_parsing_separate.py:19-35 | the setup loop yields the setup file, the pending lines and the lines left after blank removal |
| LayerParsing.SplitLayers | layer_parsing_separate.py:37-54 | the main loop computes the segment run |
| LayerParsing.MainStep | layer_parsing_separate.py:38-54 | one line of the main loop is one step of the segment run |
| LayerParsing.ParseSetup | layer_parsing_separate.py:20-60 | a setup file exists iff some line contains `M107`; it is every stripped line up to the first one; without it, every stripped line goes to the end file and no segment is made |
| LayerParsing.StepWritten | layer_parsing_separate.py:38-54 | one step adds its kept line to the segments-then-pending text, in order |
| LayerParsing.RunWritten | layer_parsing_separate.py:37-54 | the run adds exactly the kept lines, in order |
| LayerParsing.ParseKeepsEveryLine | layer_parsing_separate.py:9-60 | segments then the end file are exactly the kept lines after setup, none dropped or repeated; without `M107` the end file is every stripped line |
| LayerParsing.StepShaped | layer_parsing_separate.py:38-54 | a step keeps the loop shape: pending lines hold no sentinel, segments are numbered, the layer counts the support segments |
| LayerParsing.RunShaped | layer_parsing_separate.py:37-54 | the main loop keeps that shape |
| LayerParsing.ParseShaped | layer_parsing_separate.py:42-60 | each segment ends with its own sentinel (bellow wins), no earlier line of it holds one, it carries layer 1 plus the supports before it, and the end file holds no sentinel |
| LayerParsing.SupportLayersIncrease | layer_parsing_separate.py:48-54 | a segment after a support segment has a strictly larger layer number |
| LayerParsing.OnDiskMeaning | layer_parsing_separate.py:42-53 | a layer file exists exactly when some segment is written to it, and it then holds the lines of the last segment written to it, since each write opens the file with mode `w` |
| LayerParsing.UniqueFileKept | layer_parsing_separate.py:42-53 | a segment whose file no later segment writes is what that file holds at the end |
| LayerParsing.SupportFilesKept | layer_parsing_separate.py:48-54 | every wiping-pattern segment's file keeps that segment's lines, because the layer number only grows after it |
| Ironing.IronWords | gcode_ironing.py:20-34 | a rewritten word list has as many words as the input |
| Ironing.GenerateIronLayer | gcode_ironing.py:8-40 | the procedure computes the ironing function on the file's lines |
| Ironing.RewriteWords | gcode_ironing.py:20-34 | the word loop computes the word-list rewrite |
| Ironing.RewriteWord | gcode_ironing.py:21-34 | the loop body computes the one-word rewrite |
| Ironing.IronWordsErrorSticks | gcode_ironing.py:21-29 | the first unreadable number fails the whole line |
| Ironing.IronLinesErrorSticks | gcode_ironing.py:10-36 | the first failing line fails the whole file |
| Ironing.ExtrusionWordMeaning | gcode_ironing.py:26-27 | a new `E` word reads back as the product rounded to 3 places |
| Ironing.SpeedWordMeaning | gcode_ironing.py:33-34 | a new `S` word reads back as the product truncated to an integer |
| Ironing.NegativeKept | gcode_ironing.py:23-31 | a negative `E` or `S` word is left verbatim |
| Ironing.ExtrusionScaled | gcode_ironing.py:21-27 | a non-negative `E` word becomes the extrusion word of its rounded value |
| Ironing.SpeedScaled | gcode_ironing.py:28-34 | a non-negative `S` word becomes the speed word of its rounded value |
| Ironing.ExtrusionWordExample | gcode_ironing.py:26-27 | 2.000 scaled by 0.2 prints as `E0.4` |
| Ironing.SpeedWordExample | gcode_ironing.py:33-34 | 6000 scaled by 0.6 prints as `S3600` |
| Ironing.DefaultExtrusionExample | gcode_ironing.py:8-27 | `E2.0` becomes `E0.4` with the default ratios |
| Ironing.DefaultSpeedExample | gcode_ironing.py:8-34 | `S6000` becomes `S3600` with the default ratios |
| Ironing.DefaultLineExample | gcode_ironing.py:8-36 | the whole line `G1 X10 Y20 E2.0 S6000` becomes `G1 X10 Y20 E0.4 S3600` with the default ratios |
| Ironing.IronWordMeaning | gcode_ironing.py:21-34 | a word fails iff it is an `E`/`S` word with an unreadable number; words not starting with `E` or `S` are unchanged; a rewritten space-free word stays space-free |
| Ironing.IronWordsMeaning | gcode_ironing.py:19-34 | a line fails iff one of its words is unreadable; otherwise each output word is the rewrite of the word at the same place |
| Ironing.IronWordsFromWords | gcode_ironing.py:19-35 | conversely, when every word rewrites to the word at the same place of `out`, the line's words rewrite to `out` |
| Ironing.RewriteShape | gcode_ironing.py:14-36 | a line without ` E` or ` S` is output unchanged; otherwise it has the same number of words, each the rewrite of its original |
| Ironing.Code | gcode_ironing.py:11-15 | comment lines are dropped, every other line is kept, and nothing else appears |
| Ironing.IronLinesCode | gcode_ironing.py:11-36 | the output is the line-by-line rewrite of the non-comment lines, in their order |
| Ironing.RewriteFails | gcode_ironing.py:14-29 | a line raises exactly when it has ` E` or ` S` and one of its words has an unreadable number |
| Ironing.IronLinesFailAlike | gcode_ironing.py:11-36 | whether the lines raise does not depend on the ratios |
| Ironing.IronFailsAlike | gcode_ironing.py:8-36 | whether `generate_iron_layer` raises on a file does not depend on the ratios |
| NozzleMove.Moved | gcode_nozzle_move_config_filewise.py:14-22 | the directory keeps the same file names |
| NozzleMove.Directory.AddNozzleMovement | gcode_nozzle_move_config_filewise.py:10-22 | the directory after the call is the appended directory |
| NozzleMove.TwoWrites | gcode_nozzle_move_config_filewise.py:21-22 | the two writes together append one block |
| NozzleMove.MovedAppends | gcode_nozzle_move_config_filewise.py:15-22 | an eligible file's old content is an exact prefix and the rest is exactly one block; any other file is unchanged |
| NozzleMove.BlockOrder | gcode_nozzle_move_config_filewise.py:11-22 | the block is a newline, the retraction, a newline, the travel and a newline |
| NozzleMove.EligibleNames | gcode_nozzle_move_config_filewise.py:15 | `layer_0.gcode`, `end.gcode` and non-G-code names are skipped; every other `layer_<n>.gcode` is changed |
| NozzleMove.MovedTwice | gcode_nozzle_move_config_filewise.py:19 | append mode: two calls append two blocks |
| DefectDetection.LayerZSteps | defect_detection.py:30 | layer 1 is photographed at z 0.2 and each layer is one layer height above the one before |
| DefectDetection.Detector.UpdateNozzlePos | defect_detection.py:29-31 | the nozzle pose becomes (photo x, photo y, layer z) |
| DefectDetection.PrinterToNozzle | defect_detection.py:36-41 | the printer-to-nozzle transform is a 4×4 matrix |
| DefectDetection.MatMul | defect_detection.py:43 | the product of 4×4 matrices is 4×4 |
| DefectDetection.Composition | defect_detection.py:36-44 | the composed transform keeps the nozzle-camera rotation columns and its translation column is R·(−p) + t |
| DefectDetection.Detector.GetTPrinterCam | defect_detection.py:34-47 | updates the pose, returns the product, whose rotation block is the nozzle-camera one, and its translation |
| DefectDetection.Broadcast | defect_detection.py:107-110 | numpy's column assignment succeeds iff the values have the row count or a single value, and fills every row |
| DefectDetection.AssembledErrorSticks | defect_detection.py:105-111 | the first failing contour fails the whole list |
| DefectDetection.AssembledMeaning | defect_detection.py:101-113 | assembly succeeds iff every y list has a matching contour and fits its x list; each contour has one row per x, holding x, the matching y and the layer z (NaN when the layer has none) |
| DefectDetection.AssembleAll | defect_detection.py:104-113 | the contour loop computes the assembly |
| DefectDetection.Detector.GetContours | defect_detection.py:101-113 | the 3-D contours of the perimeter lines of the layer |
| DefectDetection.Drawn | defect_detection.py:131-136 | one mask per contour |
| DefectDetection.Detector.ProjectContour | defect_detection.py:116-158 | succeeds iff the contours can be assembled; each pixel is the cropped pixel, kept iff set in an odd number of contour masks |
| DefectDetection.RowHitsMeaning | defect_detection.py:95 | the hits of a row are exactly its cells with the label, by column |
| DefectDetection.ArgWhereMembers | defect_detection.py:95 | `argwhere` returns exactly the cells with the label |
| DefectDetection.ArgWhereOrdered | defect_detection.py:95 | those cells come in row-major order |
| DefectDetection.Convert | defect_detection.py:77-81 | one converted position per point |
| DefectDetection.DefectMaskToPositions | defect_detection.py:84-98 | the method computes the positions function |
| DefectDetection.PositionsMeaning | defect_detection.py:84-98 | a result exists iff the kind is 1 or 2; kind 1 gives one position per label but the background, converted from its centroid; kind 2 gives one list per such label |
| DefectDetection.ComponentPixels | defect_detection.py:94-97 | a component's pixels are exactly its cells, as (column, row), in row-major order |
| Masks.XorAllIsOdd | defect_detection.py:144-147 | a pixel of the XOR of the masks is set iff an odd number of masks set it |
| Masks.XorAllAppend | defect_detection.py:144-147 | the XOR of two lists of masks is the XOR of their two results |
| Masks.MasksCancel | defect_detection.py:144-147 | two identical masks cancel: adding them changes nothing, and the pair alone is all-zero |
| Masks.XorRow | defect_detection.py:147 | one row of the mask is XOR-ed and the others are unchanged |
| Masks.XorInto | defect_detection.py:147 | each pixel of the accumulated mask is XOR-ed with the contour mask |
| Masks.XorMasks | defect_detection.py:144-147 | the final mask has the frame's size and each pixel is the XOR of all masks there |
| Masks.Whiten | defect_detection.py:153 | a black pixel becomes white and any other pixel is unchanged |
| Masks.CroppedMeaning | defect_detection.py:150-157 | alpha is 255 inside the mask and 0 outside; inside, a non-black pixel is kept and black becomes white; outside, the pixel is white |
| Masks.CropToMask | defect_detection.py:150 | each pixel is kept inside the mask and black outside |
| Masks.WhitenRow | defect_detection.py:153 | one row is whitened in place and the others are unchanged |
| Masks.WhitenBackground | defect_detection.py:153 | every pixel is whitened in place |
| Masks.MergeAlpha | defect_detection.py:154-157 | four channels: the three colour channels kept, alpha 255 where the mask is set and 0 elsewhere |
| Masks.CropByMasks | defect_detection.py:144-157 | each output pixel is the cropped pixel, inside iff an odd number of masks set it |
| Masks.ErasedMeaning | defect_detection.py:168-174 | component i ≥ 1 survives iff 10 ≤ area ≤ 200 |
| Masks.EraseInRow | defect_detection.py:175 | the label's pixels in one row are cleared and every other pixel is unchanged |
| Masks.EraseLabel | defect_detection.py:175 | every pixel of the label is cleared and every other pixel is unchanged |
| Masks.FilterByArea | defect_detection.py:171-175 | in place, a pixel stays set iff it was set and its component is not out of area range |
| Masks.DefectMask | defect_detection.py:168-177 | a fresh copy of the binary image with out-of-range components erased |
| Orchestrator.ProcessLayer | iron_detect_and_correct.py:101-148 | one iteration yields the layer's events, cut short after the first ironing generation when it raises, whether the layer is fixed, and whether the script stops there |
| Orchestrator.RunWorkflow | iron_detect_and_correct.py:68-156 | the run yields the trace and the fixed-layer list up to the first raising generation, and the full workflow trace and fixed list when none raises |
| Orchestrator.SupportIroningReturns | iron_detect_and_correct.py:133-147 | the second generation reads the same layer file with speed ratio 1, so it returns whenever the first returned |
| Orchestrator.LoopReturning | iron_detect_and_correct.py:101-148 | with no raising iteration the loop yields the full loop's events and fixed list and is still running |
| Orchestrator.LoopRunning | iron_detect_and_correct.py:101-148 | the loop runs to its end exactly when no iteration raises |
| Orchestrator.LoopBeforeClosing | iron_detect_and_correct.py:101-148 | the loop never sends the end file or writes the summary |
| Orchestrator.LoopStoppedSticks | iron_detect_and_correct.py:101-148 | nothing after the first raising iteration is run |
| Orchestrator.RunStopsAt | iron_detect_and_correct.py:101-135 | when layer k is the first to raise, the events are the earlier iterations and layer k up to its failing generation, which is the last event |
| Orchestrator.RunCloses | iron_detect_and_correct.py:133-156 | `end.gcode` is sent exactly when no iteration raises; a raising run writes no summary, and a run without one is `Workflow` |
| Orchestrator.LayerSends | iron_detect_and_correct.py:105-148 | a layer sends its layer file, then its support file, and when fixed with correction enabled, the ironing file and the support file again |
| Orchestrator.LayerLog | iron_detect_and_correct.py:116-129 | a layer writes exactly one log line, marked fixed iff its count reaches the threshold |
| Orchestrator.LayerPrinted | iron_detect_and_correct.py:102-105 | a layer's events print that layer's file once |
| Orchestrator.LayerLines | iron_detect_and_correct.py:116-129 | one log line per layer |
| Orchestrator.LoopLog | iron_detect_and_correct.py:101-129 | the loop's log is one line per layer, in order |
| Orchestrator.LoopPrinted | iron_detect_and_correct.py:101-105 | the loop prints layers 1..n once each, in increasing order |
| Orchestrator.LoopSends | iron_detect_and_correct.py:101-148 | the loop never sends the setup or end file |
| Orchestrator.PreambleViews | iron_detect_and_correct.py:68-94 | before the loop: the header is logged and only the setup file is sent |
| Orchestrator.ClosingViews | iron_detect_and_correct.py:151-156 | after the loop: only the end file is sent, then the total and the list are logged |
| Orchestrator.WorkflowLog | iron_detect_and_correct.py:68-156 | the log is the header, one line per layer, the total and the fixed list |
| Orchestrator.LogIgnoresCorrection | iron_detect_and_correct.py:121-130 | enabling or disabling correction does not change the log |
| Orchestrator.FixedLayersIgnoreCorrection | iron_detect_and_correct.py:121-127 | the fixed list depends only on the threshold |
| Orchestrator.WorkflowSends | iron_detect_and_correct.py:94-151 | the sends are the setup file, the loop's sends and the end file, and the loop sends neither of those |
| Orchestrator.WorkflowStart | iron_detect_and_correct.py:68-94 | the header comes first and the setup file is sent before any other file |
| Orchestrator.WorkflowPrintsEachLayerOnce | iron_detect_and_correct.py:101-105 | the whole run prints layers 1..n once each, in increasing order |
| Orchestrator.FixedLayersMeaning | iron_detect_and_correct.py:99-127 | layer i is in the fixed list iff 1 ≤ i ≤ n and its count reaches the threshold; the list is strictly increasing |
| Orchestrator.LoopIroning | iron_detect_and_correct.py:130-148 | the loop sends layer i's ironing file iff correction is enabled and layer i is fixed; with correction disabled, nothing is generated and no correction photo is taken |
| Orchestrator.WorkflowIroning | iron_detect_and_correct.py:130-148 | the same holds for the whole run |
| Orchestrator.SummaryExample | iron_detect_and_correct.py:51-156 | counts [0, 3, 1] with threshold 2 log layers 1..3 with only layer 2 fixed and close with total 1 and list [2] |
| Orchestrator.LayerLineMarked | iron_detect_and_correct.py:116-129 | a layer's log line ends in ` FIXED` iff the layer is fixed |
| Orchestrator.SummaryTextExample | iron_detect_and_correct.py:154-156 | the summary for [2] reads `TOTAL NUM OF FIXED LAYER: 1` then `Fixed layer list: [2]` |

## Left out

- File reading and writing, `os.listdir` order, `print`, `time.sleep` and matplotlib are not modelled. Files are lists of lines, or a map from name to content. Outputs are returned, not written.
- camera_control.py and gcode_sender.py are not part of this model. Capturing and sending are events of the orchestrator's trace. The detector's verdict for a layer is its defect count, given as input.
- The OpenCV calls are inputs, not models: `resize`, `remap` and the undistortion maps, `projectPoints` and `drawContours` (the `project` parameter of `ProjectContour`), `Rodrigues`, `cvtColor`, `GaussianBlur`, `threshold` and `connectedComponentsWithStats` (the binary image, label image, areas and centroids).
- `get_T_printer_cam` does not return the rotation vector, because it comes from `Rodrigues`.
- `image_pixel_to_Gcode_position` and `get_Gcode_positions` are not modelled; they are unused and call OpenCV. `DefectMaskToPositions` takes the conversion as the `toGcode` parameter.
- `get_defect_positions` only chains `project_contour`, `get_defect_mask` and `defect_mask_to_positions` and writes two images, so it has no model of its own.
- `save_projection_img` (the outline overlay, `polylines` and `imwrite`) is not modelled.
- Numbers are exact decimals, not IEEE doubles. The float error of products such as 6000 × 0.6, signed zero (`E-0.0001` rounds to `-0.0`), and the exponent form of very large or small values are not modelled.
- Numbers.RoundMilli: rounds an exact tie half to even. Python's `round(0.0455, 3)` is 0.045, because the double nearest 0.0455 lies below the tie, so an `E` word with four decimals ending in 5 can round differently.
- Orchestrator.Run: only `generate_iron_layer` is modelled as raising. A failure of the camera, the sender or the detector, or a missing layer file, would also end the script; the trace covers only runs in which those calls return.
- LayerParsing.ParseLayer: returns every segment in the order it is written. When two `SmallBellow` markers come before a wiping marker, both structural segments get the same layer number and the second write replaces the first file; `OnDisk` describes what is left on disk, and the returned list does not.
- `Numbers.ParseDecimal` reads only plain decimals. Python's `float` also reads exponents, `inf`, `nan` and underscores; the model reports those as unreadable.
- The header's text is not rendered; it is one `Header` log entry. `Text` renders the layer lines and the summary.
- A missing z is stored as `None`, which stands for the NaN numpy writes. What `projectPoints` makes of NaN coordinates belongs to the `project` parameter.
- X and Y in `add_nozzle_movement` are the text `str()` gives for them.
- The model does not let the constant-z contour reach `projectPoints` as float32. Coordinates stay exact.
