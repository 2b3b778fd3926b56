# xmaslights, modelled in Dafny

xmaslights maps and drives strings of addressable Christmas lights. A DDP
(Distributed Display Protocol) controller receives one RGB triple per pixel.
The tools around it work out where each pixel sits in space, and let a person
light, select and classify pixels. This project models the integer, byte and
sequence logic of those tools and proves what it promises:

- **DDP framing.** This covers the Go sender `cmd/ddp/net.go` (module `DdpNet`) and the C++
  sender of the automap tool `cmd/automap/ddp.cc` (module `AutomapDdp`). Each
  models the ten-byte header, the 1..15 sequence counter and the cutting of a
  channel buffer into packets, with the last packet flagged "push". The UDP
  socket is a list of datagrams sent so far plus a count of further sends it
  accepts before every send fails.
- **The `ddp` and `lighter` tools.** `DdpCommands` covers the pixel-list argument
  ("all", "a..b", "n1,n2,...") and the buffers the on and off commands build.
  `Lighter` covers the single lit pixel and the cursor arithmetic.
- **The segmenter.** `Segmenter` is the Go pixel controller. It turns inclusive
  ranges into on/off states and renders them with the blackout, blink and chase
  overlays. `RangeEditor` is the browser page. It keeps a sorted list of ranges
  with a gap between neighbours and moves a cursor that records pixels.
- **Files and text.** This covers host[:port] parsing (`HostPort`),
  `IndexesToRanges` (`StrUtil`), `JoinPath` (`Path`), the camera/world
  coordinate reader and merge (`Coords`), the merged-coordinates format
  (`MergedCoords`) and the xLights custom-model grid (`XLights`). `Text` holds
  the formatting, splitting and integer parsing they rely on (`%d`, `%03d`,
  absl::StrSplit, strings.Split, strconv.ParseUint, absl::SimpleAtoi).
- **showfound and detect.**
  - The keyboard command buffer and keymap (`ViewCommand`).
  - Pixel selection, shared by PixelUI and PixelView (`Selection`, `PixelUi`, `PixelView`).
  - The click map (`ClickMap`).
  - The controller's camera classification and modes (`Controller`, `Bounds`).
  - The pixel model and its records (`PixelModel`, `ModelPixel`, `ViewPixel`, `Records`, `PixelBuilder`).
  - detect's InsertResult (`Detect`).

Code that changes state in place is modelled as classes whose methods carry
`modifies` clauses, or as methods over arrays. Each such method is proved
against a specification function. The lemmas about those functions state
what the code promises: round trips, invariants kept, uniqueness of results
and the examples in the repository's own tests.

Where a .h file and its .cc disagree (the repository is mid-refactor), the
model follows the .cc file as written.

## Model

| member | source | states |
|---|---|---|
| Path.PathPart | lib/file/path.cc:12-20 | an empty part or a lone "/" is written as "EMPTY"; any other part is written as itself or as itself less one trailing slash; a written part is never empty |
| Path.PlainPart | lib/file/path.cc:13-19 | a part with no slash before its last character is written with no slash at all, and writing the written part again leaves it unchanged |
| Path.SplitJoinPath | lib/file/path.cc:8-23 | the path joined from such parts splits at "/" into exactly the written parts, one per part and in order: no part is lost, merged or split |
| Path.NoParts | lib/file/path.cc:22 | no parts give the empty path |
| Path.ExamplePlain | lib/file/path.cc:8-23 | {"a", "b"} gives "a/b" |
| Path.ExampleTrailingSlash | lib/file/path.cc:15-16 | {"a/", "b"} gives "a/b": the trailing slash is not doubled |
| Path.ExampleEmpty | lib/file/path.cc:13-14 | {"", "/", "c"} gives "EMPTY/EMPTY/c" |
| StrUtil.RunsShape | lib/strings/strutil.cc:14-31 | the runs IndexesToRanges collects are never more than the indexes, there are none only for no indexes, each goes upwards, no run ends just before the next starts, and the last ends at the last index |
| StrUtil.ExtendKeeps | lib/strings/strutil.cc:15-26 | one more index either extends the current run or starts a new one; the runs stay upward and maximal and the last one ends at that index |
| StrUtil.ExpandRuns | lib/strings/strutil.cc:14-31 | expanding the runs gives back exactly the indexes, in their order (nothing lost, added or reordered) |
| StrUtil.ExpandExtend | lib/strings/strutil.cc:20-26 | extending the runs by an index extends their expansion by exactly that index |
| StrUtil.CollectRuns | lib/strings/strutil.cc:11-31 | the first loop (with its two `continue`s and the final push) returns exactly the runs of the indexes |
| StrUtil.PrintRuns | lib/strings/strutil.cc:33-40 | the second loop gives one text per run, in order: "from" for a run of one, "from-to" otherwise |
| StrUtil.IndexesToRanges | lib/strings/strutil.cc:10-43 | the result is the run texts of the indexes joined with "," |
| StrUtil.EmptyIndexes | lib/strings/strutil.cc:29-42 | no indexes give the empty text |
| StrUtil.SplitRangesText | lib/strings/strutil.cc:33-42 | for at least one index, the text splits at its commas into exactly the run texts, one per run |
| StrUtil.ExampleRuns | lib/strings/strutil.cc:14-31 | [1, 3, 4, 5, 9] has the runs 1, 3-5 and 9 |
| StrUtil.ExampleText | lib/strings/strutil.cc:10-43 | [1, 3, 4, 5, 9] gives "1,3-5,9" |
| StrUtil.ExampleOneRun | lib/strings/strutil.cc:10-43 | [1, 2, 3] gives "1-3" |
| StrUtil.ExampleDescending | lib/strings/strutil.cc:20-26 | indexes keep their order and only an index one above the run's end extends it: [3, 2, 1] gives "3,2,1" |
| PixelModel.IndexFinds | cmd/showfound/model.cc:11-13 | in the index the constructor builds, every pixel's number is a key, and each key names the first pixel with that number (emplace keeps the first entry) |
| PixelModel.PixelModel.constructor | cmd/showfound/model.cc:8-14 | keeps the image and the pixels and builds the index of the first pixel for each number |
| PixelModel.PixelModel.FindPixel | cmd/showfound/model.cc:23-29 | no result (nullptr) exactly when no pixel has the number; otherwise the first pixel with it |
| PixelModel.PixelModel.ForEachPixel | cmd/showfound/model.cc:16-21 | the callback is applied to every pixel once, in the vector's order |
| PixelModel.PixelModel.GetRefImage | cmd/showfound/model.cc:31-35 | only camera 1 may be asked for (the QCHECK), and it gets the reference image |
| HostPort.ParseWith | cmd/automap/net.cc:10-28 | the result is the whole text with the default port, or ("", 0), or a host without the separator and a port in 0..65535 |
| HostPort.NoSeparator | cmd/automap/net.cc:18-19 | with no separator the whole text is the host and the default port applies |
| HostPort.AtFirstSeparator | cmd/automap/net.cc:14-26 | with a separator the host is the text before the first one; the rest must read (SimpleAtoi) as an int in 0..65535 to be the port, otherwise the answer is ("", 0) |
| HostPort.RoundTrip | cmd/automap/net.cc:10-28 | a host without the separator, the separator and a decimal port in 0..65535 parse back to that host and port |
| HostPort.NotANumber | cmd/automap/net.cc:22-23 | a port text that starts with neither a blank, a sign nor a digit is rejected with ("", 0) |
| HostPort.AsWrittenIgnoresColon | cmd/automap/net.cc:14 | splitting on ',' as written, "foo:1234" is all host with the default port |
| HostPort.AsWrittenAcceptsBadPort | cmd/automap/net.cc:14 | splitting on ',' as written, "foo:abcd" is accepted as a host with the default port |
| HostPort.ColonPort | cmd/automap/net_test.cc:21 | with ':', "foo:1234" gives ("foo", 1234) |
| HostPort.ColonNoPort | cmd/automap/net_test.cc:22 | with ':', "foo" gives ("foo", default port) |
| HostPort.ColonBadPort | cmd/automap/net_test.cc:23 | with ':', "foo:abcd" gives ("", 0) |
| ClickMap.Cell | cmd/showfound/click_map.cc:16-29 | a cell holds -1 or the number of a target whose square (5 cells each way, cut at the image edge) covers it |
| ClickMap.Uncovered | cmd/showfound/click_map.cc:16 | a cell that no target's square covers keeps the initial -1 |
| ClickMap.LastWins | cmd/showfound/click_map.cc:18-29 | where squares overlap, the cell holds the number of the last target in the list that covers it |
| ClickMap.ClickMap.constructor | cmd/showfound/click_map.cc:14-30 | after filling with -1 and drawing every target's rectangle in order, each cell of the map holds Cell of the targets |
| ClickMap.ClickMap.WhichTarget | cmd/showfound/click_map.cc:32 | the number read at a point on the map is Cell of the targets there |
| ClickMap.FillRect | cmd/showfound/click_map.cc:22-28 | a filled cv::rectangle sets exactly the cells of the target's square (cut at the edges) to its number and leaves every other cell unchanged |
| ClickMap.FillRow | cmd/showfound/click_map.cc:22-28 | one row of the filled rectangle: only that row's covered cells take the number |
| ClickMap.ExampleOneTarget | cmd/showfound/click_map.cc:10-27 | a target at (1, 1) on a 30 by 10 map covers cells up to 5 to the right and below, clipped at 0, and not cell 7 |
| ModelPixel.ModelPixel.Camera | cmd/showfound/model_pixel.h:34-37 | only a camera that saw the pixel may be asked (the QCHECK), and it gives that camera's position, camera n being entry n - 1 |
| ModelPixel.ModelPixel.World | cmd/showfound/model_pixel.h:40 | the world position, which must be present since it is dereferenced unchecked |
| ModelPixel.NewModelPixel | cmd/showfound/model_pixel.h:12-17 | the constructor keeps number, cameras and world and defaults synthesized to false |
| ModelPixel.AnyCamera | cmd/showfound/model_pixel.h:25-32 | has_any_camera holds exactly when some camera n in 1..(number of cameras) has_camera(n) |
| ViewPixel.ViewPixel.Camera | cmd/showfound/view_pixel.h:32-35 | only a pixel with a camera position may be asked (the CHECK), and it gives that position |
| ViewPixel.ViewPixel.World | cmd/showfound/view_pixel.h:38-41 | only a pixel with a world position may be asked (the CHECK), and it gives that position |
| PixelBuilder.CameraEntries | cmd/showfound/model_pixel.cc:11-24 | the entries made from a camera vector are numbered within 1..(number of cameras), each holding the position of present camera number - 1 and no manual flag, in strictly increasing camera order |
| PixelBuilder.CameraEntriesRoundTrip | cmd/showfound/model_pixel.cc:11-24 | reading camera n back from the entries gives exactly entry n - 1 of the vector, present or absent |
| PixelBuilder.FromCameras | cmd/showfound/model_pixel.cc:7-33 | ModelPixel(num, cameras, world): the record of pixel num with exactly those entries, and a world position (with no derivation) exactly when one is given |
| PixelBuilder.MakeCameraPixelLocation | cmd/showfound/model_pixel.cc:40-51 | the entry has the camera number and location, and the manual flag is present exactly when it is true (never written as false) |
| PixelBuilder.Replaced | cmd/showfound/model_pixel.cc:59-66 | the same number of entries; every entry for the camera is replaced by the new one and every other entry is kept |
| PixelBuilder.ReplacedCounts | cmd/showfound/model_pixel.cc:59-66 | replacing a camera's entries changes the count of no entry for another camera |
| PixelBuilder.UpsertSets | cmd/showfound/model_pixel.cc:55-80 | after SetCameraLocation the new entry is present, every entry for that camera is the new one, and every entry for another camera occurs as often as before |
| PixelBuilder.InsertByCamera | cmd/showfound/model_pixel.cc:72-77 | one insertion step of the sort: the result is ordered by camera number and is the old entries plus the new one |
| PixelBuilder.SortByCamera | cmd/showfound/model_pixel.cc:72-77 | std::sort by camera number: the result is ordered by camera number and a permutation of the entries |
| PixelBuilder.FirstWith | cmd/showfound/model_pixel.cc:83-90 | the position of the first entry for the camera, or the length when there is none: every entry before it is for another camera |
| PixelBuilder.ClearRemovesFirst | cmd/showfound/model_pixel.cc:82-93 | when the camera has an entry, ClearCameraLocation removes exactly one entry, the first for that camera, and keeps every other |
| PixelBuilder.ClearKeepsLater | cmd/showfound/model_pixel.cc:86-89 | only the first entry is erased (the loop breaks): a second entry for the same camera survives |
| PixelBuilder.ReplaceAll | cmd/showfound/model_pixel.cc:58-66 | the replacing loop gives the replaced entries, and `updated` holds exactly when some entry was for the camera |
| PixelBuilder.ModelPixelBuilder.constructor | cmd/showfound/model_pixel.cc:35-36 | the builder starts from the original's record |
| PixelBuilder.ModelPixelBuilder.SetCameraLocation | cmd/showfound/model_pixel.cc:55-80 | pixel number and world position unchanged; entries sorted by camera number and a permutation of the old entries with that camera's entries replaced, or the new entry added when it had none |
| PixelBuilder.ModelPixelBuilder.ClearCameraLocation | cmd/showfound/model_pixel.cc:82-93 | the record loses the first entry for the camera, if any, and nothing else changes |
| PixelBuilder.ModelPixelBuilder.SetWorldLocation | cmd/showfound/model_pixel.cc:95-113 | pixel number and entries unchanged; the world record is replaced by the location, with a derivation exactly when a source set is given, listing its elements in increasing order |
| PixelBuilder.ModelPixelBuilder.ClearWorldLocation | cmd/showfound/model_pixel.cc:115-118 | only the world position is removed |
| PixelBuilder.ModelPixelBuilder.Build | cmd/showfound/model_pixel.cc:120 | the finished record is the builder's record |
| PixelBuilder.SetCameraLocationExample | cmd/showfound/model_pixel_test.cc:13-49 | the builder test: camera 3 at (1, 2); then camera 3 at (4, 5) marked manually adjusted; then camera 1 at (1, 2) sorted before camera 3 |
| PixelBuilder.SetWorldLocationExample | cmd/showfound/model_pixel_test.cc:51-62 | the builder test: the world location (1, 2, 3) set on an empty record, with no derivation |
| PixelBuilder.ExampleSteps | cmd/showfound/model_pixel_test.cc:15-36 | the entries before sorting at each step of that test |
| Detect.FirstRecord | cmd/detect/detect_main.cc:55-56 | the position of the first record for the pixel, or the length when there is none: every record before it is for another pixel |
| Detect.DetectedSets | cmd/detect/detect_main.cc:57-76 | after a detection the camera's first entry is exactly the detected point with no manual flag, no other entry changes, and an entry is added exactly when the camera had none |
| Detect.FirstWithAt | cmd/detect/detect_main.cc:59-67 | the inner loop stops at the camera's first entry |
| Detect.FirstRecordAt | cmd/detect/detect_main.cc:55-56 | the outer loop stops at the pixel's first record |
| Detect.InsertedTouchesFirst | cmd/detect/detect_main.cc:52-89 | InsertResult changes only the pixel's first record, or adds one at the end when there is none; that record keeps the pixel number and its world position |
| Detect.InsertedRecordsPoint | cmd/detect/detect_main.cc:57-88 | with a point, the pixel's record then has the camera's first entry at that point, unadjusted |
| Detect.InsertedWithoutPoint | cmd/detect/detect_main.cc:57-83 | without a point a known pixel is left alone and an unknown one gets a record with no camera entry |
| Detect.DetectedIdempotent | cmd/detect/detect_main.cc:57-76 | detecting the same point twice for a camera is the same as detecting it once |
| Detect.InsertedIdempotent | cmd/detect/detect_main.cc:52-89 | recording the same result twice is the same as recording it once |
| Detect.PixelRecords.constructor | cmd/detect/detect_main.cc:104 | the record list holds the given records |
| Detect.PixelRecords.InsertResult | cmd/detect/detect_main.cc:52-89 | the record list becomes Inserted of the old list: the first record for the pixel updated, or a new record added |
| Detect.UpdateCamera | cmd/detect/detect_main.cc:58-75 | the camera loop gives Detected of the entries: the first entry for the camera moved to the point with its manual flag cleared, or a new entry appended |
| Coords.PixelNumber | lib/file/coords.cc:72-75 | the pixel-number check as evidently intended: a pixel number is accepted exactly when the field reads as an unsigned number no greater than 65536, and then lies in 0..65536 |
| Coords.PixelNumberZeroPad3 | lib/file/coords.cc:21-75 | a pixel number in 0..65536 printed with %03d holds no space and is read back as itself |
| Coords.AsWrittenAcceptsBadPixel | lib/file/coords.cc:73 | as written (`!SimpleAtoi(...) && pixel_num > 65536`), a one-character field that is no number, such as "x", is accepted as whatever the variable holds, while the intended check refuses it |
| Coords.AsWrittenAcceptsLargePixel | lib/file/coords.cc:73-112 | as written, pixel 70000 passes the check because a successful parse is never range-checked; the intended check refuses it |
| Coords.ParseXYCoordRoundTrip | lib/file/coords.cc:41-49 | the "x,y" text of a point of two 32-bit ints parses back to that point |
| Coords.CoordTextRoundTrip | lib/file/coords.cc:23-88 | a camera coordinate written by operator<< ("x,y" or "-") holds no space and reads back as itself |
| Coords.RecordTextReadsBack | lib/file/coords.cc:20-93 | a record of two 32-bit camera coordinates and no world coordinate, written by operator<<, is a line the camera reader accepts, giving back the pixel number and the coordinates |
| Coords.CameraLineOf | lib/file/coords.cc:70-93 | a line of a good pixel number and two good coordinate fields joined by spaces parses to that number and those coordinates |
| Coords.RecordTextJoin | lib/file/coords.cc:20-37 | such a record is written as its three fields joined by single spaces |
| Coords.Fields | lib/file/coords.cc:78-89 | the coordinate loop gives one value per field, each the parse of its field; or it stops at field j, the first that does not parse, every field before it parsing |
| Coords.ParseFields | lib/file/coords.cc:78-89 | the imperative coordinate loop returns Fields of the line's coordinate fields |
| Coords.FieldsSnoc | lib/file/coords.cc:78-89 | one more field extends the values when it parses and otherwise is reported by its position |
| Coords.FirstLineWins | lib/file/coords.cc:91-121 | emplace keeps the first line's value: a pixel named on several good lines maps to the value of its first line |
| Coords.NotYetSeen | lib/file/coords.cc:91-121 | a pixel that no line names is not in the map |
| Coords.OnlyNamedPixels | lib/file/coords.cc:91-121 | every pixel in the map is named by some good line, with that line's value |
| Coords.FirstErrorStops | lib/file/readers.cc:39-43 | an error on line i is the error of the whole file when every line before it is good |
| Coords.ParseCameraLine | lib/file/coords.cc:71-93 | the callback for one camera line, with the field-count check of lib/file/readers.cc:55-64: wrong field count, bad pixel number, bad coordinate j, or the pixel and its coordinates (corrected; see Findings) |
| Coords.ReadCameraCoords | lib/file/coords.cc:62-100 | "failed to open file" for a file that cannot be opened, else the first line's error or the map from each pixel to its first line's coordinates (corrected; see Findings) |
| Coords.ReadWorldCoords | lib/file/coords.cc:102-130 | "failed to open file" for a file that cannot be opened, else the first line's error (field count, pixel number, "world coordinate invalid") or the map from each pixel to its first line's point (corrected; see Findings) |
| Coords.Merge | lib/file/coords.cc:160-181 | one record per pixel known to either map, in strictly increasing pixel order, each holding that pixel's camera coordinates and world coordinate where the maps have them |
| Coords.ReadCoords | lib/file/coords.cc:134-184 | "no paths specified" when neither path is given; otherwise the camera reader's error, then the world reader's error; otherwise the merge of both maps in increasing pixel order (corrected; see Findings) |
| Coords.ReadCoordsErrors | lib/file/coords_test.cc:25-29 | no path gives "no paths specified"; a camera path that cannot be opened gives "failed to open file" |
| MergedCoords.ParseCoordAsWrittenMissingComma | lib/file/merged_coords.cc:34-38 | as written, ParseCoord reads parts[1] even when there is no ','; a one-digit field such as "5" becomes a point whenever the text past the vector reads as a number, while the checked reading refuses it |
| MergedCoords.AtoiOneDigit | lib/file/merged_coords.cc:37 | SimpleAtoi reads a one-digit text as that digit |
| MergedCoords.ParseCoordAsWrittenAgrees | lib/file/merged_coords.cc:34-38 | with a ',' in the field, ParseCoord as written agrees with the checked reading |
| MergedCoords.CollectLines | lib/file/merged_coords.cc:52-81 | when the file reads, there is one record per line, and record k is the parse of line k + 1 |
| MergedCoords.CollectAll | lib/file/merged_coords.cc:52-83 | lines that all parse give exactly their records, in order |
| MergedCoords.FirstErrorStops | lib/file/merged_coords.cc:52-81 | an error on line i is the error of the whole file when every line before it is good |
| MergedCoords.LineReadsBack | lib/file/merged_coords.cc:17-80 | a record with a pixel number in 0..65536 and two 32-bit coordinates, written by operator<<, reads back as itself |
| MergedCoords.RecordTextJoin | lib/file/merged_coords.cc:28-29 | such a record is written as its three fields joined by single spaces |
| MergedCoords.MergedLineOf | lib/file/merged_coords.cc:53-80 | a line of a good pixel number and two good coordinate fields joined by spaces parses to that record |
| MergedCoords.MergedLinesOf | lib/file/merged_coords.cc:53-80 | for a line of a pixel field and two good coordinate fields joined by spaces, both the as-written and the corrected reading return the record exactly when their pixel-number test passes, and "pixel number invalid" otherwise |
| MergedCoords.MergedLineAsWrittenAcceptsBadPixel | lib/file/merged_coords.cc:58-62 | as written, a line whose pixel field is one character that is no number, such as "x 1,2 3,4", is read as a record for pixel 0; the corrected reader answers "pixel number invalid" |
| MergedCoords.MergedLineAsWrittenAcceptsLargePixel | lib/file/merged_coords.cc:58-62 | as written, a line for pixel 70000 is read with that number; the corrected reader answers "pixel number invalid" |
| MergedCoords.FileReadsBack | lib/file/merged_coords.cc:17-84 | a file of written records, one per line, reads back as exactly those records |
| MergedCoords.ParseMergedLine | lib/file/merged_coords.cc:53-80 | one line: "too many coords" unless three fields, "pixel number invalid", "coordinate j invalid", or the record (corrected; see Findings) |
| MergedCoords.ReadMergedCoords | lib/file/merged_coords.cc:42-84 | a file that cannot be opened reads as no records; otherwise the first line's error or one record per line, in order (corrected; see Findings) |
| XLights.Index | lib/file/xlights.cc:73-90 | the collision loop computes Indexed of the placements: the grid of cells and the set of collisions |
| XLights.LowestWins | lib/file/xlights.cc:76-90 | a cell is occupied exactly when some pixel was placed in it, and it holds a pixel placed there with the lowest number placed there (lib/file/xlights.h:16-20) |
| XLights.CollisionsAreInputs | lib/file/xlights.cc:82-89 | every collision is the number of some input pixel |
| XLights.EachOnce | lib/file/xlights.cc:76-90 | with distinct pixel numbers every pixel's cell is occupied, the pixel is a collision exactly when its cell holds another number, and no other cell holds its number |
| XLights.HeldOnlyAtOwnCell | lib/file/xlights.cc:76-90 | with distinct pixel numbers, a cell holding a pixel's number is that pixel's own cell |
| XLights.NotACollision | lib/file/xlights.cc:82-89 | a number that no input pixel has is never a collision |
| XLights.CollisionExample | lib/file/xlights_test.cc:73-93 | two pixels in one cell, 0 then 1, and two in another, 3 then 2: the lower number keeps each cell and 1 and 3 are the collisions |
| XLights.RowLine | lib/file/xlights.cc:27-35 | the row loop gives one text per x, the cell's pixel number plus one or "" for an empty cell |
| XLights.JoinStep | lib/file/xlights.cc:18-24 | appending a separator before every part but the first, then the part, builds the join of the parts |
| XLights.AppendPlane | lib/file/xlights.cc:22-38 | one plane appended: its rows, each joined with ",", the rows separated by ";" |
| XLights.ModelToString | lib/file/xlights.cc:15-42 | the text is the planes separated by a vertical bar, each plane's rows separated by ";", each row's cells separated by "," |
| XLights.ModelTextSplits | lib/file/xlights.cc:15-42 | with zero-based pixel numbers the text splits back into the grid: zsize planes at a vertical bar, ysize rows at ";", xsize cells at ",", and cell (x, y, z) is that cell's text |
| XLights.CellTextMeans | lib/file/xlights.cc:29-34 | an occupied cell reads back as its pixel number plus one, and a cell's text is empty exactly when the cell is empty |
| XLights.JoinSnoc | lib/file/xlights.cc:37 | joining one more part adds the separator (unless it is the first part) and the part |
| XLights.JoinAvoids | lib/file/xlights.cc:37 | a join holds no character that neither its parts nor its separator hold |
| XLights.ModelTextExample | lib/file/xlights.cc:15-42 | a 2 x 1 x 2 grid with pixel 0 in the first cell of plane 0 and pixel 9 in the last cell of plane 1 is written "1," then a vertical bar then ",10" |
| Controller.NextMode | cmd/showfound/controller.cc:70-76 | the next image mode is never IMAGE_LAST: the enumerator after the current one, with IMAGE_LAST turned back into IMAGE_ALL_ON |
| Controller.ModesCycle | cmd/showfound/controller.cc:70-76 | the modes cycle ALL_ON, ALL_OFF, FOCUS_ON: each step changes the mode and three steps come back to the start |
| Controller.ClassifyMeans | cmd/showfound/controller.cc:45-56 | the knowledge SetCamera gives a pixel, in both directions: OTHER_ONLY exactly when another camera but not this one saw it, UNSEEN exactly when no camera did, CALCULATED exactly when this camera saw it and it has a world position, THIS_ONLY exactly when this camera saw it without one; never SYNTHESIZED |
| Controller.ViewPixelVisible | cmd/showfound/controller.cc:40-63 | the view pixel made for a model pixel is drawn exactly when this camera saw it, then at that camera's position, and has a world position exactly when the model pixel has one |
| Controller.AsWrittenInventsWorld | cmd/showfound/controller.cc:63 | a pixel seen by camera 1 and with no world position: the view pixel as written carries a world position read through an unset optional, the corrected one carries none |
| Controller.CollectViewPixels | cmd/showfound/controller.cc:38-64 | the ForEachPixel loop yields one view pixel per model pixel, in order, and the running minimum and maximum pixel numbers |
| Controller.NumsInOnly | cmd/showfound/controller.cc:147-160 | every number in a status group belongs to a model pixel whose status is that group |
| Controller.PartitionExact | cmd/showfound/controller.cc:147-160 | the four status groups together hold every model pixel's number exactly once (as multisets) |
| Controller.Partition | cmd/showfound/controller.cc:147-160 | the loop sorts the pixels into world, this camera, other camera and unknown, each group in model order, a world position taking precedence over any camera |
| Controller.AsWrittenSkipsMax | cmd/showfound/controller.cc:120-129 | NextPixel as written never steps forward onto the maximum pixel number: from one below it the focus goes to the minimum, and from the maximum it goes past the range |
| Controller.PixelController.constructor | cmd/showfound/controller.cc:14-26 | the controller starts unfocused, in IMAGE_ALL_ON, on the given camera, with its view pixels and pixel-number range as SetCamera builds them |
| Controller.PixelController.SetCamera | cmd/showfound/controller.cc:28-68 | an invalid camera number changes nothing; a valid one becomes the camera, resets the image mode to ALL_ON, and rebuilds the view pixels and the running minimum and maximum; the focus is kept |
| Controller.PixelController.NextImageMode | cmd/showfound/controller.cc:70-81 | the image mode advances to NextMode and nothing else changes |
| Controller.PixelController.Unfocus | cmd/showfound/controller.cc:109-113 | no pixel is focused and the image mode is back to ALL_ON; the camera, view pixels and range are kept |
| Controller.PixelController.Focus | cmd/showfound/controller.cc:115-118 | the given pixel becomes the focus and nothing else changes |
| Controller.PixelController.NextPixel | cmd/showfound/controller.cc:120-129 | the corrected step: the focus moves one pixel forward or back and wraps from one end of the range to the other, so it stays within the range |
| Controller.PixelController.PrintStatus | cmd/showfound/controller.cc:140-169 | the status text: camera and its maximum, the focus or none, and the four status groups each printed as ranges |
| Bounds.RunningBounds | cmd/showfound/controller.cc:58-61 | for numbers that are not negative the running minimum and maximum are members of the list and bound every number; an empty list leaves both at -1 |
| Bounds.MinusOneRestarts | cmd/showfound/controller.cc:58-59 | -1 doubles as the no-minimum-yet marker, so a pixel numbered -1 does not stick as the minimum: -1 then 5 gives 5 |
| Bounds.Bounds | cmd/showfound/view.cc:24-31 | the loop both classes run computes the running minimum and maximum of the pixel numbers |
| Ordered.Elements | lib/file/coords.cc:160-172 | walking a std::set yields every element once, in ascending order, and nothing else |
| PixelUi.Index | cmd/showfound/ui.cc:24-25 | filing the states by number keeps exactly the numbers present, each under a state of that number from the list |
| PixelUi.IndexKeepsLast | cmd/showfound/ui.cc:24-25 | a number that repeats is filed under its last state |
| PixelUi.MinNum | cmd/showfound/ui.cc:23-27 | the constructor's minimum is the number of one of the states and no state's number is below it |
| PixelUi.MaxNum | cmd/showfound/ui.cc:23-27 | the constructor's maximum is the number of one of the states and no state's number is above it |
| PixelUi.AsWrittenInsertsGap | cmd/showfound/ui.cc:57 | as written, with pixel 0 selected and pixel 2 the only candidate, the search up reads `pixels_[1]` although no pixel 1 exists, which inserts a state for it; the corrected search lands on 2 |
| PixelUi.ToggleFlagged | cmd/showfound/ui.cc:257-290 | a toggle that changes the selection sets the pixel's flag to its new membership and the pixel stops being stale; a refused toggle changes no flag; either way every flag is set exactly when its pixel is selected or stale, and no stale pixel is selected |
| PixelUi.Scan | cmd/showfound/ui.cc:23-35 | the constructor's loop files each state under its number and computes the least and greatest number |
| PixelUi.PixelUI.constructor | cmd/showfound/ui.cc:19-36 | the UI over a non-empty list of states: states filed by number with their selection flags as given, the least and greatest number, nothing selected or under the mouse, the pixels that arrived flagged recorded as stale, a click map with one square per state, and dirty |
| PixelUi.PixelUI.FindPixel | cmd/showfound/ui.cc:89-95 | the click map's pixel at the point, or -1; a pixel found is a filed pixel |
| PixelUi.PixelUI.GetAndClearDirty | cmd/showfound/ui.cc:97-101 | returns whether a redraw was due and clears the flag, changing nothing else |
| PixelUi.PixelUI.SetOver | cmd/showfound/ui.cc:243-248 | the mouse is over p, and a redraw is due exactly when it was due already or p is news |
| PixelUi.PixelUI.ClearOver | cmd/showfound/ui.cc:250-255 | the mouse is over no pixel, and a redraw is due exactly when it was due already or a pixel was under the mouse |
| PixelUi.PixelUI.ToggleCalculatedPixel | cmd/showfound/ui.cc:257-290 | a selected pixel is deselected; an unselected one is selected when fewer than three are and it is calculated, and refused otherwise; on a change the pixel's flag follows its new membership and a redraw is due, and a refusal leaves every pixel and flag as it was |
| PixelUi.PixelUI.SelectNextCalculatedPixel | cmd/showfound/ui.cc:38-72 | with nothing selected nothing happens; otherwise the last selected pixel gives way to the first calculated, unselected pixel after it in the direction given, wrapping around: the selection drops the old pixel and ends with the new one, only those two flags change, and a redraw is due; nothing changes when there is none (corrected; see Findings) |
| PixelUi.PixelUI.OnMouseEvent | cmd/showfound/ui.cc:227-241 | a left click on a pixel toggles it, its flag following on a change and the pixel under the mouse kept; a move leaves the pixels and the selection alone and sets or clears the pixel under the mouse, making a redraw due exactly when that pixel changes or one was due; any other event, and a click off every pixel, changes nothing |
| PixelView.IndexedWithin | cmd/showfound/view.cc:20-39 | every pixel the model files lies between the running minimum and maximum the constructor computes |
| PixelView.AsWrittenDereferencesGap | cmd/showfound/view.cc:64 | as written, with pixel 0 selected and pixel 2 the only candidate, the search up dereferences FindPixel(1), which is null because no pixel 1 exists and 1 is not selected; the corrected search lands on 2 |
| PixelView.PixelView.constructor | cmd/showfound/view.cc:20-39 | the view over the model's pixels: the running minimum and maximum, nothing selected or under the mouse, one click-map square per pixel, and dirty |
| PixelView.PixelView.FindPixel | cmd/showfound/view.cc:95-101 | the click map's pixel at the point, or -1; a pixel found is in the model |
| PixelView.PixelView.PixelIsSelected | cmd/showfound/view.cc:124-131 | true exactly when the pixel is in the selection |
| PixelView.PixelView.GetAndClearDirty | cmd/showfound/view.cc:103-107 | returns whether a redraw was due and clears the flag, changing nothing else |
| PixelView.PixelView.SetOver | cmd/showfound/view.cc:254-259 | the mouse is over p, and a redraw is due exactly when it was due already or p is news |
| PixelView.PixelView.ClearOver | cmd/showfound/view.cc:261-266 | the mouse is over no pixel, and a redraw is due exactly when it was due already or a pixel was under the mouse |
| PixelView.PixelView.ToggleCalculatedPixel | cmd/showfound/view.cc:268-299 | a selected pixel is deselected; an unselected one is selected when fewer than three are and it is calculated and not synthesized, and refused otherwise; a change makes a redraw due |
| PixelView.PixelView.SelectNextCalculatedPixel | cmd/showfound/view.cc:41-79 | the last selected pixel gives way to the first selectable, unselected pixel after it in the direction given, wrapping around, and a redraw is due; nothing changes when there is none or nothing is selected (corrected; see Findings) |
| PixelView.PixelView.OnMouseEvent | cmd/showfound/view.cc:238-252 | a left click on a pixel toggles it and keeps the pixel under the mouse; a move leaves the selection alone and sets or clears the pixel under the mouse, making a redraw due exactly when that pixel changes or one was due; any other event, and a click off every pixel, changes nothing |
| Selection.IndexOf | cmd/showfound/ui.cc:258-263 | the index found is the first position holding p, or the length when p is absent |
| Selection.IndexOfIs | cmd/showfound/ui.cc:258-263 | a scan that stops at the first p or at the end stops at IndexOf |
| Selection.Find | cmd/showfound/view.cc:269-274 | the index loop returns the first position holding p, or the length |
| Selection.RemoveDistinct | cmd/showfound/ui.cc:267-271 | erasing p from a list without repeats removes exactly p, shortens the list by one when p was there, and keeps it without repeats |
| Selection.ToggleFlips | cmd/showfound/ui.cc:257-290 | a toggle keeps the selection at most three distinct candidates; when it reports a change the pixel's membership flips and every other pixel keeps its own, and when it reports none the selection is unchanged |
| Selection.PosClosed | cmd/showfound/ui.cc:47-55 | the wrapped walk rises to the maximum and then climbs from the minimum (or falls to the minimum and then drops from the maximum) |
| Selection.PosLap | cmd/showfound/ui.cc:47-55 | one lap of the wrapped walk reaches every pixel number of the range and comes back to the start only at its end |
| Selection.FirstFromIsFirst | cmd/showfound/ui.cc:47-63 | the search from step k lands on a candidate that is the first on the walk from k, whenever there is one before the lap closes, and otherwise on the start |
| Selection.SearchFinds | cmd/showfound/ui.cc:38-72 | the search finds a candidate whenever some pixel of the range other than the start is one, and then the nearest in the walk's direction; otherwise it stays at the start |
| Selection.NextCandidate | cmd/showfound/ui.cc:45-63 | the corrected loop returns the search's result: the first candidate after the start, wrapping, or the start |
| Selection.AsWrittenSkipsWrapTarget | cmd/showfound/ui.cc:47-55 | pixels 0 to 9, 5 selected and only 0 a candidate: the loop as written wraps past 0 and returns to 5, while the corrected search finds 0 |
| Selection.SkipsToStart | cmd/showfound/ui.cc:47-55 | from above the start the loop as written wraps to one past the minimum and climbs back to the start, seeing no candidate |
| Selection.ClimbsToStart | cmd/showfound/ui.cc:47-63 | with no candidate between cur and the start, the loop as written climbs to the start |
| Selection.AsWrittenNeverEnds | cmd/showfound/ui.cc:47-55 | when the selected pixel is the minimum and no other pixel is a candidate, the loop as written never reaches the start again, whatever the number of steps |
| Selection.CorrectedEnds | cmd/showfound/ui.cc:38-72 | in the same situation the corrected search stops at the start |
| Selection.SameSearch | cmd/showfound/ui.cc:57-60 | candidate sets that agree on every pixel but the start give the same search |
| ViewCommand.KeyToString | cmd/showfound/view_command.cc:9-20 | a key always shows as a non-empty text: printable keys as their character, the arrows and escape by name, anything else in decimal |
| ViewCommand.PrintableKeys | cmd/showfound/view_command.cc:9-11 | a printable key shows as the one character with its code, so different printable keys show differently |
| ViewCommand.NamedKeys | cmd/showfound/view_command.cc:12-18 | the arrows show as "<-" and "->" and escape as "ESC", names no printable key can show as |
| ViewCommand.Keys | cmd/showfound/view_command_test.cc:29-41 | the key codes typed for a text, one per character |
| ViewCommand.TypeDigits | cmd/showfound/view_command.cc:43-52 | typing digits whose value the int prefix can hold into an empty buffer leaves exactly that decimal value as the prefix |
| ViewCommand.ShowTyped | cmd/showfound/view_command.cc:76-97 | a typed number up to 2^31 - 1 followed by a command key shows as the number as typed, a blank, and the key |
| ViewCommand.ErrorClears | cmd/showfound/view_command.cc:71-84 | an error shows as its message and drops what was typed; the next key or click clears it |
| ViewCommand.KeyRestarts | cmd/showfound/view_command.cc:40-60 | once a key is buffered, the next digit starts a new prefix and the next key starts a new command |
| ViewCommand.KeyKeepsPrefix | cmd/showfound/view_command.cc:55-59 | before a key is buffered, a command key is recorded and the prefix and click are kept |
| ViewCommand.SecondClick | cmd/showfound/view_command.cc:62-69 | a second click drops the prefix and the key and leaves only the click |
| ViewCommand.TypedSnoc | cmd/showfound/view_command.cc:40-60 | typing one more key is AddKey applied to the buffer after the earlier keys |
| ViewCommand.FullSequence | cmd/showfound/view_command_test.cc:21-51 | typing 1, 3, x and clicking leaves prefix 13, key x and the click; before the click the buffer shows "13 x" |
| ViewCommand.CommandBuffer.constructor | cmd/showfound/view_command.cc:23 | a new buffer holds no prefix, no key, no click and no error |
| ViewCommand.CommandBuffer.Reset | cmd/showfound/view_command.cc:25 | the buffer is emptied |
| ViewCommand.CommandBuffer.ResetAll | cmd/showfound/view_command.cc:27-32 | the buffer is emptied |
| ViewCommand.CommandBuffer.AddKey | cmd/showfound/view_command.cc:40-60 | the new buffer is AddKeyTo of the old one: the error cleared, a digit extending the prefix and any other key becoming the command key, a buffered key making either start over |
| ViewCommand.CommandBuffer.AddClick | cmd/showfound/view_command.cc:62-69 | the new buffer is AddClickTo of the old one: the error cleared and the click recorded, a second click starting over |
| ViewCommand.CommandBuffer.SetError | cmd/showfound/view_command.cc:71-74 | the buffer holds only the error |
| ViewCommand.CommandBuffer.ToString | cmd/showfound/view_command.cc:76-97 | the buffer's text: the error message, or the prefix and key separated by a blank |
| ViewCommand.Execute | cmd/showfound/view_command.cc:99-104 | the command's function is called exactly when its arguments are valid, and then its result is returned; invalid arguments answer USAGE |
| ViewCommand.PreferPrecedence | cmd/showfound/view_command.h:156-165 | a PREFER command is valid exactly when a configured source has a value, and takes the prefix before the focus before the pixel under the mouse |
| ViewCommand.ExclusiveOne | cmd/showfound/view_command.h:156-165 | an EXCLUSIVE command is valid exactly when one configured source has a value, and takes that value |
| ViewCommand.BareWithPrefix | cmd/showfound/view_command.h:143-145 | a bare command given a prefix answers USAGE without running, and without one runs and returns its function's result |
| ViewCommand.NoArgs | cmd/showfound/view_command_test.cc:192-278 | an argument command given no argument at all answers USAGE without running, in either mode |
| ViewCommand.ClickSequence | cmd/showfound/view_command_test.cc:283-308 | a click command needs a click after its key and then is ready; without a source it answers USAGE, with a prefix it is called at the mouse position with that prefix |
| ViewCommand.EvaluateDefault | cmd/showfound/view_command.h:84-88 | a command that needs no click is always ready |
| ViewCommand.Keymap.constructor | cmd/showfound/view_command.cc:106-111 | a new keymap holds only the '?' help command |
| ViewCommand.Keymap.Add | cmd/showfound/view_command.cc:113-117 | adding a command for a key already filed is fatal and changes nothing; otherwise the command is filed under its key |
| ViewCommand.Keymap.Lookup | cmd/showfound/view_command.cc:119-130 | no buffered key answers CONTINUE; a filed key answers its command, and only a filed key does; any other key answers UNKNOWN |
| ViewCommand.Keymap.LookupFiled | cmd/showfound/view_command.cc:106-130 | '?' is always found, and a found command carries the buffered key |
| DdpNet.Frame | cmd/ddp/net.go:66-82 | a packet is ten header bytes longer than its body |
| DdpNet.FrameLayout | cmd/ddp/net.go:66-82 | the bytes Write produces: the four header bytes, then the offset and the length read back most significant byte first, then the body |
| DdpNet.FlagsByte | cmd/ddp/net.go:37-39 | the flags byte always has the version bit 0x40 set and carries the low six bits of f |
| DdpNet.NextSeq | cmd/ddp/net.go:144-151 | the number after s is at most 15, and at least 1 for any s that is not negative |
| DdpNet.SeqAfterCycles | cmd/ddp/net.go:144-151 | starting from a number in 1..15, getSeq visits 1..15 in a cycle: after k calls the number is (s - 1 + k) mod 15, plus 1 |
| DdpNet.DataFrame | cmd/ddp/net.go:131-142 | a data frame is ten bytes longer than its chunk |
| DdpNet.DataFrameLayout | cmd/ddp/net.go:131-142 | a data frame starts 0x41 when pushed and 0x40 otherwise, carries the low four bits of its sequence number, type 1 and id 1, then its offset and chunk length in network order, then the chunk |
| DdpNet.DataFrames | cmd/ddp/net.go:153-174 | SetPixels always builds at least one frame, even for an empty buffer |
| DdpNet.FrameCountIsCeiling | cmd/ddp/net.go:153-174 | an empty buffer takes one frame; otherwise n bytes take n / max frames rounded up |
| DdpNet.DataFramesCount | cmd/ddp/net.go:153-174 | the frames built for a buffer number exactly FrameCount of its length |
| DdpNet.DataFrameAt | cmd/ddp/net.go:153-174 | frame k carries bytes k*max up to k*max+max of the buffer, at offset off + k*max, with the k-th sequence number after s, and only the last frame is pushed |
| DdpNet.DataFrameShift | cmd/ddp/net.go:170 | frame k of a buffer is frame k - 1 of the buffer after its first max bytes |
| DdpNet.PayloadsAreBuffer | cmd/ddp/net.go:153-174 | the frames' chunks put back together are exactly the buffer: nothing lost, repeated or reordered |
| DdpNet.ToDstAppend | cmd/ddp/net.go:117-129 | the datagrams for two runs of frames are the datagrams of each, one after the other |
| DdpNet.DdpPacket.constructor | cmd/ddp/net.go:30-35 | a new packet has only the version flag set, offset and length zero, and a zeroed body of the requested size |
| DdpNet.DdpPacket.SetFlags | cmd/ddp/net.go:37-39 | only the flags byte changes, to FlagsByte of f |
| DdpNet.DdpPacket.SetSeqNo | cmd/ddp/net.go:41-43 | only the sequence byte changes, to the low four bits of s |
| DdpNet.DdpPacket.SetID | cmd/ddp/net.go:45-47 | only the id byte changes |
| DdpNet.DdpPacket.SetType | cmd/ddp/net.go:49-51 | only the type byte changes |
| DdpNet.DdpPacket.SetData | cmd/ddp/net.go:53-64 | panics exactly when the offset is outside 0..2^32-1 or the data is longer than 0xffff bytes, and then changes nothing; otherwise stores the offset, the length and the data |
| DdpNet.DdpPacket.Encoding | cmd/ddp/net.go:66-82 | the bytes Write puts on the buffer are ten longer than the body |
| DdpNet.DdpConn.constructor | cmd/ddp/net.go:108-115 | a new connection has sent nothing and numbers its first frame 1 |
| DdpNet.DdpConn.GetSeq | cmd/ddp/net.go:144-151 | returns the current number and advances it by NextSeq, changing nothing else |
| DdpNet.DdpConn.MakeDataFrame | cmd/ddp/net.go:131-142 | the packet built encodes as DataFrame of the offset, chunk and push flag with the current sequence number, which is used up |
| DdpNet.DdpConn.WriteTo | cmd/ddp/net.go:84-86 | the socket accepts a datagram exactly while it has writes left, and then records it |
| DdpNet.DdpConn.SendPacket | cmd/ddp/net.go:117-129 | the packet's encoding is sent to dst exactly when the socket accepts it, and the error is reported otherwise |
| DdpNet.DdpConn.SendFrame | cmd/ddp/net.go:162-165 | one frame is built, using up a sequence number, and sent when the socket accepts it |
| DdpNet.DdpConn.SendNext | cmd/ddp/net.go:154-171 | one round of the loop keeps the sent datagrams equal to those of the frames done so far, and either resumes on the bytes after max or finishes the loop as Run describes |
| DdpNet.DdpConn.SetPixels | cmd/ddp/net.go:153-174 | sends the datagrams of the frames Run describes, reports the error Run reports, and leaves the sequence number where Run leaves it |
| DdpNet.Run | cmd/ddp/net.go:153-174 | every frame the loop sends fits its 32-bit offset and 16-bit length fields |
| DdpNet.RunRefused | cmd/ddp/net.go:163-165 | a refused write ends the loop with an error, and the refused frame has used up its sequence number |
| DdpNet.RunLast | cmd/ddp/net.go:167-169 | an accepted last frame ends the loop without error |
| DdpNet.RunStep | cmd/ddp/net.go:154-171 | an accepted frame that is not the last is followed by the loop on the bytes after it, at the next offset and sequence number |
| DdpNet.RunOutcome | cmd/ddp/net.go:153-174 | SetPixels fails exactly when the socket accepts fewer writes than there are frames, and every frame built, the refused one included, uses up one sequence number |
| DdpNet.RunSendsDataFrames | cmd/ddp/net.go:153-174 | the frames sent are the first frames of DataFrames, in order, as many as the socket accepts |
| DdpNet.DataFramesFit | cmd/ddp/net.go:53-64 | for a buffer ending within 32-bit offsets, no frame makes SetData panic |
| DdpNet.SeqAfterStep | cmd/ddp/net.go:144-151 | one more getSeq call advances the number by NextSeq |
| DdpNet.QueryStatusPacket | lib/go/ddp/ddp_test.go:63-80 | the query packet with status id, offset 0x01020304 and length 0x0506 is written as 42 00 00 FB 01 02 03 04 05 06 |
| DdpNet.MultiPacketExample | lib/go/ddp/ddp_test.go:111-148 | eight bytes through a connection of five bytes per packet go out as two datagrams, the second pushed, numbered 1 and 2 |
| DdpNet.SinglePacketExample | lib/go/ddp/ddp_test.go:82-109 | three bytes through a connection of five bytes per packet go out as one pushed datagram, number 1, at offset 0 |
| DdpNet.ExampleFrames | lib/go/ddp/ddp_test.go:111-148 | the eight bytes are cut into a chunk of five at offset 0 and a pushed chunk of three at offset 5 |
| DdpNet.ExampleFrameBytes | lib/go/ddp/ddp_test.go:111-148 | the two frames' exact bytes, header, offset, length and body |
| Bytes.BigEndian32Decodes | cmd/ddp/net.go:70-72 | the four bytes binary.BigEndian writes for a uint32, read back most significant first, are the value |
| Bytes.BigEndian16Decodes | cmd/ddp/net.go:73-75 | the two bytes binary.BigEndian writes for a uint16, read back most significant first, are the value |
| Bytes.LittleEndian32Decodes | cmd/automap/ddp.cc:115 | a uint32 field as it lies in memory on a little-endian host, read back least significant first, is the value |
| Bytes.LittleEndian16Decodes | cmd/automap/ddp.cc:116 | a uint16 field as it lies in memory on a little-endian host, read back least significant first, is the value |
| Bytes.RgbDecodes | cmd/ddp/commands.go:100-102 | the red, green and blue bytes of a colour below 0x1000000, read back most significant first, are the colour |
| Bytes.PaintAt | cmd/segmenter/main.go:128-131 | writing a pixel's colour changes exactly that pixel's triple, and nothing when the pixel is off the buffer |
| Bytes.PaintTail | cmd/segmenter/main.go:128-131 | writing a pixel never touches the bytes after the last whole triple |
| Bytes.WriteTriple | cmd/ddp/commands.go:100-102 | writing the three colour bytes in place leaves the array as Paint describes |
| DdpCommands.MatchRange | cmd/ddp/commands.go:16 | a match of the pattern yields two non-empty runs of digits |
| DdpCommands.MatchRangeDigits | cmd/ddp/commands.go:16 | every string made of two digit runs around ".." matches, with the two runs as submatches |
| DdpCommands.Upto | cmd/ddp/commands.go:48-52 | the list from, from+1, up to from+n-1 |
| DdpCommands.ParseAllOk | cmd/ddp/commands.go:56-66 | when every part parses, the comma form yields the parts' values in order, repeats kept |
| DdpCommands.ParseAllFirstBad | cmd/ddp/commands.go:58-62 | the comma form reports the first part that does not parse |
| DdpCommands.ParseAllFails | cmd/ddp/commands.go:56-66 | the comma form fails exactly when some part does not parse |
| DdpCommands.AllForm | cmd/ddp/commands.go:20-26 | "all" names every pixel 0 to numPixels-1 once, in order |
| DdpCommands.RangeForm | cmd/ddp/commands.go:28-54 | "a..b" is accepted exactly when a <= b < numPixels and b fits in 32 bits, naming a to b; otherwise the error names the first check that failed (bad from, bad to, order, range) |
| DdpCommands.CommaForm | cmd/ddp/commands.go:56-66 | any other argument is accepted exactly when every comma-separated part parses, and gives the parts' values with no check against numPixels |
| DdpCommands.ExampleSpan | cmd/ddp/commands_test.go:15-18 | "2..4" names 2, 3, 4 |
| DdpCommands.SpanOf | cmd/ddp/commands.go:28-54 | a one-digit range within the pixels names its span |
| DdpCommands.ExampleAll | cmd/ddp/commands_test.go:27-30 | "all" with ten pixels names 0 to 9 |
| DdpCommands.ExampleOne | cmd/ddp/commands_test.go:19-22 | "3" names 3 |
| DdpCommands.ExampleTwo | cmd/ddp/commands_test.go:23-26 | "3,9" names 3 and 9 |
| DdpCommands.ExampleWord | cmd/ddp/commands_test.go:33-34 | "invalid" is rejected as a bad pixel |
| DdpCommands.ExampleTrailingComma | cmd/ddp/commands_test.go:35 | "3," is rejected: its empty last part is a bad pixel |
| DdpCommands.ExampleSecondBad | cmd/ddp/commands_test.go:36 | "4,invalid" is rejected at its second part |
| DdpCommands.ExampleNegative | cmd/ddp/commands_test.go:37 | "-1..4" does not match the range pattern and is rejected as a bad pixel |
| DdpCommands.ExampleReversed | cmd/ddp/commands_test.go:38 | "4..1" is rejected for its order |
| DdpCommands.ExamplePastEnd | cmd/ddp/commands_test.go:39 | "8..15" with ten pixels is rejected as out of range |
| DdpCommands.ExampleBeyond | cmd/ddp/commands_test.go:40 | "15..20" with ten pixels is rejected as out of range |
| DdpCommands.CommaCase | cmd/ddp/commands.go:56 | an argument that is neither "all" nor a range is parsed as its comma-separated parts |
| DdpCommands.OnePart | cmd/ddp/commands.go:56-66 | a word with no '.' and no ',' is a one-part list |
| DdpCommands.TwoParts | cmd/ddp/commands.go:56-66 | two such words joined by a comma are a two-part list |
| DdpCommands.ParsePixelIds | cmd/ddp/commands.go:19-67 | the parser with its loops returns PixelIds: the pixel list or the reason for rejecting it |
| DdpCommands.Dark | cmd/ddp/commands.go:128 | the off buffer holds three bytes per pixel |
| DdpCommands.PaintAll | cmd/ddp/commands.go:99-103 | painting the listed pixels keeps the buffer's length |
| DdpCommands.PaintAllStep | cmd/ddp/commands.go:99-103 | painting one more listed pixel is Paint applied after the earlier ones |
| DdpCommands.PaintAllAt | cmd/ddp/commands.go:99-103 | after painting, a pixel has the colour exactly when it is listed, whatever the order and repeats, and keeps its old bytes otherwise |
| DdpCommands.OnPlanLights | cmd/ddp/commands.go:80-103 | the buffer on sends holds numPixels triples: the colour at each listed pixel and zero everywhere else, and only for a colour within 0xffffff |
| DdpCommands.OnPastTheEnd | cmd/ddp/commands.go:56-103 | "12" with ten pixels gets through the parser (where a range past the end is rejected) and then panics in the buffer loop |
| DdpCommands.OffIsOnBlack | cmd/ddp/commands.go:118-133 | off sends numPixels dark triples, the same buffer as on with colour 0 and "all" |
| DdpCommands.OnExecute | cmd/ddp/commands.go:80-109 | on stops with the usage or failure status its checks give, or sends its buffer through SetPixels and reports SetPixels' error |
| DdpCommands.OnBuffer | cmd/ddp/commands.go:98-103 | the buffer loop panics exactly when a listed pixel lies past the end, and otherwise yields the painted buffer |
| DdpCommands.OffExecute | cmd/ddp/commands.go:118-133 | off rejects any argument as a usage error, and otherwise sends the dark buffer and reports SetPixels' error |
| Lighter.OneLit | cmd/lighter/lighter.go:167-182 | the buffer holds three bytes per pixel |
| Lighter.OneLitAt | cmd/lighter/lighter.go:176-181 | a pixel shows full white (0xff, 0xff, 0xff) when it is the lit one and is dark otherwise |
| Lighter.OneLitOnly | cmd/lighter/lighter.go:176-181 | a pixel is not dark exactly when it is the one named, so at most one pixel is lit |
| Lighter.DdpController.constructor | cmd/lighter/lighter.go:144-169 | a new controller has a dark buffer of three bytes per pixel and no pixel lit yet |
| Lighter.DdpController.OnPixel | cmd/lighter/lighter.go:175-184 | a pixel event panics exactly when the pixel is off the string; otherwise the buffer lights exactly that pixel, it becomes the last one, and the buffer is sent as SetPixels sends it |
| Lighter.DdpController.OnTick | cmd/lighter/lighter.go:185-186 | a tick re-sends the unchanged buffer |
| Lighter.HandleEvent | cmd/lighter/lighter.go:102-130 | the corrected key handling keeps the cursor on the string and the step at least 1 (corrected; see Findings) |
| Lighter.RightPastTheEnd | cmd/lighter/lighter.go:113-114 | as written, Right from pixel 9 of 10 moves the cursor to 10, a pixel off the string |
| Lighter.Wrap64 | cmd/lighter/lighter.go:112-120 | Go's int arithmetic gives a result in the 64-bit range, equal to the exact one whenever that is in range |
| Lighter.PlusesExact | cmd/lighter/lighter.go:119-120 | as written, up to 18 presses of '+' from the starting step 1 give exactly 10 to that power |
| Lighter.NineteenthPlusWraps | cmd/lighter/lighter.go:113-120 | as written, the 19th press of '+' wraps the step to 10^19 - 2^64, a negative number, and Right then moves the cursor to a negative pixel |
| Lighter.ArrowsMoveBySkip | cmd/lighter/lighter.go:111-114 | Left and Right move by exactly the step unless that leaves the string, then stop at its end; other keys leave the pixel alone and only '+' and '-' change the step |
| Lighter.MinusUndoesPlus | cmd/lighter/lighter.go:119-122 | '+' multiplies the step by ten and '-' brings it back |
| Lighter.QuitKeys | cmd/lighter/lighter.go:107-118 | Escape, Ctrl-C and 'q' end the loop, and nothing else does |
| Lighter.SessionInRange | cmd/lighter/lighter.go:92-134 | from a cursor on the string, any run of events leaves it on the string with a step of at least 1 |
| Lighter.HandleUI | cmd/lighter/lighter.go:92-134 | the loop follows the events to the cursor Session describes, stopping at the first quit key, and the controller's buffer always lights the cursor's pixel, or nothing before the first move (corrected; see Findings) |
| AutomapDdp.Packet | cmd/automap/ddp.cc:106-120 | a packet is the ten-byte header followed by the chunk, so it is ten bytes longer than the chunk |
| AutomapDdp.PacketLayout | cmd/automap/ddp.cc:106-120 | the header holds flags 0x40, or 0x41 on the last chunk, the sequence number as an unsigned char, data type 1 and id 1; the offset and the length read back in the host's byte order as the offset modulo 2^32 and the length modulo 2^16; the chunk follows verbatim |
| AutomapDdp.BigEndianHostMatchesNet | cmd/automap/ddp.cc:106-120 | on a big-endian host the packet is byte for byte the frame the Go sender builds for the same chunk |
| AutomapDdp.LittleEndianHostDiffersFromNet | cmd/automap/ddp.cc:115-116 | on a little-endian host the packet for offset 1440 differs from the network-order frame, and a network-order reader takes its offset for another number |
| AutomapDdp.PacketsAppend | cmd/automap/ddp.cc:67-87 | the packets for two runs of chunks, one after the other, are the packets of the first run followed by those of the second |
| AutomapDdp.EmptyBufferSendsNothing | cmd/automap/ddp.cc:67-87 | an empty buffer sends no packet, succeeds and uses no sequence number |
| AutomapDdp.SameCutsAsNet | cmd/automap/ddp.cc:67-87 | a non-empty buffer is cut into the same chunks, with the same offsets, last flags and sequence numbers, as the Go sender cuts it, and the two fail at the same send |
| AutomapDdp.RunCoversBuffer | cmd/automap/ddp.cc:67-87 | when every send succeeds, the chunks sent put back together are the whole buffer |
| AutomapDdp.RunChunkSizes | cmd/automap/ddp.cc:72-74 | every chunk sent holds at least one byte and at most max_chans_per_packet bytes |
| AutomapDdp.RunRefused | cmd/automap/ddp.cc:77-81 | a refused send ends the loop with an error after the chunks already sent, having used one sequence number |
| AutomapDdp.RunStep | cmd/automap/ddp.cc:70-84 | a successful round sends the first chunk of the span, marked last exactly when it empties the span, and the loop goes on from the rest at the next offset and sequence number |
| AutomapDdp.Fill | cmd/automap/ddp.cc:46-55 | the buffer holds three bytes per pixel |
| AutomapDdp.FillAt | cmd/automap/ddp.cc:48-52 | every pixel's three bytes are the colour's red, green and blue |
| AutomapDdp.OneLit | cmd/automap/ddp.cc:57-65 | the buffer holds three bytes per pixel |
| AutomapDdp.OneLitAt | cmd/automap/ddp.cc:58-62 | pixel idx carries the colour's red, green and blue and every other byte is zero |
| AutomapDdp.DdpConn.constructor | cmd/automap/ddp.cc:43 | a new connection has sent nothing and numbers its first packet 1 |
| AutomapDdp.DdpConn.GetSeq | cmd/automap/ddp.cc:132-139 | returns the current sequence number and advances it, wrapping from 15 back to 1; nothing is sent |
| AutomapDdp.DdpConn.MakePacket | cmd/automap/ddp.cc:106-120 | the packet is Packet of the chunk numbered with the sequence number taken, and the sequence number advances |
| AutomapDdp.DdpConn.SendPacket | cmd/automap/ddp.cc:122-130 | succeeds exactly when the socket still accepts a send, and then appends the packet to what was sent; a failed send sends nothing |
| AutomapDdp.DdpConn.SendNext | cmd/automap/ddp.cc:70-84 | one round cuts off up to max_chans_per_packet bytes and sends them; on success the loop state still leads to the same outcome, on failure the outcome is the error |
| AutomapDdp.DdpConn.SetAllChans | cmd/automap/ddp.cc:67-87 | the packets sent are those of Run on the buffer from offset 0, the error is Run's and the sequence number ends where Run leaves it |
| AutomapDdp.DdpConn.SetAllColor | cmd/automap/ddp.cc:46-55 | sends Fill of the colour over all pixels as SetAllChans sends a buffer |
| AutomapDdp.DdpConn.OnlyOne | cmd/automap/ddp.cc:57-65 | sends OneLit of the colour at pixel idx as SetAllChans sends a buffer |
| Segmenter.ParseMode | cmd/segmenter/main.go:171-184 | a recognised mode is the one whose name is the string |
| Segmenter.ParseModeName | cmd/segmenter/main.go:172-180 | NAV, ON, OFF and FIND each parse as their own mode |
| Segmenter.ParseModeOther | cmd/segmenter/main.go:181-182 | any other string parses as the unknown mode |
| Segmenter.StatesFor | cmd/segmenter/main.go:108-123 | the state vector keeps its length |
| Segmenter.UpdateStates | cmd/segmenter/main.go:108-123 | the states array is rewritten in place to StatesFor of the ranges |
| Segmenter.CoveredSnoc | cmd/segmenter/main.go:116-122 | after one more range of the outer loop, a pixel is covered exactly when it was covered before or lies in that range |
| Segmenter.PixelZeroNeverOn | cmd/segmenter/main.go:118 | pixel 0 is never on, whatever the ranges say |
| Segmenter.StatesForAt | cmd/segmenter/main.go:108-123 | a pixel other than 0 inside the vector is on exactly when some range contains it, both ends included |
| Segmenter.ReversedRangeMarksNothing | cmd/segmenter/main.go:117 | a range whose from is past its to turns no pixel on |
| Segmenter.NoRangesAllOff | cmd/segmenter/main.go:112-114 | with no ranges every pixel is off |
| Segmenter.PaintStates | cmd/segmenter/main.go:138-146 | painting the states keeps the buffer's length |
| Segmenter.PaintStatesAt | cmd/segmenter/main.go:138-146 | after the state loop a pixel below minPixel is black, one that is on has the on colour, one that is off has the off colour, and a pixel past the states keeps its bytes |
| Segmenter.PaintStatesTail | cmd/segmenter/main.go:128-136 | the bytes after the last whole triple are never written |
| Segmenter.Overlay | cmd/segmenter/main.go:147-154 | the overlays keep the buffer's length |
| Segmenter.Blinked | cmd/segmenter/main.go:147-149 | when blinking is on, the current pixel shows the blink colour; every other pixel keeps its bytes |
| Segmenter.Chased | cmd/segmenter/main.go:151-154 | the pixels chaseOffset before and after the current one show the chase colour, each only when it is inside the buffer |
| Segmenter.OverlayAt | cmd/segmenter/main.go:147-154 | a chased pixel shows the chase colour, else the blinking current pixel shows the blink colour, else the pixel keeps its bytes |
| Segmenter.OverlayTail | cmd/segmenter/main.go:147-154 | the overlays never write the bytes after the last whole triple |
| Segmenter.PaintKeepsTail | cmd/segmenter/main.go:128-136 | writing one pixel leaves the bytes after the last whole triple alone |
| Segmenter.Render | cmd/segmenter/main.go:125-155 | the rendered buffer keeps its length |
| Segmenter.RenderAt | cmd/segmenter/main.go:125-155 | each pixel shows the chase colour at curPixel plus or minus the offset, else the blink colour at the current pixel, else black below minPixel and the on or off colour by state; a pixel past the states under no overlay keeps its bytes |
| Segmenter.RenderTail | cmd/segmenter/main.go:125-155 | bytes after the last whole triple are never written |
| Segmenter.UpdateShowsStates | cmd/segmenter/main.go:108-155 | after an update, a pixel at or above minPixel under no overlay shows the on colour when a range covers it (pixel 0 aside) and the off colour otherwise |
| Segmenter.UpdateDdp | cmd/segmenter/main.go:125-155 | the buffer is rewritten in place to Render of its old contents |
| Segmenter.SetOverlays | cmd/segmenter/main.go:147-154 | the blink and chase writes leave the buffer as Overlay of its old contents |
| Segmenter.Chase | cmd/segmenter/main.go:151-154 | the two chase writes paint the pixels before and after the current one, dropping those off the buffer |
| Segmenter.Set | cmd/segmenter/main.go:128-136 | one pixel's three bytes become the colour when the pixel number is inside the buffer; otherwise nothing changes |
| Segmenter.ChaseCountsDown | cmd/segmenter/main.go:192-198 | from offset o the chaser reaches 0 after o steps and wraps to twice its size on the next |
| Segmenter.ChaseStepsAdd | cmd/segmenter/main.go:192-198 | m steps then n steps are m + n steps |
| Segmenter.ChasePeriod | cmd/segmenter/main.go:192-198 | any offset between 0 and twice the size comes back after 2·Size + 1 steps |
| Segmenter.ChaseBack | cmd/segmenter/main.go:192-198 | while it stays non-negative, each step only decrements the offset |
| Segmenter.Chaser.constructor | cmd/segmenter/main.go:230 | a new chaser has its size, offset 0 and the unknown mode |
| Segmenter.Chaser.Inc | cmd/segmenter/main.go:192-198 | the offset takes one chase step and stays between 0 and twice the size; the mode is unchanged |
| Segmenter.Chaser.SetMode | cmd/segmenter/main.go:200-202 | sets the mode and leaves the offset alone |
| Segmenter.Chaser.CurOffset | cmd/segmenter/main.go:204-209 | in find mode the result is half the offset, rounded down, and never above the size; in every other mode it is 0 |
| Segmenter.BlinkPattern | cmd/segmenter/main.go:215-221 | from state 0 the blinker shows on, on, off, off and is back at 0 after four steps |
| Segmenter.BlinkPeriod | cmd/segmenter/main.go:215-217 | every state below 4 comes back after four steps |
| Segmenter.Blinker.constructor | cmd/segmenter/main.go:231 | a new blinker starts in state 0 |
| Segmenter.Blinker.Inc | cmd/segmenter/main.go:215-217 | the state advances by one modulo 4 |
| Segmenter.Blinker.CurState | cmd/segmenter/main.go:219-221 | on exactly in states 0 and 1 |
| Segmenter.DdpState.constructor | cmd/segmenter/main.go:99-106 | a new state holds the connection, the address, the pixel count and a zero buffer of three bytes per pixel |
| Segmenter.Controller.constructor | cmd/segmenter/main.go:223-233 | the buffer is zero for maxPixel + 1 pixels, every state is off, the current pixel is 0, the chaser has size 5 and offset 0 and the blinker state 0 |
| Segmenter.Controller.OnUpdate | cmd/segmenter/main.go:242-247 | an update sets the current pixel and the chaser's mode, recomputes the states from the ranges and renders the buffer; the animation is untouched |
| Segmenter.Controller.OnAnimTick | cmd/segmenter/main.go:249-254 | the chaser and the blinker each take one step and the buffer is rendered again |
| Segmenter.Controller.OnDdpTick | cmd/segmenter/main.go:256-257 | the buffer is sent as SetPixels sends it, whatever the outcome |
| RangeEditor.NeighboursSuffice | cmd/segmenter/docroot/script.js:33-105 | the gap between neighbouring ranges, which insert and remove rely on, gives the gap between any two ranges |
| RangeEditor.NeighboursChain | cmd/segmenter/docroot/script.js:33-105 | in a list whose neighbours are apart, every earlier range ends at least two below where any later one starts |
| RangeEditor.CoveredConcat | cmd/segmenter/docroot/script.js:21-31 | a pixel is on in two lists joined exactly when it is on in one of them |
| RangeEditor.CoveredBounds | cmd/segmenter/docroot/script.js:21-31 | in a well-formed list every lit pixel lies between the first range's from and the last range's to |
| RangeEditor.WellFormedConcat | cmd/segmenter/docroot/script.js:33-105 | two well-formed lists with a gap at the seam join into a well-formed list |
| RangeEditor.WellFormedSlice | cmd/segmenter/docroot/script.js:33-105 | any slice of a well-formed list is well-formed |
| RangeEditor.Splice | cmd/segmenter/docroot/script.js:50-102 | replacing a slice of ranges by ones that fit between its neighbours keeps the list well-formed, and a pixel is then on exactly when it is on before the slice, in the new ranges or after the slice |
| RangeEditor.SpliceWellFormed | cmd/segmenter/docroot/script.js:50-102 | replacing a slice of ranges by ones that fit between its neighbours keeps the list well-formed |
| RangeEditor.CoveredThree | cmd/segmenter/docroot/script.js:21-31 | a pixel is on in three lists joined exactly when it is on in one of them |
| RangeEditor.SliceBounds | cmd/segmenter/docroot/script.js:33-105 | the lit pixels of the ranges before index lo are at most rs[lo-1].to and those from index hi are at least rs[hi].from |
| RangeEditor.Locate | cmd/segmenter/docroot/script.js:22-29 | where the scan stops, at the first range that does not end before num, num is on exactly when that range starts at or before it |
| RangeEditor.PastTheEnd | cmd/segmenter/docroot/script.js:68-75 | when every range ends before num, num is off |
| RangeEditor.CoveredOne | cmd/segmenter/docroot/script.js:1-6 | a list of one range lights exactly the pixels from its from to its to |
| RangeEditor.Replace | cmd/segmenter/docroot/script.js:53-96 | changing one range in place to one that still fits between its neighbours keeps the list well-formed and changes only that range's pixels |
| RangeEditor.InsertJoin | cmd/segmenter/docroot/script.js:45-51 | when num closes the one-pixel gap between two ranges they merge into one, and the set gains exactly num |
| RangeEditor.InsertExtendPrev | cmd/segmenter/docroot/script.js:52-55 | when num is just above the previous range and not just below the next, the previous range grows by num, and the set gains exactly num |
| RangeEditor.InsertExtendNext | cmd/segmenter/docroot/script.js:59-62 | when num is just below the range and not just above the previous one, the range starts at num, and the set gains exactly num |
| RangeEditor.InsertAlone | cmd/segmenter/docroot/script.js:64-75 | when num touches neither neighbour a one-pixel range goes between them, and the set gains exactly num |
| RangeEditor.RemoveSingle | cmd/segmenter/docroot/script.js:89-92 | removing the only pixel of a range drops the range, and the set loses exactly num |
| RangeEditor.RemoveFirst | cmd/segmenter/docroot/script.js:88-94 | removing the first pixel of a longer range makes it start one later, and the set loses exactly num |
| RangeEditor.RemoveLast | cmd/segmenter/docroot/script.js:95-97 | removing the last pixel of a longer range makes it end one earlier, and the set loses exactly num |
| RangeEditor.RemoveSplit | cmd/segmenter/docroot/script.js:100-103 | removing a pixel inside a range splits it into the parts below and above, and the set loses exactly num |
| RangeEditor.Canonical | cmd/segmenter/docroot/script.js:33-105 | two well-formed lists that light the same pixels are equal, so insert and remove each have exactly one possible result |
| RangeEditor.CoveredFirst | cmd/segmenter/docroot/script.js:21-31 | in a well-formed list no lit pixel lies below the first range |
| RangeEditor.Rest | cmd/segmenter/docroot/script.js:21-31 | the pixels lit by the ranges after the first are those lit by the list and above the first range's to |
| RangeEditor.RunEnd | cmd/segmenter/docroot/script.js:33-105 | two well-formed lists with the same pixels and the same first start end their first ranges together |
| RangeEditor.ToString | cmd/segmenter/docroot/script.js:107-121 | the text is "empty" exactly when there are no ranges |
| RangeEditor.TextsNotEmpty | cmd/segmenter/docroot/script.js:112-120 | the joined text of a non-empty list is never "empty" |
| RangeEditor.ToStringPieces | cmd/segmenter/docroot/script.js:112-120 | split at the commas, the text of a non-empty list gives back each range's text in order, "a" or "a-b", after a space for every range but the first |
| RangeEditor.Ranges.constructor | cmd/segmenter/docroot/script.js:9-11 | a new list is empty |
| RangeEditor.Ranges.Get | cmd/segmenter/docroot/script.js:21-31 | the result is undefined exactly when every range ends before num, and it is truthy exactly when num is on |
| RangeEditor.Ranges.Insert | cmd/segmenter/docroot/script.js:33-76 | the list stays well-formed and its set becomes the old set plus num; a num already on leaves the list as it was |
| RangeEditor.Ranges.InsertAt | cmd/segmenter/docroot/script.js:35-65 | once the scan reaches the first range not ending before num, the set becomes the old set plus num and the list stays well-formed |
| RangeEditor.Ranges.InsertPastEnd | cmd/segmenter/docroot/script.js:68-75 | when every range ends before num, the last range is extended or a new range appended, so that the set gains exactly num |
| RangeEditor.Ranges.Remove | cmd/segmenter/docroot/script.js:78-105 | the list stays well-formed and its set becomes the old set without num; a num that is off leaves the list as it was |
| RangeEditor.Ranges.Set | cmd/segmenter/docroot/script.js:13-19 | a true state inserts num and a false one removes it |
| RangeEditor.ExampleThree | cmd/segmenter/docroot/script.js:134 | inserting 3 into an empty list gives the list 3-3 |
| RangeEditor.ExampleOneThree | cmd/segmenter/docroot/script.js:136 | inserting 1 after 3 gives the lists 1-1 and 3-3 |
| RangeEditor.ExampleOneToThree | cmd/segmenter/docroot/script.js:137 | inserting 3, 1 and then 2 gives the single range 1-3 |
| RangeEditor.ExampleRemoveOnly | cmd/segmenter/docroot/script.js:163 | removing 3 from the list 3-3 leaves no range |
| RangeEditor.ExampleRemoveInside | cmd/segmenter/docroot/script.js:166 | removing 4 from 3-5 leaves the ranges 3-3 and 5-5 |
| RangeEditor.ExampleRemoveMiddle | cmd/segmenter/docroot/script.js:167-168 | removing 5 from 3-3, 5-5 and 7-7 leaves 3-3 and 7-7 |
| RangeEditor.NextMode | cmd/segmenter/docroot/script.js:250-257 | the mode after a click is one more, and past MODE_MAX it is NAV again |
| RangeEditor.ModeCycle | cmd/segmenter/docroot/script.js:250-257 | three clicks bring every mode back and each click changes the mode |
| RangeEditor.MovesStayInside | cmd/segmenter/docroot/script.js:213-245 | the cursor stays between minLight and maxLight, and moves in the right direction by at most n |
| RangeEditor.UpDown | cmd/segmenter/docroot/script.js:213-245 | moving up then down by the same step from well inside returns to the start |
| RangeEditor.Editor.constructor | cmd/segmenter/docroot/script.js:321-322 | the page starts with no lit pixel, the cursor at minLight and NAV mode |
| RangeEditor.Editor.UpClicked | cmd/segmenter/docroot/script.js:213-228 | the cursor moves up by n, capped at maxLight; unless it was already at maxLight or the mode is NAV, the pixel it leaves is recorded on in ON mode and off in OFF mode |
| RangeEditor.Editor.DownClicked | cmd/segmenter/docroot/script.js:230-245 | the cursor moves down by n, capped at minLight; unless it was already at minLight or the mode is NAV, the pixel it leaves is recorded on in ON mode and off in OFF mode |
| RangeEditor.Editor.ActionClicked | cmd/segmenter/docroot/script.js:250-257 | the mode advances to NextMode and the cursor stays |
| RangeEditor.Editor.KeyDown | cmd/segmenter/docroot/script.js:202-211 | the right arrow moves up one, the left arrow down one, space switches the mode, and any other key changes nothing |
| Text.NatToStringValue | lib/file/coords.cc:21 | the decimal text of a natural number reads back as that number |
| Text.ZeroPad3Digits | lib/file/coords.cc:21 | the %03d text of a natural number is at least three digits long and reads back as that number |
| Text.FirstIndex | cmd/automap/net.cc:14 | the index is that of the first occurrence of the character, or the length when there is none |
| Text.Split | lib/file/readers.cc:56 | splitting gives at least one part and no part holds the separator |
| Text.SplitMax | lib/file/coords.cc:42 | splitting with at most n splits gives between 1 and n + 1 parts, and only the last may hold the separator |
| Text.JoinSplit | lib/file/readers.cc:56 | joining the parts of a split with the separator gives back the string |
| Text.SplitJoin | lib/file/xlights.cc:37 | splitting a join of parts that do not hold the separator gives back the parts |
| Text.SplitMaxOneAbsent | cmd/automap/net.cc:14 | a string without the separator splits into itself alone |
| Text.SplitMaxOneJoin | cmd/automap/net.cc:14 | one split of a, separator, b gives a and b when a does not hold the separator |
| Text.ParseUint32 | cmd/ddp/commands.go:59 | a parsed value is below 2^32 and comes from a non-empty string of digits only |
| Text.ParseUint32Format | cmd/ddp/commands.go:59 | the decimal text of any value below 2^32 parses as that value |
| Text.SimpleAtoi | lib/file/coords.cc:47-48 | a parsed value lies within the bounds of the target type |
| Text.AtoiIntToString | lib/file/coords.cc:47-48 | an int printed in decimal reads back as itself, and its text holds neither a comma nor a space |
| Text.AtoiDigits | lib/file/readers.cc:16 | a non-empty numeral of digits within range reads as its value |
| Text.AtoiUIntZeroPad3 | lib/file/coords.cc:21-28 | a non-negative number printed with %03d reads back as itself as an unsigned int, and its text holds no space |

## Left out

- Sockets and name resolution: DDPConn::Create (getaddrinfo, socket), net.ListenPacket and the verbose printf of sendPacket. A connection is instead a list of datagrams sent so far plus a count of further sends the socket accepts. That covers every outcome of one SetPixels or SetAll call, because both stop at the first failed send. Which send fails is not modelled beyond that count.
- DdpNet.DdpConn.SetPixels: the ensures does not state how much of the send budget is left afterwards. That count stands in for the socket and is not part of the source's state.
- AutomapDdp.DdpConn.SetAllChans: the ensures does not state how much of the send budget is left afterwards, for the same reason.
- The packet setters' panics: SetData in cmd/ddp/net.go panics on an offset of 2^32 or more or a body of 2^16 bytes or more. The callers never reach those cases, so the model requires them not to happen instead of modelling the panic. The same holds for SetPixels on a buffer longer than 2^32 bytes.
- Concurrency and timers: the goroutines, channels, tickers and `select` loops of the segmenter's ControlPixels and of lighter's DDPController. Each event handler body is a method, and the loop that picks the next event is not modelled.
- flashCommand in cmd/ddp/commands.go: its sleep loop is driven by a timer.
- newTopStateFromTopFlags, flag parsing and every `main` function. The on and off commands receive a ready connection and the pixel count.
- The segmenter's HTTP handlers, JSON decoding, templates, readSeed and FileSaver, and the DOM and XMLHttpRequest parts of the browser page. The page's updateStatus and sendToServer only display or send the state that the model keeps.
- The segmenter's colours come from command-line flags, so they are parameters of the model.
- Rendering and drawing: the Render* functions, text blocks and fonts of showfound's ui.cc and view.cc, KeyboardEvent (waitKey), camera_images.cc, and the tcell terminal drawing (drawText) in lighter. Key and mouse events reach the model as parameters.
- Logging everywhere, including the warnings the detectors and readers print.
- Floating-point geometry: the xLights bounding box, rotation and scaling-factor search (lib/file/xlights.cc:51-70 and 103-126). The collision model instead takes each pixel's integer cell.
- World coordinates in the coords reader are read by a parameter `atod`, which stands for absl::SimpleAtod.
- File I/O: WriteXLightsModel, the proto, PCD and writer libraries, and pixel_writer.cc. A file is given to the readers as its lines, or as None when it cannot be opened. An I/O error while reading (lib/file/readers.cc:45-47) is not modelled.
- The ArgCommandBase bodies are not part of this model. The PREFER and EXCLUSIVE argument rules and ClickCommand's evaluation follow the comments in cmd/showfound/view_command.h and the expectations in view_command_test.cc.
- Command::Execute calls `func_`, which the class does not declare (cmd/showfound/view_command.cc:103). The model calls the command's CallFunc, which the source evidently means.
- IsValidCameraNum is declared in model.h but not defined in model.cc. The model takes it as 1 to the number of cameras.
- Selection.WalkAsWritten: the as-written search can loop forever, so it takes a fuel bound. The model shows non-termination as the fuel running out on every bound (Selection.AsWrittenNeverEnds), not as a divergent run.
- Segmenter.StatesFor: pixel 0 is never turned on (cmd/segmenter/main.go:118). The model keeps that behaviour as written and states it (Segmenter.PixelZeroNeverOn). Nothing in the repository says whether pixel 0 is meant to be reachable, so no corrected version is modelled.
- DdpCommands.OnPlan: the comma form of the pixel list is not checked against the pixel count, and the buffer loop then indexes past the end. The model keeps that panic as written and exhibits it (DdpCommands.OnPastTheEnd).
- The StreamReader of cmd/automap and the remaining automap and calc tools are not part of this model.
- Lighter.HandleEvent: the corrected key handling keeps the step as an unbounded integer. Go's int has 64 bits, and the 19th '+' wraps the step to a negative number (Lighter.NineteenthPlusWraps). A 64-bit fix would also have to stop '+' before the overflow, and the model does not pick one.
- Lighter.MinusUndoesPlus: holds for the unbounded step only. In 64 bits, from the 19th '+' on the step has wrapped, and '-' then gives back 1, not the step before.
- Lighter.SessionInRange: the cursor and the step stay in range only because the step is unbounded. As written, in 64 bits, 19 presses of '+' and then Right leave the string.
- Lighter.HandleUI: the loop uses HandleEvent, and so keeps its unbounded step.
- ViewCommand.CommandBuffer.AddKey: the prefix is an unbounded integer. The source's prefix is an `int`, and past 2^31 - 1 the multiplication overflows, which C++ leaves undefined. ViewCommand.TypeDigits and ViewCommand.ShowTyped are therefore stated only for values up to 2^31 - 1.

## Findings

| source | as written | input that shows it | evidently intended | confidence | as-written member | corrected member |
|---|---|---|---|---|---|---|
| cmd/automap/net.cc:14 | ParseHostPort splits host and port at ',' | "foo:1234" gives ("foo:1234", default port), not ("foo", 1234) as net_test.cc:21 expects | split at ':' as the tests and the host[:port] usage say | not executed | HostPort.AsWrittenIgnoresColon | HostPort.RoundTrip |
| cmd/lighter/lighter.go:113-114 | Right moves to min(numPixels, num + skip) | on 10 pixels, Right from pixel 9 moves to 10 and the buffer write for pixel 10 is past the end | the cursor stops at numPixels - 1 | not executed | Lighter.RightPastTheEnd | Lighter.HandleEvent |
| cmd/showfound/ui.cc:47-55 | after wrapping `cur` to the other end, `continue` still adds `dir`, so the end pixel is never examined | pixels 0..9, only pixel 0 a candidate, searching up from 5: pixel 0 is skipped and the search comes back to 5; with the start at the end pixel and no candidate the loop never ends | the wrap lands on the end pixel and examines it | not executed | Selection.AsWrittenSkipsWrapTarget | Selection.CorrectedEnds |
| cmd/showfound/controller.cc:120-129 | NextPixel maps a result equal to the minimum to the maximum and one equal to the maximum to the minimum | pixels 0..9, focus 8, forward: 9 is turned into 0, so pixel 9 is never reached going forward | wrap only past either end of the range | not executed | Controller.AsWrittenSkipsMax | Controller.PixelController.NextPixel |
| cmd/showfound/controller.cc:63 | SetCamera gives every view pixel a world position read from the model pixel's optional world without checking it | a pixel seen by camera 1 with no world position gets one | a world position only when the model pixel has one | not executed | Controller.AsWrittenInventsWorld | Controller.ViewPixelVisible |
| lib/file/coords.cc:73-112 | the pixel-number check is `!SimpleAtoi(field, &n) && n > 65536` | "x" passes as pixel 0 (the unset value), and "70000" passes although it is over 65536 | refuse a field that is not a number in 0..65536 | not executed | Coords.AsWrittenAcceptsBadPixel | Coords.PixelNumber |
| lib/file/merged_coords.cc:34-38 | ParseCoord reads parts[1] without checking that the split gave two parts | "5" (no ',') reads whatever lies past the vector as y | a field without ',' is invalid | not executed | MergedCoords.ParseCoordAsWrittenMissingComma | Coords.ParseXYCoordRoundTrip |
| cmd/showfound/ui.cc:57 | SelectNextCalculatedPixel reads `pixels_[cur]` for every number it passes, and operator[] inserts a value-initialised state for a number that has no pixel | pixel 0 selected and pixel 2 the only candidate, searching up: number 1 is looked up and gains a state (number 0, no valid knowledge) that Render then draws | pass over numbers that have no pixel without reading them | not executed | PixelUi.AsWrittenInsertsGap | PixelUi.PixelUI.SelectNextCalculatedPixel |
| cmd/showfound/view.cc:64 | SelectNextCalculatedPixel dereferences `FindPixel(cur)` for every unselected number it passes, and FindPixel gives null for a number that has no pixel | pixel 0 selected and pixel 2 the only candidate, searching up: FindPixel(1) is null and is dereferenced | pass over numbers that have no pixel without reading them | not executed | PixelView.AsWrittenDereferencesGap | PixelView.PixelView.SelectNextCalculatedPixel |
| lib/file/merged_coords.cc:58-62 | the pixel-number check is `!SimpleAtoi(parts[0], &pixel_num) && pixel_num > 65536`, the same inverted test as in coords.cc | "x 1,2 3,4" is read as pixel 0, and "70000 1,2 3,4" as pixel 70000 | refuse a pixel field that is not a number in 0..65536 | not executed | MergedCoords.MergedLineAsWrittenAcceptsBadPixel | MergedCoords.ParseMergedLine |
| cmd/lighter/lighter.go:119-120 | '+' does `skip *= 10` on Go's 64-bit int with no bound | 19 presses of '+' from the start make the step 10^19 - 2^64, which is negative; Right then moves the cursor to a negative pixel, and the buffer loop at lighter.go:177 panics | the step stays at least 1 | not executed | Lighter.NineteenthPlusWraps | Lighter.SessionInRange |
