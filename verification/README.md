# Verification of the CERF launcher, tooling and demo compositor

This project models the parts of CERF whose correctness is not visible from reading
one function, and proves what they promise for every input or every run:

- **Antialiasing** (`Antialias`, `ShapeRegions`, `RoundedStyle`): `coverage` answers
  from the centre distance when that is certain and takes 16 samples otherwise. The
  short cut is proved exact for every shape the constructors build, at every depth of
  nesting, and the threshold is proved sound exactly when it reaches the corner samples'
  distance. Each shape is proved to be its region, and each pixel the count of its
  samples there.
- **The bokeh compositor** (`BokehDesktop`, `BokehLaws`): the C loops in 32-bit
  arithmetic, proved to draw, in every pixel, the sum of all discs' light cut off at
  255, for every tick and window size, in whatever order the discs come.
- **Icon files** (`PackedPixels`, `IcoFormat`, `IcoBytes`): sub-byte packing, mask bits
  and the directory, proved against decoders that see only the finished bytes.
- **Sequence algorithms** (`FsRead`, `ChangelogCard`): greedy chunking is lossless and
  optimal; the two-column split is the best admissible one.
- **Layered configuration** (`CerfJsonMerge`, `BundleRepositories`, `CerfUserJson`,
  `PersistedOptions`): the two merges, the repository migration, and the four writers of
  cerf-user.json, each proved to be one patch.
- **Devices** (`LocalManifest`, `ManifestNormalForm`, `Folders`, `StashArea`,
  `DeviceStore`, `DeviceInputs`, `DeviceInstall`, `InstallWitnesses`, `DeviceRuns`,
  `RefreshWitness`, `DeviceList`, `BundleManager`): the manifest's round trip, what an
  install keeps and replaces, when it raises half way, and what every run of operations
  keeps. The directory packages are moved through is modelled as a tree with the moves
  of `shutil.move`.
- **The device card list** (`CardRows`, `DeviceCardList`, `CanvasLaws`): rows and cards
  edited in place always show what a list built from nothing would.

`Options`, `OrderedDict`, `Json`, `SafeNames` and `StableSort` hold the notions the
others share. Classes and methods with loops stand where the source updates state in
place; each is proved equal to a function or relation, and the theorems are about that.

Real numbers stand for floats, so nothing is said about rounding of the floating-point
unit. `math.hypot` is any function whose value is non-negative and whose square is the
sum of the two squares.

Where the code does less than one would expect, the exact condition is proved:

- `fs_stat` predicts the number of `fs_read` calls exactly when the default budget is
  not negative or the file has at most one line (`PredictionIsExact`).
- A cleared text option does not override a text of the base layer
  (`ClearedTextDoesNotOverride`, `EffectiveAfterPersist`).
- An update brings every recorded package back as it was exactly when no stash path
  leads to or through another's and each can be reached (`IntactExactly`). Where a later
  path leads on to an earlier one's, a package comes back in a directory that holds it
  (`StashableComeBack`, `CardFileIsWrapped`). The moves raise, after the device has begun
  to be replaced, exactly when some package is not accepted where it goes
  (`RaisesUnlessStashable`, `StashRaises`); a file of a category with a separator is not,
  unless another package makes its directory (`SymbolFileRaises`). Plain categories rule
  all of this out (`PlainPackagesSurvive`).
- Apart from that, an install raises half way exactly when a directory will stand where a
  configuration file goes, or the user file to be edited is not the device's own and not
  UTF-8. The condition is one on the device's directory, its record and the archive
  (`Raises` in `StopsExactly`, `InstallOutcome`). A device whose own files are not UTF-8
  is not touched (`BinaryUserFileRefused`).
- A refresh raises on such a device if its record lacks a hash. It can then leave the
  manifest behind the records in memory exactly when some other device without a hash is
  linked to a bundle with one (`CutOffFallsBehind`, `RefreshLeavesManifestBehind`).
- `render` stays within bytes for all shapes the constructors build and all colours
  exactly when the outline width is not negative (`SafeWidths`).
- A row of the changelog card can be too wide by text glued to a word without a space
  (`GluedTextOverflows`, `FitsUpToLastSpace`).
- A second migration changes nothing exactly under a condition on the two repository
  lists (`SettlesAtOnce` in `MergeSettles`, `MigrationSettles`).
- The card list has distinct row keys exactly when no two devices shown share a name
  (`KeysDifferExactly`).
- `list_devices` loses a row exactly when two bundles no device is linked to have the
  same repository and name (`ListKeepsEveryRow`).
- A second save writes the identical manifest exactly when no record has an empty hash
  and no package an empty key or hash (`SecondSave`).

## Model

| member | source | states |
|---|---|---|
| Antialias.CauchySchwarz | launcher/antialias.py:17-29 | the inner product of two vectors is at most the product of their lengths, with hypot given by its specification only |
| Antialias.Triangle | launcher/antialias.py:17-29 | hypot obeys the triangle inequality |
| Antialias.FootIsNearest | launcher/antialias.py:54-63 | the clamped projection is the nearest point of the segment |
| Antialias.UnitNormal | launcher/antialias.py:66-79 | the edge normals of a polygon have length one |
| Antialias.Slope | launcher/antialias.py:32-99 | no shape, whatever it is built from, changes faster than the distance walked |
| Antialias.Coverage | launcher/antialias.py:17-29 | the nested sampling loops with their two early exits compute the fast form |
| Antialias.SampleNearCentre | launcher/antialias.py:17-29 | no sample is farther from the pixel centre than the corner samples |
| Antialias.CornerSampleDistance | launcher/antialias.py:10-29 | the threshold 0.75 is beyond the corner samples' distance |
| Antialias.ShortCutIsExact | launcher/antialias.py:17-29 | the early exits answer what the 16 skipped samples would |
| Antialias.SmallerThresholdFails | launcher/antialias.py:17-29 | for any smaller threshold a disc shows a wrong answer |
| Antialias.ThresholdIsSound | launcher/antialias.py:17-29 | the short cut is exact for all shapes and pixels if and only if the threshold reaches the corner samples |
| Antialias.CoverageIsExact | launcher/antialias.py:17-29 | the shipped coverage equals full supersampling for every shape |
| Antialias.CoverageMonotone | launcher/antialias.py:102-121 | a lower distance function never has more coverage, early exits included |
| Antialias.Render | launcher/antialias.py:102-123 | the row loops produce the mixed pixel in every place |
| Antialias.WeightedMean | launcher/antialias.py:102-121 | mixing by coverage stays between the two colours and is the fill where the body fills the shape |
| Antialias.RenderedPixelInRange | launcher/antialias.py:102-123 | where the body covers no more than the shape, every channel is between the colours mixed; alpha is always a byte, and a pixel is transparent exactly when the shape misses it |
| Antialias.OutlineWithinShape | launcher/antialias.py:102-121 | an outline of non-negative width never makes the body cover more than the shape |
| Antialias.MixesToBytes | launcher/antialias.py:115-120 | all byte colours mix to bytes if and only if the body covers no more than the shape |
| Antialias.SafeWidths | launcher/antialias.py:102-121 | every rendered channel is a byte for all shapes the constructors build, all colours and pixels, if and only if the outline width is not negative |
| ShapeRegions.CoversIs | launcher/antialias.py:32-99 | what each shape is: a circle and a ring by the squared distance to the centre, a segment by a point of it within half the stroke, a box by its four bounds, a rounded box by the inner box grown within the radius, a polygon by the side of every edge, a union by some part, each also drawn in by any width |
| ShapeRegions.RoundedBoxIsNear | launcher/antialias.py:32-39 | a rounded box is the points within the radius of the box inside it |
| ShapeRegions.SidesAddUp | launcher/antialias.py:66-79 | round a polygon the signed sides of any point add up to twice its area |
| ShapeRegions.PolygonHoldsItsPoints | launcher/antialias.py:66-79 | a convex polygon holds its points, whichever way round they are given |
| ShapeRegions.CoverageCounts | launcher/antialias.py:17-29 | coverage is the number of the sixteen quarter-pixel middles that lie in the region, out of sixteen |
| ShapeRegions.BodyCounts | launcher/antialias.py:102-112 | the same for the body, which is the shape drawn in by the outline's width |
| ShapeRegions.PixelIs | launcher/antialias.py:102-121 | with n samples in the shape and m in its body a pixel is edge and fill colour mixed n - m to m and has alpha 255 n / 16, each rounded to the nearest; with none it is transparent |
| RoundedStyle.InnerBoxIsInset | launcher/rounded_style.py:30-45 | the inner rounded box is the outer one less one pixel |
| RoundedStyle.BodyWithinShape | launcher/rounded_style.py:30-45 | body coverage never exceeds shape coverage |
| RoundedStyle.CornerTile | launcher/rounded_style.py:30-45 | the loops build the tile of three-way mixed pixels |
| RoundedStyle.FrameColoursAreBytes | launcher/rounded_style.py:22-45 | the mixing weights never take a channel out of 0..255 |
| RoundedStyle.FramePixelIs | launcher/rounded_style.py:22-45 | with n samples in the outer box and m in the inner one a pixel mixes surroundings, border and fill 16 - n to n - m to m, rounded to the nearest |
| RoundedStyle.BoxesSurviveStretch | launcher/rounded_style.py:48-54 | repeating the middle row or column does not change a box's distance anywhere in the pixel |
| RoundedStyle.CoverageDependsOnSamples | launcher/antialias.py:17-29 | shapes that agree on centre and samples have the same coverage |
| RoundedStyle.StretchedTileIsDirectFrame | launcher/rounded_style.py:48-68 | a stretched corner tile is the frame drawn directly at full size |
| RoundedStyle.RenderFrame | launcher/rounded_style.py:57-68 | the rendering loops give that frame |
| BokehDesktop.DiscRanges | ce_apps/cerf_demo/desktop.c:81-98 | radius, centre and travel stay in range for every tick and size: the centre row is within [1-R, height+R] |
| BokehDesktop.LightRange | ce_apps/cerf_demo/desktop.c:99-117 | falloff is in 0..256 and each channel's light in 0..255 |
| BokehDesktop.DarkOutsideBox | ce_apps/cerf_demo/desktop.c:92-105 | a disc lights no pixel outside its clipped square |
| BokehDesktop.DarkAboveTop | ce_apps/cerf_demo/desktop.c:81-98 | a disc at the upper end of its path is dark |
| BokehDesktop.TravelStep | ce_apps/cerf_demo/desktop.c:81-91 | one step of a disc's own clock moves it up one row or wraps it |
| BokehDesktop.TravelWithinStep | ce_apps/cerf_demo/desktop.c:81-91 | within one step of its clock a disc stands, moves up one row, or wraps |
| BokehDesktop.WrapIsInvisible | ce_apps/cerf_demo/desktop.c:81-98 | a disc that wraps between two frames at most one step of its clock apart lights no pixel in either |
| BokehDesktop.ShiftsAreDivisions | ce_apps/cerf_demo/desktop.c:105-115 | the shifts and masks on packed pixels are the divisions used here |
| BokehDesktop.SaturatingSum | ce_apps/cerf_demo/desktop.c:105-115 | cutting off after each disc is cutting off the sum once |
| BokehDesktop.TotalLightOfPermutation | ce_apps/cerf_demo/desktop.c:79-118 | the sum of light does not depend on the order of the discs |
| BokehDesktop.OrderIsIrrelevant | ce_apps/cerf_demo/desktop.c:79-118 | any permutation of the discs gives the same frame |
| BokehDesktop.Compositor.constructor | ce_apps/cerf_demo/desktop.c:11-27 | the globals at program start: the seed, and no buffer |
| BokehDesktop.Compositor.Lcg | ce_apps/cerf_demo/desktop.c:27-31 | one step of the generator with 32-bit wrap-around |
| BokehDesktop.Compositor.InitDiscs | ce_apps/cerf_demo/desktop.c:32-41 | every disc is drawn from its five generator values and is in range |
| BokehDesktop.Compositor.EnsureFx | ce_apps/cerf_demo/desktop.c:43-60 | from the start of the program on: the buffer has the clamped size afterwards, and one of that size is kept |
| BokehDesktop.Compositor.Place | ce_apps/cerf_demo/desktop.c:81-98 | place, size and brightness in 32-bit arithmetic are the exact ones |
| BokehDesktop.Compositor.FalloffAt | ce_apps/cerf_demo/desktop.c:99-106 | squared distance and falloff in 32-bit arithmetic are the exact ones |
| BokehDesktop.Compositor.Blend | ce_apps/cerf_demo/desktop.c:105-115 | one pixel becomes the clipped sum, packed again |
| BokehDesktop.Compositor.AddDisc | ce_apps/cerf_demo/desktop.c:79-117 | one disc's clipped loops change every pixel as a scan of the whole buffer would |
| BokehDesktop.Compositor.PresentBg | ce_apps/cerf_demo/desktop.c:62-118 | each channel of each pixel is min(255, sum of all discs' light), with all indices in range and no overflow |
| BokehLaws.PlaceIs | ce_apps/cerf_demo/desktop.c:81-88 | a disc's radius and column are its fractions of height and width rounded down, and its centre has travelled up from below the bottom edge by its clock's steps, modulo the way to above the top edge |
| BokehLaws.GlowIs | ce_apps/cerf_demo/desktop.c:89-90 | the glow is full from the bottom edge down, zero from the top edge up, and in proportion to the height between |
| BokehLaws.LightIs | ce_apps/cerf_demo/desktop.c:91-113 | what a disc adds: its colour times glow, fade-in and falloff, each product in 256ths rounded down; the falloff is full at the centre and zero from the rim on |
| BokehLaws.SoftMonotone | ce_apps/cerf_demo/desktop.c:105-106 | the falloff does not grow with the distance nor shrink with the brightness |
| BokehLaws.FadeIs | ce_apps/cerf_demo/desktop.c:75-77 | in the first five seconds the fade-in is the part of them elapsed, in 256ths rounded down; after them, or for a negative difference, it is full |
| BokehLaws.FrameChannels | ce_apps/cerf_demo/desktop.c:105-113 | each channel of a pixel is the total light cut off at 255 |
| BokehLaws.FadesIn | ce_apps/cerf_demo/desktop.c:75-117 | while the discs stay in place no channel of a pixel gets darker during the fade-in |
| BokehLaws.FirstFrameIsBlack | ce_apps/cerf_demo/desktop.c:75-91 | the first frame is black |
| StableSort.SortIsCorrect | tools/ico_format.py:112-127 | the sort is an ordered, stable permutation |
| PackedPixels.OrIntoSlot | tools/ico_format.py:95-104 | or-ing a value into an empty slot sets that slot and no other |
| PackedPixels.ShiftFormula | tools/ico_format.py:95-104 | the slot layout is the source's shift expression |
| PackedPixels.StrideFits | tools/ico_format.py:95-104 | rows are padded to the next 32 bits and no further |
| PackedPixels.PackIndexed | tools/ico_format.py:95-104 | unpacking the bottom-up padded rows gives each masked index, and padding is zero |
| PackedPixels.AndMask | tools/ico_format.py:130-140 | the mask bit is set exactly where alpha is below 128, and padding is zero |
| PackedPixels.PlanePixel | tools/ico_format.py:95-104 | a pixel of a plane is found at its bottom-up place |
| IcoFormat.HeaderReadsBack | tools/ico_format.py:143-150 | every header field reads back, little-endian, the zero ones included |
| IcoFormat.ColourTable | tools/ico_format.py:90-93 | the table holds each colour in its byte order, padded with black |
| IcoBytes.TableReads | tools/ico_format.py:90-93 | entry i of the table is colour i as blue, green, red and zero, or four zeros |
| IcoFormat.DibFrameIndexed | tools/ico_format.py:54-109 | a frame is built exactly when its fields fit, and decoding its bytes shows header, palette, indices and mask |
| IcoFormat.FrameRoundTrip | tools/ico_format.py:54-109 | unpacking gives back an index exactly when it fits the depth, and the mask bit exactly where alpha is below 128 |
| IcoFormat.Directory | tools/ico_format.py:112-127 | each directory entry holds its frame's size, length and offset |
| IcoBytes.EntryReads | tools/ico_format.py:112-127 | each byte of an entry: a size below 256 reads back and 0 stands for larger ones, two to the depth below depth 8, one plane, and depth, length and place with the least byte first |
| IcoFormat.BuildIco | tools/ico_format.py:112-127 | each offset and length selects its own blob, and the blobs tile the rest of the file |
| IcoFormat.FramesAreSorted | tools/ico_format.py:112-127 | frames are in order of size, equal sizes in their given order |
| FsRead.SplitIsExact | tools/fs_read_mcp.py:68-71 | splitting keeps every character and makes no empty line |
| FsRead.FirstLineEnds | tools/fs_read_mcp.py:68-71 | a line ends at its first terminator or with the file, and a carriage return is not cut from its line feed |
| FsRead.CharOffsets | tools/fs_read_mcp.py:74-80 | offset i is the length of the first i lines |
| FsRead.RangeSelectsBody | tools/fs_read_mcp.py:117-173 | the reported character range selects exactly the body |
| FsRead.Read | tools/fs_read_mcp.py:117-173 | a chunk is the longest run of whole lines within budget, at least one; each error has its exact condition |
| FsRead.ReadEndsLast | tools/fs_read_mcp.py:137-147 | a call ends with the last line that is within the limit, if there is one, and within the given or default budget, if it is not negative, but at least one line on |
| FsRead.ReadEndsAtChunkEnd | tools/fs_read_mcp.py:128-171 | the longest chunk is the one place where a call without limit ends |
| FsRead.BodiesAreTheFile | tools/fs_read_mcp.py:128-171 | following the next offsets returns every line once, in order |
| FsRead.ReadingReturnsTheText | tools/fs_read_mcp.py:68-171 | the bodies concatenate to the text |
| FsRead.GreedyIsOptimal | tools/fs_read_mcp.py:128-171 | from any later start the greedy chunks are no more than any other division |
| FsRead.NoFewerChunks | tools/fs_read_mcp.py:128-171 | no division into such whole-line chunks uses fewer calls |
| FsRead.StatChunks | tools/fs_read_mcp.py:195-203 | the counting loop computes the running count |
| FsRead.PredictionIsExact | tools/fs_read_mcp.py:195-203 | the count is the number of calls if and only if the budget is not negative or there is at most one line |
| ChangelogCard.Wrap | tools/changelog_card.py:139-150 | rows hold every token in order, and a new row begins exactly where a spaced word would not fit |
| ChangelogCard.FitsUpToLastSpace | tools/changelog_card.py:139-150 | a row fits up to its last word that follows a space |
| ChangelogCard.PlainRowsFit | tools/changelog_card.py:139-150 | where every word but the first follows a space, only a row of one word can be too wide |
| ChangelogCard.GluedTextOverflows | tools/changelog_card.py:89-150 | glued text can make a row of several words too wide |
| ChangelogCard.ElementsAreGrouped | tools/changelog_card.py:104-111 | every item has its own group's heading before it with only items of that group between |
| ChangelogCard.Elements | tools/changelog_card.py:104-111 | the loops list the headings and items |
| ChangelogCard.ElementsInOrder | tools/changelog_card.py:104-111 | a group's heading and then its lines stand once between the elements of the groups before and after it |
| ChangelogCard.ItemsInOrder | tools/changelog_card.py:104-111 | a category's lines, with its marker, stand once between those of the categories before and after it |
| ChangelogCard.DrawColumn | tools/changelog_card.py:286-304 | drawing a column advances by exactly the height the layout computed |
| ChangelogCard.HeadingOfOwnGroup | tools/changelog_card.py:202-205 | the heading found is that of the element's own group |
| ChangelogCard.HeadingIndex | tools/changelog_card.py:202-205 | the backward search ends, at that heading |
| ChangelogCard.ColumnsAt | tools/changelog_card.py:207-220 | one split gives these two columns and this height |
| ChangelogCard.Columns | tools/changelog_card.py:207-220 | the chosen split is admissible and its taller column is lowest among all admissible splits, the first of equals |
| ChangelogCard.ChosenIsLowest | tools/changelog_card.py:207-220 | no column of the chosen split is higher than the higher one of any other admissible split, and lower than that of an earlier one |
| ChangelogCard.SplitKeepsEverything | tools/changelog_card.py:207-220 | left and right are all elements in order except at most one repeated heading; left never ends in a heading and right starts with its own group's |
| CerfJsonMerge.MergePreservingOld | launcher/cerf_json_merge.py:13-28 | the recursive loops compute the merge |
| CerfJsonMerge.OldIsKept | launcher/cerf_json_merge.py:13-28 | every scalar of the old tree keeps its value, every list is kept as a prefix, every key stays |
| CerfJsonMerge.OnlyShippedIsAdded | launcher/cerf_json_merge.py:13-28 | at a place the old tree lacks, only the shipped value can appear |
| CerfJsonMerge.ShippedIsAdded | launcher/cerf_json_merge.py:13-28 | every shipped place not under an old leaf is there afterwards |
| CerfJsonMerge.MissingInOrder | launcher/cerf_json_merge.py:22-27 | to a list is added, once each and in shipped order, what it lacks |
| CerfJsonMerge.MergeSelf | launcher/cerf_json_merge.py:13-28 | merging a tree with itself changes nothing |
| CerfJsonMerge.MergeIsIdempotent | launcher/cerf_json_merge.py:13-28 | merging twice is merging once |
| CerfJsonMerge.MergeLayers | launcher/cerf_user_json.py:18-25 | the layer merge's loops compute the opposite merge |
| CerfJsonMerge.MergesAgree | launcher/cerf_json_merge.py:13-28 | the two merges agree with swapped arguments if and only if no old list gains an element |
| CerfJsonMerge.ListFreeTreesAgree | launcher/cerf_json_merge.py:13-28 | they agree when either tree has no lists |
| BundleRepositories.ParsedAreFirsts | launcher/bundle_repositories.py:33-49 | exactly the first well-formed entry of each URL is read, with its own flag, in order, and no URL twice |
| BundleRepositories.ParseRepositories | launcher/bundle_repositories.py:33-49 | the loop reads those entries |
| BundleRepositories.StripManifest | launcher/bundle_repositories.py:72-83 | the loop drops one manifest suffix from each URL |
| BundleRepositories.MergeRepositories | launcher/bundle_repositories.py:86-95 | the loop appends shipped entries whose URL is not claimed |
| BundleRepositories.ReadAfterMerge | launcher/bundle_repositories.py:72-95 | reading after a migration gives the user's repositories with their own flags, in order, then only the unclaimed shipped ones |
| BundleRepositories.ShippedIsFound | launcher/bundle_repositories.py:86-95 | a shipped URL is found afterwards exactly when the user has it or no entry claims it |
| BundleRepositories.MigrateCerfJson | launcher/cerf_json_merge.py:41-52 | the migration merges and then rewrites the repository list |
| BundleRepositories.MigratedReads | launcher/cerf_json_merge.py:41-52 | without an installed file the result is the shipped one; else other keys are merged, and the list reads as the user's repositories and then the unclaimed shipped ones, or as the shipped one if the user has none |
| BundleRepositories.SettledFromInputs | launcher/bundle_repositories.py:72-95 | the condition on the two given lists is that on the merged one |
| BundleRepositories.MergeSettles | launcher/bundle_repositories.py:72-95 | a second migration of the list changes nothing exactly when no stripped URL of the user's still ends in the manifest suffix and every shipped object has a URL that the user has too or that does not end in it; without a user's list, when the shipped one holds objects with such URLs only |
| BundleRepositories.MigrationSettles | launcher/cerf_json_merge.py:41-52 | the same for the whole file, from the two files' lists |
| CerfUserJson.IndependentPatchesCommute | launcher/cerf_user_json.py:46-59 | edits of different keys commute, also within one block that one of them empties |
| CerfUserJson.LaterPatchWins | launcher/cerf_user_json.py:46-59 | a patch that decides all keys of an earlier one makes it as if that had never happened |
| CerfUserJson.UntouchedKeysSurvive | launcher/cerf_user_json.py:46-59 | keys and block keys a patch does not name keep their values |
| CerfUserJson.ExtractPersistFields | launcher/cerf_user_json.py:182-224 | the reader returns exactly the well-typed fields |
| CerfUserJson.WriteThenExtract | launcher/cerf_user_json.py:182-293 | reading after a write gives exactly the well-typed fields written |
| CerfUserJson.OptionsReadBack | launcher/cerf_user_json.py:182-293 | the options read back are the ones written if and only if all are well typed |
| CerfUserJson.SecondWriteWins | launcher/cerf_user_json.py:242-293 | a second write is as if the first had never happened |
| CerfUserJson.WritersCommute | launcher/cerf_user_json.py:78-293 | the four writers of the file commute pairwise, two of them in the board block |
| CerfUserJson.DeviceDir.Store | launcher/cerf_user_json.py:46-59 | an object replaces the file, an empty one removes it; a directory in its place stays, and raises unless the object is empty |
| CerfUserJson.BoardFilesReadBack | launcher/cerf_user_json.py:118-179 | the board and file names written are the ones in effect, an empty one falls back to the base layer or the default |
| CerfUserJson.DeviceDir.WritePersistOverrides | launcher/cerf_user_json.py:242-293 | the writer's in-place edits are one patch of the file; it raises, changing nothing, exactly when the file is not UTF-8, or a directory stands there and the patched object is not empty |
| CerfUserJson.DeviceDir.WriteUserMetaName | launcher/cerf_user_json.py:87-99 | the same for the display name |
| CerfUserJson.DeviceDir.WriteLauncherLink | launcher/cerf_user_json.py:78-84 | the same for the launcher link |
| CerfUserJson.DeviceDir.WriteBoardFileOverrides | launcher/cerf_user_json.py:153-179 | the same for the board and file names, against the base layer |
| PersistedOptions.PersistSubset | launcher/persisted_options.py:53-63 | the file holds the merged subset afterwards; it raises, changing nothing, exactly when a file is not UTF-8 or the write raises |
| PersistedOptions.BaselineIs | launcher/persisted_options.py:29-39 | what the baseline has for each field: the base layer's value or its default, nothing for screen size and depth |
| PersistedOptions.EffectiveField | launcher/persisted_options.py:42-63 | for each field, what is in effect after storing the subset |
| PersistedOptions.EffectiveAfterPersist | launcher/persisted_options.py:29-63 | an owned field is in effect as given if and only if it is well typed or the baseline has it; an owned field not given falls back to the baseline; others do not change; a field is stored only if explicit or different from the baseline; a file that is not UTF-8 lets nothing be read or written, a directory in the place of the user file nothing be written |
| PersistedOptions.ClearedTextDoesNotOverride | launcher/cerf_user_json.py:265-266 | an empty text leaves the base layer's text in effect |
| LocalManifest.ParseLocalPackages | launcher/device_state.py:371-390 | the loops read the packages category by category |
| LocalManifest.LoadLocalManifest | launcher/device_state.py:393-425 | the loops read both formats, a later entry replacing an earlier one of its name |
| LocalManifest.LegacyLoads | launcher/device_state.py:418-424 | an older manifest gives a device for each entry with a timestamp, and only that timestamp |
| LocalManifest.LastEntryLoads | launcher/device_state.py:401-416 | of several entries of one name the last one is loaded |
| LocalManifest.NoEntryLoads | launcher/device_state.py:401-416 | a name without an entry is not loaded |
| LocalManifest.SaveLocalManifest | launcher/device_state.py:428-452 | the loops write the document in the order of lower-cased names |
| LocalManifest.CategoryHolds | launcher/device_state.py:428-452 | each category holds exactly its packages, in their order |
| LocalManifest.SaveThenLoad | launcher/device_state.py:393-452 | a saved manifest loads to the same devices, every record normalised |
| LocalManifest.FindAfterLoad | launcher/device_state.py:361-452 | no answer of find_package changes, except for packages without key or hash, which are gone |
| LocalManifest.RegroupIsStable | launcher/device_state.py:371-452 | regrouping keeps the categories, their order and their contents |
| LocalManifest.RegroupMembers | launcher/device_state.py:371-452 | regrouping neither adds nor drops a package |
| LocalManifest.SecondSave | launcher/device_state.py:393-452 | saving what was loaded writes the identical document if and only if no record lost a hash or a package |
| LocalManifest.SavingSettles | launcher/device_state.py:393-452 | after one save and load the document stays as it is |
| ManifestNormalForm.LoadedIsNormal | launcher/device_state.py:371-425 | records loaded from any document, either format, are unchanged by a save and a load |
| ManifestNormalForm.NormalisedIsNormal | launcher/device_state.py:371-452 | one load normalises for good |
| ManifestNormalForm.NormaliseKeepsOneEach | launcher/device_state.py:371-452 | a save and a load create no second record of a package |
| StashArea.ReachableMoves | launcher/operations.py:352-359 | a package whose path touches no other is moved there if and only if it can be reached |
| StashArea.SeparateIsIntact | launcher/operations.py:301-360 | separate packages all come back as they were |
| StashArea.ThroughEarlierRaises | launcher/operations.py:301-360 | a stash path that leads to or through an earlier one's raises |
| StashArea.RaisesUnlessStashable | launcher/operations.py:301-360 | the moves raise if and only if some package is not accepted: its path is illegal, or leads to or through an earlier one's; or leads on to an earlier one's with its own name taken there; or else cannot be reached |
| StashArea.StashableComeBack | launcher/operations.py:301-360 | when they do not, each package comes back as it was, or in a directory that holds it under its name if its path leads on to an earlier one's |
| StashArea.LandsApart | launcher/operations.py:352-359 | an accepted package is moved to a place that neither leads to nor is below that of an earlier one |
| StashArea.SeparateIsStashable | launcher/operations.py:301-360 | packages are separate exactly when all are accepted and no path leads on to an earlier one's |
| StashArea.IntactIfSeparate | launcher/operations.py:301-360 | everything comes back as it was if and only if the packages are separate |
| DeviceStore.PreservedKeys | launcher/operations.py:345-360 | exactly the recorded artifacts that are there are preserved, each once |
| DeviceInputs.LayeredIs | launcher/cerf_user_json.py:117-130 | the text read for a key is the non-empty one of cerf-user.json, else that of cerf.json |
| DeviceInputs.KeptExactly | launcher/operations.py:324-343 | an install keeps exactly the entries a storage file of the device leads to: the configured one of an id, or the default one of a storage type of its board that has none |
| DeviceInputs.RemoteIs | launcher/operations.py:130-135 | the remote bundle of a device is the one of the repository and name in its user file's launcher block |
| DeviceInputs.IndexHoldsLast | launcher/operations.py:104-105 | of several bundles of one repository and name the last one is indexed |
| DeviceInstall.PreservedInOrder | launcher/operations.py:345-360 | when no two records share an artifact, all those present stay in their order |
| DeviceInstall.PlainPath | launcher/operations.py:357-357 | a plain category with an accepted key makes a path of one name |
| DeviceInstall.PlainPackagesAreSeparate | launcher/operations.py:345-360 | plain packages are separate and never leave the stash |
| DeviceInstall.PlainPackagesSurvive | launcher/operations.py:268-360 | so an update brings all of them back as they were |
| DeviceInstall.ConfiguredBlocked | launcher/operations.py:309-313 | writing the configuration fails exactly where a directory is in the way or the user file is not UTF-8 |
| DeviceInstall.StopsExactly | launcher/operations.py:278-313 | an install that is not rejected raises half way if and only if, on the inputs, its packages are not all accepted, or a directory will stand where a configuration file goes, or the user file to be edited is not the device's own and not UTF-8 |
| DeviceInstall.PackageComesBack | launcher/operations.py:278-304 | what each recorded package comes back as |
| DeviceInstall.InstallOutcome | launcher/operations.py:268-343 | the whole effect of an install: nothing changed on unreadable files or a storage conflict, raised half way under its exact condition on the inputs, otherwise every entry, the record and the manifest |
| DeviceInstall.RefusedExactly | launcher/operations.py:268-343 | an install that has its archive changes nothing if and only if a file of the device is not UTF-8 or the archive carries an entry that holds the device's storage |
| DeviceInstall.StashRaises | launcher/operations.py:278-304 | the stash makes an install raise if and only if its packages are not all accepted |
| DeviceInstall.IntactExactly | launcher/operations.py:278-304 | the packages are as they were if and only if they are separate |
| DeviceInstall.FreshInstall | launcher/operations.py:268-343 | an install into a new directory completes exactly when the archive has no directory where a configuration file goes and no user file that is not UTF-8 |
| DeviceInstall.ContentsSurvive | launcher/operations.py:268-360 | recorded packages are as they were, or in a directory if their path leads on to an earlier one's; entries that hold the device's storage keep their contents, every other entry is the archive's or gone; all packages are as they were if and only if they are separate |
| DeviceInstall.UserFileSurvives | launcher/operations.py:286-313 | after every completed install the device's cerf-user.json keeps every key but the launcher block, all launch options included |
| DeviceInstall.InstalledIsLinked | launcher/operations.py:313-313 | the device is linked to the bundle installed |
| DeviceInstall.LinkReadsBack | launcher/cerf_user_json.py:62-84 | the link written is the link read unless repository or name is empty |
| DeviceInstall.PackageIsRecorded | launcher/operations.py:457-464 | recording a package answers for it from then on and changes no other answer |
| DeviceInstall.InstalledArtifact | launcher/operations.py:426-464 | what is installed is the archive's contents under the package's key, or its file of that name; an archive of one directory stands for what is in it |
| DeviceInstall.LinkedPackageIs | launcher/operations.py:388-418 | a device's package is the first of that category and key its linked bundle offers |
| DeviceInstall.RecordRefused | launcher/operations.py:397-418 | recording a package is refused exactly when the device's bundle does not offer it |
| DeviceInstall.InstallPackageRefused | launcher/operations.py:426-464 | installing one, exactly when it is not offered, its download fails, or the archive lacks its file |
| DeviceInstall.RefreshConfigRefused | launcher/operations.py:260-266 | applying the remote cerf.json, exactly when the device's bundle has none |
| DeviceInstall.PackageSurvivesUpdate | launcher/operations.py:268-464 | a package installed into a device is still there after every completed update, in a directory of its name if its path leads on to an earlier one's |
| DeviceInstall.PackageIsDeleted | launcher/operations.py:469-478 | deleting a package removes its artifact and its record and no other |
| DeviceInstall.PreparedKeeps | launcher/operations.py:362-386 | preparing a manual install keeps every other entry, the user's settings and the recorded packages, and records the bundle's timestamp and hash |
| InstallWitnesses.BinaryUserFileRefused | launcher/operations.py:279-283 | an update of a device whose user file is not UTF-8 changes nothing |
| InstallWitnesses.BinaryUserFileRaises | launcher/operations.py:309-313 | such a file in the archive raises when the device has been replaced |
| InstallWitnesses.UserDirectoryRaises | launcher/operations.py:309-313 | so does a directory of that name |
| InstallWitnesses.FileInSubfolderRaises | launcher/operations.py:352-359 | a package of a category with a separator comes back if it is a directory and raises the whole install if it is a file |
| InstallWitnesses.SymbolFileRaises | launcher/operations.py:352-359 | a file recorded under tools/pdb raises the whole install |
| InstallWitnesses.SharedStashPathRaises | launcher/operations.py:301-359 | two packages of one stash path raise the whole install |
| InstallWitnesses.StashNamesCanBeShared | launcher/operations.py:357-357 | two packages of different category and key can share a stash path |
| InstallWitnesses.WrappedPackage | launcher/operations.py:301-359 | a file whose path leads to an earlier directory's comes back wrapped in a directory of its own name |
| InstallWitnesses.CardFileIsWrapped | launcher/operations.py:301-359 | two packages for which this happens |
| DeviceRuns.FreshIsGood | launcher/operations.py:89-95 | right after a load memory and manifest agree |
| DeviceRuns.RefreshFillsExactly | launcher/operations.py:97-150 | after a refresh that does not raise, each loaded record without a hash whose directory is linked to the last remote bundle of its repository and name has that bundle's hash, every other record is as loaded, and the manifest loads to them |
| DeviceRuns.StepKeepsGood | launcher/operations.py:89-489 | no operation, refused or interrupted, breaks the invariant; all but a refresh that raises keep the manifest in step |
| DeviceRuns.CutOffFallsBehind | launcher/operations.py:137-150 | a refresh that raises can leave the manifest behind if and only if a device whose record lacks a hash and whose user file is readable is linked to a bundle with a hash that is not empty |
| DeviceRuns.BehindIfFilled | launcher/operations.py:137-150 | it does exactly when it met such a device before it raised |
| RefreshWitness.RefreshLeavesManifestBehind | launcher/operations.py:137-150 | two devices for which this happens, the hash in memory and not in the manifest |
| DeviceRuns.RunKeepsGood | launcher/operations.py:89-489 | over every run from a duplicate-free manifest each record keeps at most one entry per category and key, and the saved manifest loads to the records in memory, save for hashes filled in by a refresh that raised |
| DeviceRuns.StepKeepsOthers | launcher/operations.py:137-489 | an operation touches no other device's directory; its record is the one before, or the saved one after a load, with the linked bundle's hash where it had none after a refresh |
| DeviceRuns.StepSavesOthers | launcher/operations.py:89-489 | its saved record stays, or becomes what a load makes of the one in memory |
| DeviceRuns.StepMovesRecord | launcher/operations.py:89-150 | with the manifest in step that record is exactly the one before, normalised by a load and filled by a refresh |
| DeviceRuns.RunKeepsDirectories | launcher/operations.py:137-489 | a device no operation of a run works on keeps its directory, and a record if it had one |
| DeviceRuns.RunKeepsOthers | launcher/operations.py:89-489 | over every run, refreshes that raise included, its record in memory and its saved record keep the timestamp, the packages and the hash if there is one; a hash it gets is that of the bundle it is linked to, offered by a refresh of the run |
| DeviceRuns.RunFollowsRecord | launcher/operations.py:89-489 | in a run none of whose refreshes raises, its record at every point is the one that follows from the record at the start, its own directory and the operations alone |
| DeviceRuns.RecordAfterKeeps | launcher/operations.py:137-150 | that record too keeps its timestamp, its packages and a hash it has; a hash it gets is that of the linked bundle in a refresh of the run |
| DeviceRuns.AllocatedIsFree | launcher/operations.py:234-244 | a fresh install never gets a name that is taken; it gets the bundle's own name exactly when it is free, else the first free one drawn |
| DeviceRuns.DeleteUndoesInstall | launcher/operations.py:268-489 | deleting a freshly installed device restores directories and records exactly |
| DeviceList.SafeNamesHoldNoColon | launcher/bundles.py:145-155 | accepted names hold no colon |
| DeviceList.KeysTellIdentitiesApart | launcher/operations.py:215-230 | two bundles share a row key only if repository and name are the same |
| DeviceList.LocalKeysDiffer | launcher/operations.py:187-230 | no device directory has the key of an available bundle |
| DeviceList.RowsOfDevices | launcher/operations.py:187-213 | every accepted directory has its own row, which no other replaces |
| DeviceList.RowsOfBundles | launcher/operations.py:215-230 | a bundle has an available row exactly when no device is linked to it |
| DeviceList.LinkedOrAvailable | launcher/operations.py:187-232 | each remote identity is linked by installed rows or shown in exactly one available row, never both |
| DeviceList.ListKeepsEveryRow | launcher/operations.py:187-232 | no row is lost if and only if no two unlinked bundles share repository and name |
| DeviceList.SharedIdentityLosesRow | launcher/operations.py:215-230 | two such bundles do lose a row: the later one's is shown |
| DeviceList.DeviceNamesDiffer | launcher/operations.py:187-232 | no two device rows have one name |
| DeviceList.RowSays | launcher/operations.py:187-213 | the row of a device is marked for an update if and only if it is linked and both hashes are there and differ in more than case; for a configuration update if and only if not so and its cerf.json does not hold the bundle's; and the exact condition of the other labels |
| DeviceList.ListedRowsSay | launcher/operations.py:187-232 | every listed row says so, with the device's own name, bundle and recorded hash; the row of a bundle says it is available |
| DeviceList.InstalledIsUpToDate | launcher/operations.py:187-322 | right after an install the device's row reports neither a ROM nor a configuration update; the list can be read unless the archive brought a cerf.json that is not UTF-8 |
| DeviceList.PreparedIsUpToDate | launcher/operations.py:187-386 | the same after a manual install has been prepared |
| DeviceList.RefreshedConfigIsCurrent | launcher/operations.py:187-266 | applying the remote cerf.json changes no other entry and clears the pending mark |
| DeviceList.SortedRows | launcher/operations.py:232-232 | the rows come in the order of their lower-cased names, each row once |
| BundleManager.Manager.LoadLocal | launcher/operations.py:89-95 | reloading replaces the records and nothing else |
| BundleManager.Manager.DoRefresh | launcher/operations.py:97-107 | reload, new remotes and backfill as one step; raises exactly where a user file it needs is not UTF-8 |
| BundleManager.Manager.BackfillHashes | launcher/operations.py:137-150 | exactly the records without a hash whose device is linked get the remote hash, saved only if one did; where it raises, some have got it and nothing is saved |
| BundleManager.Manager.AllocateDirName | launcher/operations.py:234-244 | the name is the first free one |
| BundleManager.Manager.KeptEntries | launcher/operations.py:324-343 | the loop finds the entries that hold the device's storage |
| BundleManager.Manager.StashPackages | launcher/operations.py:345-360 | the loop moves exactly the preserved packages to their stash paths, or stops where a move raises |
| BundleManager.Restore | launcher/operations.py:301-304 | the loop puts back what is at the packages' stash paths, or stops where nothing is |
| BundleManager.Manager.Rebuild | launcher/operations.py:284-313 | stashing, emptying, moving in and putting back give the installed directory |
| BundleManager.Manager.DoInstall | launcher/operations.py:268-322 | the steps carry out the plan whose effect InstallOutcome states |
| BundleManager.Manager.DoPrepareManual | launcher/operations.py:362-386 | configuration, link and record, the packages kept |
| BundleManager.Manager.DoRecordManualPackage | launcher/operations.py:397-418 | only the record changes, or nothing |
| BundleManager.Manager.DoInstallPackage | launcher/operations.py:426-464 | the artifact and its record change together, or nothing |
| BundleManager.Manager.DoDeletePackage | launcher/operations.py:469-478 | the artifact and its record go, or nothing changes |
| BundleManager.Manager.DoDelete | launcher/operations.py:483-489 | the directory and its record go, or nothing changes |
| BundleManager.Manager.DoRefreshCerfJson | launcher/operations.py:260-266 | only cerf.json changes |
| BundleManager.Manager.ListDevices | launcher/operations.py:187-232 | the loops give the sorted rows, or raise exactly when a listed device has a configuration file that is not UTF-8 |
| CardRows.KeyTextsTellKeysApart | launcher/device_card_list.py:153-184 | key strings tell rows apart, and the prefix test and cut recover the device name |
| CardRows.FilterDevices | launcher/device_card_list.py:144-147 | the devices that match the query, in order |
| CardRows.ShownExactly | launcher/device_card_list.py:144-147 | a device is shown exactly when it is installed and the query is empty or occurs in its search text |
| CardRows.CollidesExactly | launcher/device_card_list.py:148-163 | a device is marked exactly when two places of the list have its group and title |
| CardRows.WithinHasPlace | launcher/device_card_list.py:147-147 | the search text occurs in the text it is found in |
| CardRows.PlaceIsWithin | launcher/device_card_list.py:147-147 | a text is found wherever it occurs |
| CardRows.CountTitles | launcher/device_card_list.py:148-151 | the counts of group and title among the shown devices |
| CardRows.BuildDesired | launcher/device_card_list.py:144-165 | the loop builds the wanted rows |
| CardRows.WantsAreDistinct | launcher/device_card_list.py:153-164 | no two wanted rows have one key |
| CardRows.KeysDifferExactly | launcher/device_card_list.py:144-164 | the rows have distinct keys if and only if no two devices shown share a name |
| CardRows.WantsShowDevices | launcher/device_card_list.py:153-164 | the cards are exactly the matching devices in order, each run under its own group's header, and no header stands alone |
| CardRows.EventKeepsSelection | launcher/device_card_list.py:106-142 | every event leaves a shown device selected whenever one is shown |
| CardRows.AlwaysASelection | launcher/device_card_list.py:106-192 | the same over every run of events |
| CardRows.SelectionStays | launcher/device_card_list.py:116-192 | a selected device stays selected while it is shown and no other is selected |
| DeviceCardList.PermutedNamesDiffer | launcher/device_card_list.py:116-121 | sorting keeps the devices' names distinct |
| DeviceCardList.CardList.CanvasIsRebuilt | launcher/device_card_list.py:167-213 | every row shows what a rebuild from empty would: order, texts, collision marks and colours |
| CanvasLaws.RebuiltSays | launcher/device_card_list.py:144-266 | each card on the canvas is that of a matching device, with the texts of its mark, in the selection's colour, else the hover's, else its own |
| DeviceCardList.CardList.Reconcile | launcher/device_card_list.py:167-192 | afterwards row keys are the order without duplicates, cards are exactly the card rows, each filled and coloured as wanted; cards of devices that stay are the same objects |
| DeviceCardList.CardList.Refill | launcher/device_card_list.py:144-165 | the list shows the devices that match |
| DeviceCardList.CardList.DoReload | launcher/device_card_list.py:116-121 | the list goes to the state after the event and stays a rebuild |
| DeviceCardList.CardList.DoSetQuery | launcher/device_card_list.py:106-108 | the same for a new query |
| DeviceCardList.CardList.DoRetheme | launcher/device_card_list.py:133-142 | all cards are new, the selection is kept |
| DeviceCardList.CardList.DoUpdateRuntime | launcher/device_card_list.py:127-131 | a full repaint gives every card its colour |
| DeviceCardList.CardList.SetSelected | launcher/device_card_list.py:272-280 | painting two cards is as good as painting all |
| DeviceCardList.CardList.DoSelect | launcher/device_card_list.py:123-125 | a shown device becomes selected, any other name does nothing |
| DeviceCardList.CardList.SetHovered | launcher/device_card_list.py:282-289 | painting the cards the pointer leaves and enters is as good as painting all |
| DeviceCardList.CardList.DoHover | launcher/device_card_list.py:282-289 | only the hover changes |
| DeviceCardList.CardList.Selection | launcher/device_card_list.py:110-114 | the selection is a shown device whenever there is one |
| DeviceCardList.CardList.Layout | launcher/device_card_list.py:215-233 | each row starts where the one before ends, with its first and last flags |
| DeviceCardList.CardList.BlocksAreHeaded | launcher/device_card_list.py:215-233 | every header is followed by the first card of its block |

## Left out

- Antialias.Coverage: exact reals, no IEEE rounding; hypot is known by its specification only.
- Antialias.Render: colours come as channel triples; PNG and zlib encoding are not modelled.
- BokehDesktop.Compositor.PresentBg: the frame counter, the blit to the window and the clock are left out; the tick is a parameter.
- BokehDesktop.WrapIsInvisible: a frame may come more than one step of a disc's clock after the one before, and the 32-bit tick itself wraps after some 49 days; such a jump can be seen and is not covered.
- BokehDesktop.Compositor.EnsureFx: failing allocations are left out.
- IcoFormat.DibFrameIndexed: starts from a given index image and alpha plane; 32-bit frames, quantisation and rendering are left out.
- FsRead.Read: line numbers in the body and path checks are left out.
- ChangelogCard.Wrap: text widths are any numbers; tokenising by regular expression and the diff of blocks are left out.
- BundleRepositories.ParseRepositories: an object or list as `url`, which Python refuses to hash, and Python's `True == 1` are not modelled; JSON equality is structural.
- CerfUserJson.DeviceDir.Store: the order of keys in the file is not modelled, nor is a failing unlink of a file or a directory in the place of the temporary file (DeviceInstall models the latter for installs).
- PersistedOptions.EffectiveAfterPersist: values are compared structurally, where Python has `1 == 1.0 == True` and `NaN != NaN`.
- LocalManifest.SaveLocalManifest: lower-casing is for ASCII letters; the temporary file of the save is left out.
- DeviceStore.PreservedKeys: entry names are compared exactly, not by Windows rules (letter case, trailing dots); a package key is the name of an entry, so a hand-edited manifest whose key holds a path separator is not covered; plain files beside the device directories and permission errors are left out.
- Folders: a JSON file is read as its value; escapes of lone surrogates, numbers of thousands of digits and very deep nesting, on which Python's parser or writer raises, are left out.
- StashArea: a stash path with a part that is empty, `.`, `..`, a drive or stream name, a device name, or ends in a dot or a blank leads elsewhere than it spells; of an install that meets one nothing is said, and the theorems on runs ask that none does.
- BundleManager.Manager.DoInstall: a download is one step that yields an extracted archive or nothing; after a half-way error nothing is said of that device's directory (the code does not roll back); the steps inside one device directory work on its contents as a value and are stored when a stage ends.
- BundleManager.Manager.AllocateDirName: the random suffixes are parameters; if none of the given ones is free the model refuses, where the program draws on.
- BundleManager.Manager.ListDevices: package statuses, device texts, screen sizes and ROM sizes of a row are left out; the order of the directory listing is a parameter.
- DeviceList.RefreshedConfigIsCurrent: values are compared structurally, where Python has `1 == 1.0 == True`; with a `NaN` in the remote cerf.json the pending mark never clears.
- BundleManager.Manager: records are values, so a record shared between callers is not modelled; operations run one after the other, each manifest update atomic.
- DeviceCardList.CardList.DoReload: asks that no two installed devices share a name, which `list_devices` guarantees (DeviceList.DeviceNamesDiffer) and without which the row keys are not distinct (CardRows.KeysDifferExactly).
- DeviceCardList.CardList.DoUpdateRuntime: colours and texts are functions of the device given with the event; a running state that changes between events, the status text and the badge are left out, as are the canvas, hit tests and callbacks.
- Windows and Tk calls, the registry, processes, GitHub and Discord publishing, the IDA tools, the emulator and the JIT are left out.
