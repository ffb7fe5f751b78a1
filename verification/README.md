# HASI core, modelled in Dafny

HASI (High-throughput Applications for Skeletal Imaging) segments mouse
femur and tibia micro-CT scans into bones and their tissues. It also registers
an atlas to each case and carries the atlas labels over. Finally it compares
bone shapes, and a web front end lets users browse the scans. This project
models the core of that system as pure functions over immutable data and
proves what the code promises:

- **The micro-CT bone segmenter, in all three generations:**
  - the ITK filter `SegmentBonesInMicroCTFilter` (modules `Grid`, `Morphology`,
    `BoneLabels`, `BoundingBox`, `BonePipeline`, `SegmentFilter`);
  - the example program that writes split and whole labels together
    (`SegmentExample`);
  - the original stand-alone program (`SegmentLegacy`).

  Volumes are maps from voxel index to value. The ITK image filters the
  segmenter calls (signed distance maps, Gaussian smoothing, the Descoteaux
  sheetness measure, connected components, hole filling) are function
  parameters or precomputed inputs. What the model fixes is the control flow
  around them: thresholds, margins, bounding boxes, the per-bone regions, the
  island bookkeeping, and the label compositing, with its 85-bone limit imposed
  by 8-bit storage.
- **Landmark registration and label transfer** (`Text`, `Fiducials`,
  `Geometry`, `Landmarks`, `LabelTransfer`):
  - the Slicer fiducial readers in C++ and in Python;
  - pinning the rigid transform to the first landmark pair;
  - the rigid, affine and B-spline optimiser scales;
  - the per-bone label selection and distance proxy;
  - the pose-frame crop.
- **The morphometry driver script** (`CaseLists`): case discovery, input
  validation, and argument dispatch between the parent and child processes.
- **The Python helpers** `align.py`, `meshtomeshregistrar.py` and
  `classify.py` (`MeshAlign`, `MeshSampling`, `PointFeatures`).
- **The web front end's state logic:**
  - the scan selection pool (`SelectionPool`);
  - the two selector controllers (`SelectorControl`, `SelectStates`,
    `SelectControl`);
  - the upload stages (`UploadStages`);
  - the plot parameter store (`PlotStore`);
  - the scan table's data model and mouse handling (`ScanTable`).

JavaScript's `undefined` and Python's `None` are `Option.None`. An exception
or failed assertion in the source is `Result.Failure`, and its message is kept
where the source gives one.

## Model

| member | source | states |
|---|---|---|
| Grid.Filled | examples/segmentBonesInMicroCT.cxx:273-281 | an image allocated with `Allocate(true)` holds exactly the voxels of its region, each with the fill value |
| Grid.CropAxis | include/itkSegmentBonesInMicroCTFilter.hxx:302-314 | cropping one axis of a region to an overlapping one gives the intersection interval: it starts at one of the two starts and ends at one of the two ends |
| Grid.Crop | include/itkSegmentBonesInMicroCTFilter.hxx:302-314 | `Crop` of overlapping regions contains exactly the voxels in both; without overlap the region is left unchanged, as ITK does |
| Grid.PadByRadius | include/itkSegmentBonesInMicroCTFilter.hxx:151-155 | padding a region by the operation radius widens it by the radius on both sides of every axis |
| Grid.ZeroPad | include/itkSegmentBonesInMicroCTFilter.hxx:116-125 | the zero-padded mask covers the padded region, agrees with the input inside the original region, and is off elsewhere |
| Morphology.Not | include/itkSegmentBonesInMicroCTFilter.hxx:96-112 | the complement mask used for erosion: same voxels, each flipped |
| Morphology.AtLeast | include/itkSegmentBonesInMicroCTFilter.hxx:96-112 | a binary threshold with only a lower bound: on exactly where the field reaches the bound |
| Morphology.Erode | include/itkSegmentBonesInMicroCTFilter.hxx:96-112 | erosion by a radius keeps a voxel exactly when the squared distance to the complement is at least the squared radius |
| Morphology.ErodeShrinksWithRadius | include/itkSegmentBonesInMicroCTFilter.hxx:96-112 | eroding with a larger radius keeps no voxel that a smaller radius removes |
| Morphology.AtMost | include/itkSegmentBonesInMicroCTFilter.hxx:84-92 | a binary threshold with only an upper bound: on exactly where the field is at most the bound |
| Morphology.Dilate | include/itkSegmentBonesInMicroCTFilter.hxx:84-92 | dilation by a radius marks a voxel exactly when its squared distance to the mask is within the squared radius |
| Morphology.DilateGrowsWithRadius | include/itkSegmentBonesInMicroCTFilter.hxx:84-92 | dilating with a larger radius keeps every voxel a smaller radius reaches |
| BoneLabels.StoreUChar | include/itkSegmentBonesInMicroCTFilter.hxx:473-487 | storing a label in an 8-bit voxel keeps it modulo 256, in 0..255 |
| BoneLabels.DecodeSplitLabel | include/itkSegmentBonesInMicroCTFilter.hxx:473-487 | for bones 1..85 the split label `3(b-1)+tissue` survives 8-bit storage, is non-zero, and decodes back to its bone and tissue |
| BoneLabels.SplitLabelsDistinct | include/itkSegmentBonesInMicroCTFilter.hxx:246-249 | below the 85-bone limit, different (bone, tissue) pairs get different stored labels |
| BoneLabels.LimitIsTight | include/itkSegmentBonesInMicroCTFilter.hxx:246-249 | bone 86 would collide: its cortical label stores as background and its trabecular label as bone 1's cortical label |
| BoundingBox.Lower | include/itkSegmentBonesInMicroCTFilter.hxx:258-284 | the per-axis minimum update gives, on each axis, one of the two coordinates and no more than either |
| BoundingBox.Upper | include/itkSegmentBonesInMicroCTFilter.hxx:258-284 | the per-axis maximum update gives, on each axis, one of the two coordinates and no less than either |
| BoundingBox.StepKeepsBoxes | include/itkSegmentBonesInMicroCTFilter.hxx:258-284 | visiting one more voxel keeps every box enclosing, and attained by, the voxels of its bone seen so far |
| BoundingBox.StepContains | include/itkSegmentBonesInMicroCTFilter.hxx:258-284 | after a step every visited voxel of bone c lies in box c |
| BoundingBox.StepAttains | include/itkSegmentBonesInMicroCTFilter.hxx:258-284 | after a step each face of a present bone's box is touched by a visited voxel of that bone |
| BoundingBox.BoneBoxes | include/itkSegmentBonesInMicroCTFilter.hxx:258-284 | the scan yields, per bone, the tightest box around its voxels; absent bones keep the inverted initial box |
| BoundingBox.BoxesUnique | include/itkSegmentBonesInMicroCTFilter.hxx:258-284 | the boxes are determined by the labelling: any two sets of boxes that hold every voxel of their bone, with attained faces, and keep the initial box for absent labels, are equal |
| BonePipeline.Ceil | include/itkSegmentBonesInMicroCTFilter.hxx:140-149 | `std::ceil`: the least integer not below the argument |
| BonePipeline.AxisMargin | include/itkSegmentBonesInMicroCTFilter.hxx:140-149 | the margin in voxels covers the radius in physical units, and one voxel fewer would not |
| BonePipeline.CeilCovers | include/itkSegmentBonesInMicroCTFilter.hxx:140-149 | rounding radius/spacing up gives the fewest voxels spanning the radius |
| BonePipeline.OpSize | include/itkSegmentBonesInMicroCTFilter.hxx:140-149 | the operation radius spans at least eight cortical thicknesses on every axis |
| BonePipeline.AtLeastInt | include/itkSegmentBonesInMicroCTFilter.hxx:207-211 | an integer lower threshold over a region: on where the value reaches it |
| BonePipeline.StrictMask | include/itkSegmentBonesInMicroCTFilter.hxx:207-211 | the strict intensity mask is on exactly where the input reaches 5000 |
| BonePipeline.AtLeastReal | include/itkSegmentBonesInMicroCTFilter.hxx:198-202 | a real-valued lower threshold over a region (the sheetness cut at 0.1) |
| BonePipeline.CortexMask | include/itkSegmentBonesInMicroCTFilter.hxx:214-235 | the cortex is (sheetness or smoothed) and strict, inside the image; the padding is off |
| BonePipeline.CortexFromMeasures | include/itkSegmentBonesInMicroCTFilter.hxx:168-235 | in measured terms: cortex where (sheetness ≥ 0.1 or smoothed ≥ 2000) and input ≥ 5000 |
| BonePipeline.Tight | include/itkSegmentBonesInMicroCTFilter.hxx:302-314 | the region from a bone's bounding box holds exactly the voxels between its corners |
| BonePipeline.Expanded | include/itkSegmentBonesInMicroCTFilter.hxx:302-314 | the bounding box grown by the operation radius on every side |
| BonePipeline.RegionsNest | include/itkSegmentBonesInMicroCTFilter.hxx:302-314 | tight ⊆ safe ⊆ expanded, and both tight and safe lie inside the image |
| BonePipeline.ThisBone | include/itkSegmentBonesInMicroCTFilter.hxx:316-334 | the current bone's mask: on exactly at tight-region voxels that carry its label |
| BonePipeline.Basin | include/itkSegmentBonesInMicroCTFilter.hxx:338-356 | the basin is the tight-region voxels where this bone's distance equals the all-bones distance within epsilon |
| BonePipeline.PartialInput | include/itkSegmentBonesInMicroCTFilter.hxx:369-390 | the partial input keeps the intensity in the basin and is background (-4096) elsewhere in the safe region |
| BonePipeline.Seeds | include/itkSegmentBonesInMicroCTFilter.hxx:393-418 | the region-growing seeds are exactly the tight-region voxels of this bone |
| BonePipeline.SweepStep | include/itkSegmentBonesInMicroCTFilter.hxx:393-418 | one voxel of the sweep adds it to the seeds if it is this bone's, and marks another bone replaced if that voxel lies in the basin |
| BonePipeline.ScanSeedsAndIslands | include/itkSegmentBonesInMicroCTFilter.hxx:393-418 | the sweep returns the seed set, and marks as replaced by this bone exactly the other bones with a voxel in its basin |
| BonePipeline.MarrowSeed | include/itkSegmentBonesInMicroCTFilter.hxx:432-442 | the marrow seed is the thresholded bone or the eroded region inside the tight box |
| BonePipeline.Morph | include/itkSegmentBonesInMicroCTFilter.hxx:422-449 | the closing/opening chain: dilate by 3t, erode by 4t, dilate by t, then the marrow dilated by 5t and eroded by 6t |
| SegmentFilter.SplitPriority | include/itkSegmentBonesInMicroCTFilter.hxx:473-487 | with split labels, cortex beats trabecular bone beats marrow; nothing is written outside all three |
| SegmentFilter.WholeRule | include/itkSegmentBonesInMicroCTFilter.hxx:466-472 | with whole bones, any of the three tissues writes the bone number |
| SegmentFilter.Composite | include/itkSegmentBonesInMicroCTFilter.hxx:454-492 | compositing one bone touches only voxels in its basin within the safe region, and writes there what the priority rule says |
| SegmentFilter.RunOut | include/itkSegmentBonesInMicroCTFilter.hxx:295-299 | a bone already replaced by an earlier bone is skipped; any other bone is composited over the output so far |
| SegmentFilter.RunStep | include/itkSegmentBonesInMicroCTFilter.hxx:289-493 | one loop iteration equals the recursive definition: skip, or composite and take the new replacement marks |
| SegmentFilter.RunLabelsInRange | include/itkSegmentBonesInMicroCTFilter.hxx:289-493 | after bone k every voxel holds its initial value or a label of bones 1..k in the chosen labelling |
| SegmentFilter.RunKeepsUncoveredVoxels | include/itkSegmentBonesInMicroCTFilter.hxx:454-492 | a voxel in no processed bone's basin keeps its initial value |
| SegmentFilter.RunMarks | include/itkSegmentBonesInMicroCTFilter.hxx:289-493 | the replacement marks the loop carries are the island marks of the bones processed so far |
| SegmentFilter.MarksStep | include/itkSegmentBonesInMicroCTFilter.hxx:393-418 | a processed bone marks the later bones that are islands in its basin; a skipped bone marks nothing |
| SegmentFilter.MarksInRange | include/itkSegmentBonesInMicroCTFilter.hxx:393-418 | a mark is 0 or the number of an already processed bone |
| SegmentFilter.MarksComeFromEarlierBones | include/itkSegmentBonesInMicroCTFilter.hxx:393-418 | a later bone is marked exactly when some processed earlier bone has it as an island |
| SegmentFilter.SkippedIffIslandOfEarlierBone | include/itkSegmentBonesInMicroCTFilter.hxx:295-299 | bone b is skipped exactly when a processed earlier bone found it inside its basin |
| SegmentFilter.BoneMask | include/itkSegmentBonesInMicroCTFilter.hxx:252-254 | the padded all-bones mask is on at labelled voxels of the image and off in the padding |
| SegmentFilter.Works | include/itkSegmentBonesInMicroCTFilter.hxx:300-449 | per bone, the regions, basin, partial input and morphology chain the loop body computes from the prepared inputs |
| SegmentFilter.BoxesInImage | include/itkSegmentBonesInMicroCTFilter.hxx:258-284 | the box of a present bone has ordered corners that lie in the image |
| SegmentFilter.TightLabels | include/itkSegmentBonesInMicroCTFilter.hxx:302-334 | the labels seen inside a bone's tight region stay within 0..numBones |
| SegmentFilter.ProcessBone | include/itkSegmentBonesInMicroCTFilter.hxx:289-493 | the imperative loop body advances the output and marks exactly as one recursive step |
| SegmentFilter.PerBoneLoop | include/itkSegmentBonesInMicroCTFilter.hxx:289-493 | the per-bone loop over bones 1..n computes the recursive run's output |
| SegmentFilter.RunBones | include/itkSegmentBonesInMicroCTFilter.hxx:289-493 | the loop's output is the per-bone fold over bones 1..n of the prepared work, so each voxel holds its prior value or a label of bones 1..n; with no bones the output is untouched |
| SegmentFilter.Prepare | include/itkSegmentBonesInMicroCTFilter.hxx:130-284 | the set-up before the loop yields the cortex from the measures, the signed distance map of the all-bones mask, and each bone's exact box, all inside the image |
| SegmentFilter.PreparedUnique | include/itkSegmentBonesInMicroCTFilter.hxx:130-284 | the prepared state is a function of the filter's inputs, so the fold the output is tied to is determined by them |
| SegmentFilter.Segment | include/itkSegmentBonesInMicroCTFilter.hxx:130-495 | as written: fails exactly above 85 bones; otherwise the output is the per-bone fold over all bones from whatever the output buffer held, so voxels outside every basin keep it |
| SegmentFilter.SegmentZeroed | include/itkSegmentBonesInMicroCTFilter.hxx:130-495 | with the output zero-filled, the output is the per-bone fold from a zero image, and every voxel of the image is background or a label of bones 1..n |
| SegmentExample.ParseArgs | examples/segmentBonesInMicroCT.cxx:528-591 | fewer than two arguments is a usage failure, and an argument `stod`/`stoul` cannot parse makes `main` fail; otherwise thickness defaults to 0.1, the debug level to 0 and the bone count to 255, and parsed counts are truncated to 32 bits |
| SegmentExample.ParseArgsDefaults | examples/segmentBonesInMicroCT.cxx:541-556 | with only the two file names the run uses thickness 0.1, debug level 0 and all 255 bones, whatever the parsers would say |
| SegmentExample.BoneCountWraps | examples/segmentBonesInMicroCT.cxx:544-556 | a bone count of 2^32 + k is stored as k, so 2^32 processes no bones |
| SegmentExample.LastBone | examples/segmentBonesInMicroCT.cxx:327 | the loop stops at the smaller of the found and the requested bone count |
| SegmentExample.WrittenAgree | examples/segmentBonesInMicroCT.cxx:494-513 | a voxel gets a whole label exactly when it gets a split label, and the whole label is the split label's bone |
| SegmentExample.CompositeAgree | examples/segmentBonesInMicroCT.cxx:482-517 | compositing one bone into both images keeps the whole image equal to the bone of the split image |
| SegmentExample.RunsAgree | examples/segmentBonesInMicroCT.cxx:326-523 | after any number of bones the whole-bone output is the bone decoding of the split output |
| SegmentExample.ProcessBoneDual | examples/segmentBonesInMicroCT.cxx:326-523 | one loop body updates both images exactly as the split and the whole recursive steps do |
| SegmentExample.DualLoop | examples/segmentBonesInMicroCT.cxx:326-523 | the loop computes both recursive runs with shared replacement marks |
| SegmentExample.ZeroAgrees | examples/segmentBonesInMicroCT.cxx:273-281 | two zero-filled images agree before the loop |
| SegmentExample.RunBonesDual | examples/segmentBonesInMicroCT.cxx:326-523 | both outputs are the split and whole-bone folds over bones 1..min(numBones, boneCount) from a zero image, so they cover the image, agree, and hold only background or labels of the processed bones |
| SegmentExample.MainProcessing | examples/segmentBonesInMicroCT.cxx:158-525 | fails exactly above 85 bones; otherwise the split and whole labellings are the folds over the processed bones of the prepared state, and agree voxel for voxel |
| SegmentLegacy.LegacyCortex | segmentBonesInMicroCT.cxx:175-221 | the original cortex: (sheetness or smoothed) and the 1500 threshold, over the image only |
| SegmentLegacy.LegacyCortexFromMeasures | segmentBonesInMicroCT.cxx:158-221 | the same in measured terms, with sheetness ≥ 0.2 and input ≥ 1500 |
| SegmentLegacy.TrabecularSeed | segmentBonesInMicroCT.cxx:248-260 | the seed is this bone's voxels outside the eroded cortex |
| SegmentLegacy.LegacyChain | segmentBonesInMicroCT.cxx:262-281 | the first dilation starts from the trabecular seed, and the marrow seed covers the whole image: exactly the bone's own voxels outside the eroded cortex together with the closed trabecular mask |
| SegmentLegacy.LegacyPriority | segmentBonesInMicroCT.cxx:294-306 | cortical only where the cortex lies on the bone's own voxels; else trabecular where dilated; else marrow |
| SegmentLegacy.LegacyCompositeAt | segmentBonesInMicroCT.cxx:283-309 | compositing writes over the whole image by the original rule, keeping the old value where nothing applies |
| SegmentLegacy.LegacyLaterBoneOverwrites | segmentBonesInMicroCT.cxx:283-309 | without island bookkeeping, the last bone that writes a voxel wins |
| SegmentLegacy.LegacyLabelsInRange | segmentBonesInMicroCT.cxx:239-311 | after bone k every voxel is initial or in 1..3k |
| SegmentLegacy.LegacyChains | segmentBonesInMicroCT.cxx:239-281 | bone j's marrow seed is its own voxels where the cortex, eroded by half a thickness, is not set, together with its closed trabecular mask |
| SegmentLegacy.LegacyLoop | segmentBonesInMicroCT.cxx:239-311 | the loop computes the recursive run |
| SegmentLegacy.LegacyProcessing | segmentBonesInMicroCT.cxx:150-313 | fails exactly above 85 bones; otherwise every voxel of the image is 0 or in 1..3n |
| Text.SplitLines | src/hasi/mouse_femur_tibia_ct_morphometry.py:41 | splitting a file into lines loses nothing: the lines rejoin to the file, only the last may lack a newline, and it does so exactly when the file does not end in one |
| Text.SplitJoin | src/hasi/mouse_femur_tibia_ct_morphometry.py:41 | joining well-formed lines and splitting again gives the lines back |
| Text.SplitJoinWith | examples/normalizedPoseMesh.cxx:114-120 | splitting at a delimiter gives fields free of it, one more than its occurrences, that rejoin to the text |
| Fiducials.ClassifyFrame | examples/normalizedPoseMesh.cxx:96-104 | RAS exactly for "RAS" or a trailing 0; else LPS for "LPS" or a trailing 1; IJK (or 2) is rejected as unsupported, anything else as unrecognised |
| Fiducials.SlicerHeaders | src/hasi/mouse_femur_tibia_ct_morphometry.py:45-52 | both header spellings Slicer writes ("RAS", "= 0", ...) classify as intended |
| Fiducials.ToLps | examples/normalizedPoseMesh.cxx:127-128 | RAS points are converted to LPS by negating x and y; LPS points are unchanged |
| Fiducials.ToLpsInvolution | src/hasi/mouse_femur_tibia_ct_morphometry.py:63-64 | converting twice returns the original point |
| Fiducials.CppTail | examples/normalizedPoseMesh.cxx:94 | the last three characters of the frame line; a line shorter than three is rejected |
| Fiducials.CppColumns | examples/normalizedPoseMesh.cxx:117-129 | columns 1..3 fill x, y, z (signed by frame); a missing column leaves its coordinate unset |
| Fiducials.CppDataCount | examples/normalizedPoseMesh.cxx:108-132 | the C++ data loop yields one point per terminated line and drops an unterminated last line |
| Fiducials.CppDataPrefix | examples/normalizedPoseMesh.cxx:107-132 | the points read are all the data lines' points, or all but the last when it is unterminated |
| Fiducials.CppFrame | examples/normalizedPoseMesh.cxx:93-104 | the frame is read from the second line's tail and fails as that tail's classification fails |
| Fiducials.ReadCppLines | examples/normalizedPoseMesh.cxx:85-134 | the C++ reader fails exactly when the frame does, with its error |
| Fiducials.CppDropsUnterminatedLastLine | examples/normalizedPoseMesh.cxx:107-132 | the C++ reader loses the last point when the file does not end in a newline, and otherwise reads every data line |
| Fiducials.ReadCppFixedLines | examples/normalizedPoseMesh.cxx:107-132 | the corrected reader yields one point per data line, terminated or not |
| Fiducials.AllPoints | examples/normalizedPoseMesh.cxx:113-130 | every data line parsed, in order |
| Fiducials.FileLinesOfFile | src/hasi/mouse_femur_tibia_ct_morphometry.py:41 | a file's lines are well formed, and the last is unterminated exactly when the file lacks a final newline |
| Fiducials.PyTail | src/hasi/mouse_femur_tibia_ct_morphometry.py:44 | `line[-4:-1]` is the three characters before the last one (fewer for short lines) |
| Fiducials.TailsAgree | src/hasi/mouse_femur_tibia_ct_morphometry.py:44 | on a terminated line Python's `[-4:-1]` slice is the C++ last-three tail |
| Fiducials.SplitAtMostPrefix | src/hasi/mouse_femur_tibia_ct_morphometry.py:59 | `split(',', 4)` gives at most five fields, and all but the last agree with the full split |
| Fiducials.PyColumns | src/hasi/mouse_femur_tibia_ct_morphometry.py:61-64 | Python fails unless columns 1..3 exist and parse; then they are the signed coordinates |
| Fiducials.ColumnsAgree | src/hasi/mouse_femur_tibia_ct_morphometry.py:61-64 | on well-formed fields the Python and C++ columns give the same point |
| Fiducials.Collect | src/hasi/mouse_femur_tibia_ct_morphometry.py:58-65 | the list comprehension succeeds exactly when each line does; otherwise the first failure propagates |
| Fiducials.PointsAgree | src/hasi/mouse_femur_tibia_ct_morphometry.py:58-65 | each well-formed data line gives the same point in both readers |
| Fiducials.ReadPyLines | src/hasi/mouse_femur_tibia_ct_morphometry.py:39-67 | Python fails with IndexError on too short a file, propagates a bad frame, and otherwise reads every data line |
| Fiducials.PyFields | src/hasi/mouse_femur_tibia_ct_morphometry.py:59-62 | with or without the line's newline, the coordinate fields of `split(',', 4)` are those of the full split |
| Fiducials.DataAgree | src/hasi/mouse_femur_tibia_ct_morphometry.py:57-65 | on well-formed data both readers parse the same points |
| Fiducials.FramesAgree | src/hasi/mouse_femur_tibia_ct_morphometry.py:44-52 | both readers classify the same frame |
| Fiducials.FixedReaderAgrees | src/hasi/mouse_femur_tibia_ct_morphometry.py:39-67 | the Python reader equals the corrected C++ reader on every well-formed file |
| Fiducials.ReadersAgree | src/hasi/mouse_femur_tibia_ct_morphometry.py:39-67 | on a newline-terminated file the Python and C++ readers agree exactly |
| Fiducials.PythonReadsOneMore | src/hasi/mouse_femur_tibia_ct_morphometry.py:57-67 | on a file without a final newline Python reads one point more than C++ |
| Landmarks.SetCenter | registerAndTransferLabels.cxx:189-192 | setting the centre keeps matrix and translation and recomputes the offset |
| Landmarks.SetTranslation | registerAndTransferLabels.cxx:189-192 | setting the translation keeps centre and matrix |
| Landmarks.SetMatrix | registerAndTransferLabels.cxx:364-367 | setting the matrix keeps centre and translation |
| Landmarks.SetOffset | src/hasi/mouse_femur_tibia_ct_morphometry.py:150-153 | setting the offset keeps centre and matrix and recomputes the translation |
| Landmarks.RequireThree | registerAndTransferLabels.cxx:174-175 | registration needs exactly three landmarks on each side; the first failing check names the offending list |
| Landmarks.Pin | registerAndTransferLabels.cxx:189-192 | the pinned transform is centred on the first fixed landmark and translates it to the first moving one |
| Landmarks.PinMapsFirstLandmark | registerAndTransferLabels.cxx:189-192 | the pinned transform maps the first fixed landmark exactly onto the first moving landmark |
| Landmarks.PinRotatesAboutFirstLandmark | registerAndTransferLabels.cxx:189-192 | around that pair the pinned transform acts as the initial rotation |
| Landmarks.InputToAtlas | include/itkLandmarkAtlasSegmentationFilter.hxx:51-69 | the landmark step of the filter and of `registerAndTransferLabels.cxx` (lines 172-192, the same steps on the lists it reads): input landmarks fixed, exactly three on each side, and the first input landmark mapped onto the first atlas landmark |
| Landmarks.AtlasToInput | examples/registerAndTransferLabels.cxx:172-192 | with the atlas as the fixed side, the first atlas landmark maps onto the first input landmark |
| Landmarks.RegisterLandmarks | src/hasi/mouse_femur_tibia_ct_morphometry.py:80-94 | lists of different lengths fail in the initializer ("Different number of fixed and moving landmarks") and two empty lists raise `IndexError`; otherwise the result maps the first atlas landmark onto the first input landmark |
| Landmarks.RoleOrdersSwapFirstLandmarks | examples/registerAndTransferLabels.cxx:182-192 | the two programs pin opposite directions of the same landmark pair |
| Landmarks.AffineFromRigid | registerAndTransferLabels.cxx:364-367 | the affine initialisation copies the rigid centre, matrix and translation |
| Landmarks.AffineFromRigidByOffset | src/hasi/mouse_femur_tibia_ct_morphometry.py:150-153 | the script's initialisation copies centre, matrix and offset |
| Landmarks.AffineMapsLikeRigid | registerAndTransferLabels.cxx:364-367 | both initialisations give the same affine, which maps every point as the rigid transform does |
| Landmarks.Compose | src/hasi/mouse_femur_tibia_ct_morphometry.py:117-120 | `Compose(other)` keeps the centre and multiplies the matrices |
| Landmarks.ComposeMaps | src/hasi/mouse_femur_tibia_ct_morphometry.py:117-120 | the composed transform applies the first transform, then the other |
| Landmarks.InverterMirrors | src/hasi/mouse_femur_tibia_ct_morphometry.py:72-77 | the inverter mirrors z and is its own inverse |
| Landmarks.LateralityDiffers | src/hasi/mouse_femur_tibia_ct_morphometry.py:117 | the sides differ exactly when the names' last letters differ; an empty name is an IndexError |
| Landmarks.PoseToCase | src/hasi/mouse_femur_tibia_ct_morphometry.py:109-153 | the pose-to-case transform exists exactly when the two landmark lists are non-empty and of equal length and both names are non-empty; lists of different lengths fail in the initializer |
| Landmarks.PoseToCaseFirstLandmark | src/hasi/mouse_femur_tibia_ct_morphometry.py:112-120 | the case's first landmark lands on the pose's first landmark, mirrored in z when the case is the other side |
| Landmarks.ScalesFollowLayout | registerAndTransferLabels.cxx:313-333 | the optimiser scales weight exactly the translation parameters (3..5 rigid, 9..11 affine) by the spacing-based scale, all others by 1 |
| Landmarks.BSplineScales | registerAndTransferLabels.cxx:441-445 | every B-spline parameter has scale 1 |
| LabelTransfer.SelectLabels | registerAndTransferLabels.cxx:204-239 | the selected labels of a bone are 1 exactly where the shifted label is in 1..howMany and 0 elsewhere; a region outside the label image fails |
| LabelTransfer.SelectionMeaning | registerAndTransferLabels.cxx:274-276 | selecting 3 labels picks bone 1's three tissues; selecting 255 picks every labelled voxel |
| LabelTransfer.DistanceProxy | registerAndTransferLabels.cxx:252-268 | in the bone region, every voxel outside the bone (negative distance, since the map counts inside as positive) takes the distance times 1024; every other voxel keeps its intensity |
| LabelTransfer.ProxyOrdersOutside | registerAndTransferLabels.cxx:259-265 | outside the bone the proxy keeps the order of distances, so farther from the bone is darker, and every such voxel is negative |
| LabelTransfer.PerBoneProcessing | include/itkLandmarkAtlasSegmentationFilter.hxx:81-147 | the per-bone step of the filter and of `registerAndTransferLabels.cxx` (lines 204-271, the same code): it fails as the label selection does; otherwise the distance map is that of the labels 1 to `howManyLabels` in the bone region, and only voxels outside the bone (negative distance) are replaced by 1024 times their distance |
| LabelTransfer.PoseCrop | examples/normalizedPoseMesh.cxx:178-192 | foreground beyond the cut plane (x > 2.5 in the pose frame) becomes background; everything else is kept |
| LabelTransfer.PoseCropForeground | examples/normalizedPoseMesh.cxx:178-192 | the crop keeps exactly the foreground on the near side of the plane, and cropping twice changes nothing |
| CaseLists.Insert | src/hasi/mouse_femur_tibia_ct_morphometry.py:34-35 | inserting into a sorted list keeps it strictly sorted and adds exactly the new name |
| CaseLists.SortedDistinct | src/hasi/mouse_femur_tibia_ct_morphometry.py:34-35 | `sorted(set(...))` is strictly sorted with the same names |
| CaseLists.SortedUnique | src/hasi/mouse_femur_tibia_ct_morphometry.py:34-35 | two strictly sorted lists with the same names are equal |
| CaseLists.SplitExtRoot | src/hasi/mouse_femur_tibia_ct_morphometry.py:30 | `splitext` keeps a prefix of the name |
| CaseLists.Stem | src/hasi/mouse_femur_tibia_ct_morphometry.py:31 | the stem is a prefix of the name |
| CaseLists.NoDot | src/hasi/mouse_femur_tibia_ct_morphometry.py:31 | a name without a dot is its own stem |
| CaseLists.Matching | src/hasi/mouse_femur_tibia_ct_morphometry.py:28-32 | the case names are exactly those of entries with the extension |
| CaseLists.SortedFileList | src/hasi/mouse_femur_tibia_ct_morphometry.py:26-36 | the case list is strictly sorted and holds exactly the case names of matching files |
| CaseLists.CaseNameOfOneExtension | src/hasi/mouse_femur_tibia_ct_morphometry.py:30-31 | a file named stem + "." + extension (such as `907-L.nrrd` or `907-L.fcsv`) names case stem, so a case's data and landmark files pair up |
| CaseLists.CaseNameOfTwoExtensions | src/hasi/mouse_femur_tibia_ct_morphometry.py:30-31 | a doubly suffixed file (such as `907-L.seg.nrrd`) loses both extensions and names the same case |
| CaseLists.RemoveFirst | src/hasi/mouse_femur_tibia_ct_morphometry.py:246 | `list.remove` drops one element and keeps every other |
| CaseLists.RemoveSorted | src/hasi/mouse_femur_tibia_ct_morphometry.py:246-255 | removing from a strictly sorted list keeps it sorted and removes the name entirely |
| CaseLists.ValidateCases | src/hasi/mouse_femur_tibia_ct_morphometry.py:241-262 | a missing atlas image or pose landmarks stops the run with its message; otherwise the cases are the data list without the atlas |
| CaseLists.ValidateMeaning | src/hasi/mouse_femur_tibia_ct_morphometry.py:257-262 | the script proceeds exactly when atlas and pose are present and every other case has both image and landmarks |
| CaseLists.Dispatch | src/hasi/mouse_femur_tibia_ct_morphometry.py:312-323 | five arguments run one case (failing if the label is not an integer), none runs all cases, anything else prints usage |
| CaseLists.ChildProcessesItsCase | src/hasi/mouse_femur_tibia_ct_morphometry.py:303-314 | the child command line the parent builds makes the child process exactly that case |
| MeshAlign.WidenAll | src/hasi/hasi/align.py:39-44 | the running bounds enclose every box seen, and each bound comes from one of them |
| MeshAlign.BoundsUnion | src/hasi/hasi/align.py:36-44 | the union of mesh bounds encloses every mesh and is attained on every axis; no meshes fails |
| MeshAlign.GridFromBounds | src/hasi/hasi/align.py:46-54 | a 100-voxel identity grid whose voxels 5 and 95 sit on the bounds |
| MeshAlign.GridFromBoundsMargin | src/hasi/hasi/align.py:46-54 | the derived grid keeps a five-voxel margin on each side |
| MeshAlign.MeshToImage | src/hasi/hasi/align.py:24-74 | every mesh is rendered on one common grid, a single mesh gives a single image, and an empty mesh list fails with `IndexError`, even with a reference, because the first mesh is read before the reference |
| MeshAlign.DerivedGridEnclosesMeshes | src/hasi/hasi/align.py:36-53 | without a reference, every mesh lies inside the margin of the derived grid |
| MeshAlign.Nearest | src/hasi/hasi/align.py:128-130 | the nearest target point is at least as close as every other |
| MeshAlign.ResampleTemplate | src/hasi/hasi/align.py:113-132 | each template point moves to its nearest target point, with the template's cells |
| MeshAlign.ResampleOnTarget | src/hasi/hasi/align.py:113-132 | a template already on the target is left in place |
| MeshAlign.CommonSize | src/hasi/hasi/align.py:148-151 | the common size is at least every image's size on each axis |
| MeshAlign.CommonSizeIsTight | src/hasi/hasi/align.py:148-151 | each axis of the common size is some image's size on that axis |
| MeshAlign.PasteToCommonSpace | src/hasi/hasi/align.py:136-167 | every image is pasted at the origin of a common-size image with its own spacing; no image or mismatched spacing fails |
| MeshAlign.ShrunkSize | src/hasi/hasi/align.py:177 | `int(size / ratio)`: the largest voxel count that fits the shrunk extent |
| MeshAlign.Downsample | src/hasi/hasi/align.py:171-183 | each image shrinks by the ratio, with spacing scaled up; a ratio of at most 1 fails |
| MeshAlign.Shrink | src/hasi/hasi/align.py:175-182 | one image shrinks by the ratio with its origin kept |
| MeshAlign.MeanCorrespondence | src/hasi/hasi/align.py:230-258 | the mean shape is the Procrustes mean points with the first mesh's cells; an empty or non-corresponding set fails |
| MeshAlign.Hausdorff | src/hasi/hasi/align.py:262-271 | the distance is the largest pointwise distance over the corresponding points, and it is attained |
| MeshSampling.BaseRegister | src/hasi/hasi/meshtomeshregistrar.py:51-53 | the base registrar always raises NotImplementedError |
| MeshSampling.RandomlySample | src/hasi/hasi/meshtomeshregistrar.py:111-129 | a rate above 1 fails; otherwise the least number of distinct mesh points reaching the rate |
| MeshSampling.Draw | src/hasi/hasi/meshtomeshregistrar.py:115-127 | the draw loop picks distinct points until the wanted count is first reached |
| MeshSampling.SampleSizeExtremes | src/hasi/hasi/meshtomeshregistrar.py:119 | rate 1 takes every point and rate 0 none |
| MeshSampling.RegistrarMeshToImage | src/hasi/hasi/meshtomeshregistrar.py:56-107 | every mesh is rendered on one common grid; an empty list with a reference gives no images, and only an empty list without one raises `IndexError` |
| MeshSampling.RegistrarMeshToImageDiffers | src/hasi/hasi/meshtomeshregistrar.py:64-107 | on any non-empty mesh list the registrar's rasterisation equals the alignment helper's; on an empty one with a reference it returns no images where the helper raises |
| PointFeatures.KeptIds | src/hasi/hasi/classify.py:36-38 | the kept points are exactly the indices divisible by the step, increasing |
| PointFeatures.KeptIdsAreMultiples | src/hasi/hasi/classify.py:36-38 | the j-th kept index is j·step, and they cover the mesh |
| PointFeatures.KeptCount | src/hasi/hasi/classify.py:36-38 | a mesh of n points keeps ⌈n/step⌉ of them |
| PointFeatures.StepOneKeepsAll | src/hasi/hasi/classify.py:30-38 | a step of 1 keeps every point |
| PointFeatures.Flatten | src/hasi/hasi/classify.py:39 | flattening lays points out as x, y, z triples in order |
| PointFeatures.MakePointFeatures | src/hasi/hasi/classify.py:30-45 | one row per mesh from its kept points; no meshes gives None; a bad step or unequal counts fails |
| PointFeatures.GetDistances | src/hasi/hasi/classify.py:47-52 | each distance is the row's inner product with the direction plus the intercept; a length mismatch fails |
| PointFeatures.DistanceIsProjection | src/hasi/hasi/classify.py:50 | the distance of a flattened row is the sum of per-point projections on the direction's blocks |
| SelectionPool.NewPool | www/src/state/scan-selections.ts:13-16 | a new pool has no selections and every palette colour free |
| SelectionPool.NewPoolValid | www/src/state/scan-selection.ts:12-15 | a new pool satisfies the pool invariant |
| SelectionPool.FindIndex | www/src/state/scan-selections.ts:18-20 | the first selection with the id, or none exactly when no selection has it |
| SelectionPool.Get | www/src/state/scan-selections.ts:61-67 | a selection with the id exactly when the pool has it |
| SelectionPool.Remove | www/src/state/scan-selections.ts:39-50 | removing drops the first selection with the id and frees its colour; an absent id changes nothing |
| SelectionPool.RemoveKeepsValid | www/src/state/scan-selection.ts:32-43 | removing keeps pairwise-distinct ids distinct, shortens the list by one exactly when the id was present, and keeps every palette colour either free or in use exactly once |
| SelectionPool.Add | www/src/state/scan-selections.ts:22-37 | adding puts the id first with the last free colour, evicting the oldest selection when full |
| SelectionPool.AddKeepsValid | www/src/state/scan-selections.ts:22-37 | adding keeps the invariant, never exceeds the palette, and colours the new selection |
| SelectionPool.ToggleKeepsValid | www/src/state/scan-selection.ts:48-49 | toggling keeps the invariant |
| SelectionPool.ToggleFlips | www/src/state/scan-selections.ts:55-59 | toggling flips whether the id is selected |
| SelectionPool.AddEvictsOldest | www/src/state/scan-selections.ts:26-29 | adding to a full pool drops the oldest selection and keeps the rest in order |
| SelectionPool.CompareMeaning | www/src/state/scan-selections.ts:69-70 | `compare` on selections with distinct ids is equality of their id sets |
| SelectionPool.CompareSymmetric | www/src/state/scan-selections.ts:69-70 | on distinct ids `compare` is symmetric |
| SelectorControl.Subscribe | www/src/utils/select-controller.ts:43-49 | subscribing adds one fresh live subscription |
| SelectorControl.Unsubscribe | www/src/utils/select-controller.ts:56-58 | unsubscribing removes exactly that subscription |
| SelectorControl.GetSnapshot | www/src/utils/select-controller.ts:10-18 | the snapshot is the actor's own `getSnapshot()`, else its `state`, else undefined |
| SelectorControl.Connect | www/src/utils/select-controller.ts:32-50 | the controller selects from the current snapshot and holds one new subscription |
| SelectorControl.Emit | www/src/utils/select-controller.ts:43-49 | an emission replaces the value and requests an update exactly when the subscription is live and `compare` calls the values different |
| SelectorControl.Disconnect | www/src/utils/select-controller.ts:56-58 | disconnecting ends exactly the controller's subscription |
| SelectorControl.TracksLatest | www/src/utils/select-controller.ts:20-49 | with equality as the comparison, the controller ends holding the value selected from the latest emission |
| SelectorControl.DisconnectedIsSilent | www/src/utils/select-controller.ts:56-58 | after disconnecting, no emission changes the controller or requests an update |
| SelectorControl.SameAlwaysKeeps | www/src/utils/select-controller.ts:43-49 | while `compare` calls every new value the same, the controller keeps its value and never requests an update |
| SelectStates.CompareArraysIsEquality | www/src/utils/select-state.ts:75-76 | under plain equality `compareArrays` is array equality |
| SelectStates.CompareArraysReflexiveSymmetric | www/src/utils/select-state.ts:75-76 | `compareArrays` is reflexive where entries equal themselves, and symmetric where `===` is |
| SelectStates.CompareObjectsSameKeys | www/src/utils/select-state.ts:78-84 | objects `compareObjects` calls equal have the same keys |
| SelectStates.CompareObjectsSymmetric | www/src/utils/select-state.ts:78-84 | `compareObjects` is symmetric where the value comparison is |
| SelectStates.CompareObjectsIsEquality | www/src/utils/select-state.ts:78-84 | under plain equality `compareObjects` is equality of the objects |
| SelectStates.Value | www/src/utils/select-state.ts:57-59 | the selected value of the current controller, undefined before the first connection |
| SelectStates.HostDisconnected | www/src/utils/select-state.ts:52-55 | disconnecting leaves no live subscription |
| SelectStates.HostConnected | www/src/utils/select-state.ts:38-50 | however often the host connects, exactly the current controller's subscription is live, and its value comes from the service's snapshot; no service throws |
| SelectStates.ConnectState | www/src/utils/select-state.ts:62-73 | a fresh state has no value |
| SelectControl.OnUpdate | www/src/SelectController.ts:34-39 | every update stores the new value, and a re-render is requested when there was none or `compare` calls them different |
| SelectControl.HostConnected | www/src/SelectController.ts:41-46 | with a service, one new subscription is stored; without one, the stored unsubscribe is cleared |
| SelectControl.HostDisconnected | www/src/SelectController.ts:48-51 | disconnecting ends the stored subscription, if any |
| SelectControl.ConnectThenDisconnect | www/src/SelectController.ts:41-51 | connecting then disconnecting leaves the subscriptions as they were |
| SelectControl.ReconnectKeepsFirstSubscription | www/src/SelectController.ts:41-46 | connecting twice without a disconnect leaks the first subscription |
| SelectControl.SameRequestsAsSelector | www/src/SelectController.ts:34-39 | once both hold a value, the two controllers request updates on the same emissions |
| UploadStages.IndexOf | www/src/upload-scans.ts:22-28 | `indexOf`: the first position of the stage, or -1 exactly when absent |
| UploadStages.ProgressStage | www/src/upload-scans.ts:22-28 | the next stage is always a stage; a value that is not a stage restarts at the first |
| UploadStages.StagesCycle | www/src/upload-scans.ts:22-28 | pick, preview and progress follow each other in a cycle of three |
| UploadStages.StageTag | www/src/upload-scans.ts:30-33 | the rendered component is the stage's own tag, and exists exactly for a stage |
| PlotStore.InitialParameters | www/src/plot.store.ts:1-4 | both biomarker parameters start empty, and there are no others |
| PlotStore.SetParameter | www/src/plot.store.ts:8-10 | setting a parameter changes that one and keeps every other |
| PlotStore.SetParameterAlgebra | www/src/plot.store.ts:8-10 | the last write wins, writes to different parameters commute, and the parameter set is kept |
| ScanTable.RowCount | www/src/scan-table.ts:28-30 | the body has a fixed large row count; every header region has one row |
| ScanTable.ColumnCount | www/src/scan-table.ts:32-34 | the body has one column per scan field; every other region has one |
| ScanTable.IntRoundTrip | www/src/scan-table.ts:36-47 | a row or column number written into a cell can be read back |
| ScanTable.Data | www/src/scan-table.ts:36-47 | the corner is empty and only the corner; a column header shows its field name, or "undefined" past the fields |
| ScanTable.DataNamesCell | www/src/scan-table.ts:36-47 | body and row-header cells name their own row and column, so different cells never show the same text |
| ScanTable.HeaderHandle | www/src/scan-table.ts:100-139 | a header hit within 5 px of the near edge or 6 px of the far edge selects that resize handle, left and right before top and bottom |
| ScanTable.ResizeHandleForHitTest | www/src/scan-table.ts:85-152 | headers use the edge rule, body and void never resize, an unknown region throws "unreachable" |
| ScanTable.BodySelection | www/src/scan-table.ts:296-324 | a body click extends from the cursor with shift, adds with the accelerator key, and otherwise replaces the selection |
| ScanTable.OnMouseDown | www/src/scan-table.ts:206-487 | a row-header click sends its cell to the service and fails without one; a click on an unknown region throws "unreachable" from the resize-handle test; a void click is ignored; a body click selects |
| ScanTable.ResizeTargetsExistingSection | www/src/scan-table.ts:339-386 | a header press resizes exactly when it is on a handle, and then a section at or before the hit |
| ScanTable.RowHeaderPressSends | www/src/scan-table.ts:252-259 | with a service, a row-header press always succeeds |

## Left out

- The ITK and VTK filters themselves are parameters or precomputed inputs. This covers signed Maurer distance maps, recursive Gaussian smoothing, the Hessian-based Descoteaux sheetness, connected components and relabelling, hole filling, confidence-connected region growing, the median filter, resampling, and rasterising a mesh. Each is an external library whose numerics cannot be stated here.
- The rigid, affine and B-spline registrations and their optimisers are left out as numerical library code. So are the elastix/transformix calls and the Procrustes alignment. Only their inputs are modelled: initial transforms, pinning, parameter layout and scales.
- Floating point is left out: intensities, distances and coordinates are exact reals.
  - The average spacing's cube root is a parameter.
  - The distance proxy's `dist * 1024` is stored as a real, not as the image's pixel type.
- Image and mesh reading and writing, mesh extraction (cuberille), progress reporting, multithreading, timing and debug writes are I/O.
- The morphometry script's per-case feature computations and plotting are left out. The stand-alone programs' `main` argument handling is also left out, except for the example segmenter's.
- `classify.py`'s plotting helpers (`densityplot`, `density_by`) draw charts only.
- Python reads files with universal newlines. A lone carriage return is not modelled as a line break.
- `SegmentExample.ParseArgs`: how `std::stod` and `std::stoul` read digits, signs, leading whitespace and trailing text is not modelled. They are the parameters `stod` and `stoul`, and `None` stands for the exception they throw.
- `SegmentFilter.Prepare`: `label_bounding_box`/region-of-interest cropping of the input before segmentation is not part of this model. The filter works on the whole image region it is given.
- The filter's pinning code in `include/itkLandmarkAtlasSegmentationFilter.hxx` names locals that are not declared there (`inputLandmarks`, `atlasLandmarks`). It is modelled as pinning the filter's own landmark members, as `registerAndTransferLabels.cxx` does.
- `Fiducials.CppColumns`: with only three commas the C++ reader leaves z at whatever the point held. That value is the `unset` parameter.
- `MeshAlign.PasteToCommonSpace`: the common image's padding is whatever `Allocate()` left, modelled as the `uninit` parameter. Its spacing check `spacing[k] - spacing[0] < 1e-7` is one-sided, and the model keeps it one-sided (`SpacingAgrees`): an image whose spacing is smaller than the first's by any amount passes.
- `MeshAlign.Hausdorff` requires a non-empty first mesh and a second mesh at least as long. Python raises on those inputs (`max` of nothing, an index past the end), and those error paths are not modelled.
- `MeshAlign.Nearest`: a kd-tree query's tie-breaking is not modelled. The model takes the first closest point.
- `resample_template_from_target` in `meshtomeshregistrar.py` overwrites the caller's template mesh in place. The model has value semantics, so that the caller's mesh also changes is not modelled; the points it computes are those of `MeshAlign.ResampleTemplate`.
- `MeshSampling.RandomlySample`: which points the random draws pick is not modelled, only that they are distinct and how many there are. The draw is a nondeterministic choice.
- `Landmarks.RegisterLandmarks`: ITK's `LandmarkBasedTransformInitializer` is not part of this model. Its check that the fixed and moving lists have the same length is modelled; the rotation it fits is the `init` parameter.
- `Landmarks.PoseToCase` states only where the first landmark lands. The rest of the landmark fit is the Procrustes step left out above.
- `SelectStates.CompareObjects` compares own enumerable string keys only; symbols and prototype properties are not modelled. `compareArrays` treats array holes as their values.
- `ScanTable.OnMouseDown` leaves out the following lumino grid details:
  - merged-cell joins when a header selection extends;
  - the renderer configuration;
  - cursor overrides;
  - mouse capture and the move/up handlers.
- The lit and ContextConsumer lifecycle is reduced to explicit calls of `hostConnected` and `hostDisconnected` on a hub of subscription ids.

## Findings

| source | as written | input that shows it | evidently intended | confidence | as-written member | corrected member |
|---|---|---|---|---|---|---|
| include/itkSegmentBonesInMicroCTFilter.hxx:132-241 | the output is allocated by `AllocateOutputs()` and never zero-filled, so voxels that no bone's basin covers keep uninitialised memory (the example and original programs use `Allocate(true)`) | any image with a voxel outside every bone's basin, e.g. no bones at all: the output equals the uninitialised buffer | the output is background (0) wherever no bone writes | not executed | SegmentFilter.Segment | SegmentFilter.SegmentZeroed |
| examples/normalizedPoseMesh.cxx:107-132 | the data loop drops the last line when the file does not end in a newline (the same reader is copied into both `registerAndTransferLabels.cxx` programs) | three header lines, then `A,1,2,3,x\nB,4,5,6,x` with no final newline: one point is read instead of two | every data line is a point, as the Python reader has it | not executed | Fiducials.CppDropsUnterminatedLastLine | Fiducials.ReadCppFixedLines |
