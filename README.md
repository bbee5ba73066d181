# Schedule-to-animation pipeline, modelled in Dafny

This project models the two programs of a 4D construction-schedule visualiser.

- **Schedule compiler** (`main.py`). It picks the schedule CSV files to process. For each file it:
  - optionally keeps only the rows under one WBS node and reroots their WBS paths at that node;
  - colours categorical runs (Company, ActivityType) from an evenly spaced hue palette over the sorted distinct categories;
  - rejects rows whose End precedes their Start;
  - shifts all times so that the run's earliest Start is frame 0, at one frame per schedule unit.

  It also writes the legacy per-camera concat manifest, which gives every frame a constant duration.
- **Animation driver** (`render_animation.py`, run inside Blender). It:
  - binds every hand-off row to the scene object named by its Activity, keeping one entry per name;
  - hides those objects at frame 0;
  - gives each object's first material slot a material of its own, copying the material when it has more than one user (copy-on-write), then keys the object visible at the row's Start Frame and the material's base colour around Start and End;
  - renders one still per event frame (every distinct Start or End Frame, in increasing order) to `frame_NNNN.png`;
  - writes an ffmpeg concat manifest whose durations are the gaps between consecutive event frames at the scene's 10 fps.

The modules are:

- `Outcomes`: Option and Result.
- `Strings`: Python's `split`/`join`, ASCII `lower`, `endswith`, `os.path.join`, code-point `sorted`, and first-occurrence dedup.
- `Frames`: the `frame_{n:04d}.png` names, the compiler's parse of them, and the manifest line type.
- `Schedule`: the compiler.
- `Animation`: the driver. It holds a `Scene` class whose object map, material map, frame cursor and render log are updated in place.

Python semantics followed throughout:

- `split` keeps empty fields.
- `list.index` finds the first occurrence.
- A dict comprehension keeps the last write for a key.
- `format(n, "04d")` puts the sign inside the width.
- `int()` accepts an optional sign.
- `/` on the manifest durations is exact division on `real`.

Blender's `keyframe_insert` is a map update in which the last write at a frame wins. A material's `users` is an abstract count. The scene invariant says that no material has fewer users than the objects holding it in their first slot.

Behaviour of the code worth noting:

- **Missing colour columns.** In Simple, WBS and Heatmap runs the model's compiler emits no colour. The code writes no `Color_*` columns in Simple and WBS runs, so the driver's `row["Color_R"]` (render_animation.py:56) then raises `KeyError`. The driver's `Row` always carries a colour, so that failure is not modelled.
- **Missing objects.** Binding stops at the first missing object and its error names only that one (render_animation.py:64-69).
- **Legacy manifest paths.** The legacy manifest loop (main.py:281-318) looks for `<run_dir>/<camera>/frames`. The driver renders into `<run_dir>/frames` and deletes that directory after encoding (render_animation.py:187). As written, the loop never finds frames. `Schedule.WriteLegacyManifest` models what the loop would write if it found them.
- **Visibility after End.** Visibility is never keyed back to hidden after End, and `hide_viewport` is never keyed false.
- **Zero-length activities.** For an activity with Start == End, the colour key lands on Start−1 and the key at Start is neutral (stated by `Animation.ColorScheduleSpec`).

## Model

| member | source | states |
|---|---|---|
| Schedule.CsvPaths | main.py:79-81 | the generated paths are exactly the directory entries whose lower-cased name ends in `.csv`, joined to the directory |
| Schedule.CsvPathsCount | main.py:79-81 | each `.csv` entry's joined path occurs as many times as the entry does in the listing |
| Schedule.SortedCsvPaths | main.py:78-82 | the chosen paths are sorted, a permutation of the generated ones, exactly the `.csv` entries, and empty iff no entry is a `.csv` name |
| Schedule.DiscoverSchedules | main.py:71-88 | a file input succeeds iff its name ends in `.csv` (and yields just that path); a directory input fails iff it has no `.csv` entry, otherwise yields them sorted; anything else fails |
| Schedule.FilterWbs | main.py:106-110 | every kept row has `top` as a whole `.`-separated segment of its WBS |
| Schedule.FilterWbsCount | main.py:106-110 | keeps exactly the rows, with their multiplicity, whose WBS has `top` as a whole `.`-separated segment |
| Schedule.FilterWbsOne | main.py:106-110 | a single row is kept iff `top` is one of its WBS segments |
| Schedule.FilterWbsCons | main.py:110 | filtering a row followed by more rows gives that row's own result followed by the filtered rest |
| Schedule.FilterWbsAppend | main.py:110 | the mask keeps input order: filtering a concatenation concatenates the filtered parts |
| Schedule.SubstringIsNotASegment | main.py:107-109 | a substring is not enough: "1" does not select "A.10" |
| Schedule.RerootAll | main.py:119-121 | one row per input row, every column but the WBS kept, the WBS replaced by its rerooted path |
| Schedule.RerootWbs | main.py:114-117 | rerooting succeeds iff the root is a segment (otherwise `parts.index` raises) |
| Schedule.RerootWbsSpec | main.py:114-121 | the result's segments are the path's segments from the first occurrence of the root on; its first segment is the root, no earlier segment is the root, it is a suffix of the path, and the path is the dropped prefix, a dot and the result |
| Schedule.RerootWbsIdempotent | main.py:114-117 | rerooting a rerooted path changes nothing |
| Schedule.SelectRows | main.py:103-121 | with no `top_wbs` the rows are unchanged; otherwise exactly the filtered rows, in order, each keeping every column but its WBS, which is the rerooted path and starts with the root segment |
| Schedule.SelectRowsIgnoresOrder | main.py:103-121 | permuting the input rows does not change which rows are selected |
| Schedule.Hue | main.py:131 | the hue h of index i of n satisfies h·n = i and lies in [0, 1) |
| Schedule.HueIncreases | main.py:131 | hues strictly increase with the index |
| Schedule.Palette | main.py:128-135 | exactly n entries, the i-th with hue i/n in [0,1), saturation 0.8 and value 0.9, hues strictly increasing |
| Schedule.GeneratePalette | main.py:128-137 | the appending loop builds exactly `Palette(n)` |
| Schedule.PaletteOfTwo | main.py:128-135 | two categories get hues 0 and 1/2 |
| Schedule.Categories | main.py:125 | sorted, duplicate-free, and holding exactly the categories some row carries |
| Schedule.ColorDictionary | main.py:139-142 | the keys are exactly the categories, and each key's last occurrence determines its palette entry |
| Schedule.CategoryColorOfRow | main.py:181-186 | every row's category is in the colour map, mapped to the palette entry (hue index/n) at its index among the sorted categories |
| Schedule.CategoryColorsDependOnlyOnCategorySet | main.py:124-142 | row sets with the same categories get the same category list and the same colour map |
| Schedule.TwoCategoryColors | main.py:139-142 | categories ["Acme","Beta"] map to hues 0 and 1/2 |
| Schedule.TwoCompaniesSorted | main.py:125 | rows of Beta then Acme give the sorted categories ["Acme","Beta"] |
| Schedule.TwoCompaniesCategorySet | main.py:125 | a Beta row and an Acme row carry exactly the categories "Acme" and "Beta" |
| Schedule.AcmeBeforeBeta | main.py:125 | ["Acme","Beta"] is sorted and duplicate-free |
| Schedule.TwoColorDictionary | main.py:139-142 | the dictionary over ["Acme","Beta"] and the two-colour palette maps Acme to hue 0 and Beta to hue 1/2 |
| Schedule.SwapTwoRows | main.py:125 | swapping two rows keeps their categories |
| Schedule.TwoCompaniesExample | main.py:124-142 | Acme gets hue 0 and Beta hue 1/2 whichever row comes first |
| Schedule.ChronologyCheck | main.py:159-167 | no error iff every row has Start ≤ End; an error names the first row with End < Start, with its Start and End |
| Schedule.ValidateChronology | main.py:159-167 | the row loop returns exactly `ChronologyCheck` |
| Schedule.MinStart | main.py:170 | the minimum Start: no row starts earlier and some row starts there |
| Schedule.Quantise | main.py:170-178 | one span per row, every Start Frame ≥ 0 and some equal to 0, Start Frame ≤ End Frame for valid rows |
| Schedule.QuantiseKeepsOrder | main.py:170-178 | the shift keeps the distance between any two starts and between any start and end, and the order between any two starts, any two ends and any start and end |
| Schedule.CompileSpec | main.py:100-192 | fails iff a selected row has End < Start, with the first such row's error; otherwise one hand-off row per selected row, same Activity, Start Frame = Start − min Start and End Frame = End − min Start, 0 ≤ Start Frame ≤ End Frame, some Start Frame 0 |
| Schedule.Emit | main.py:173-186 | the hand-off rows of a valid schedule: same length and activities, each frame the time minus the earliest Start, frames non-negative and ordered, origin at 0, each colour the row's entry in the run's colour map |
| Schedule.CompileIsEmit | main.py:159-186 | a schedule that compiles passed the chronology check and yields `Emit` of its selected rows |
| Schedule.CompileColors | main.py:180-192 | in a categorical run each hand-off row carries its category's palette entry; in other runs no row carries a colour |
| Schedule.CompileRowColor | main.py:181-186 | each hand-off row's colour is its category's entry in the run's colour map |
| Schedule.SameRowsSameCategories | main.py:125 | rows drawn from another row list carry only that list's categories |
| Schedule.CompileColorsIgnoreRowOrder | main.py:124-186 | permuting the input rows never changes the colour a given row receives |
| Schedule.CompileSchedule | main.py:100-192 | the statement sequence for one file computes exactly `Compile` |
| Schedule.CompiledPrefixStep | main.py:92 | compiling the next file successfully extends the compiled prefix by its output |
| Schedule.CompileBatch | main.py:92 | files are compiled in order; each output is its file's compile result; the run stops at the first failing file and reports its error |
| Schedule.FilterPng | main.py:288 | keeps exactly the listing entries ending in `.png` |
| Schedule.FilterPngCount | main.py:288 | each `.png` entry is kept as many times as it occurs in the listing, every other entry never |
| Schedule.PngFrames | main.py:287-289 | sorted, a permutation of the filtered `.png` entries, and holding exactly the `.png` entries of the listing |
| Schedule.WriteLegacyManifest | main.py:313-318 | fails iff there is no frame; otherwise 2k+1 lines: each frame's `file` line followed by `duration 1/fps` (fps = 1), then the last frame's `file` line again; the durations are k ones |
| Frames.Digits | render_animation.py:151 | `str(n)` is a non-empty run of decimal digits |
| Frames.DecimalValueOfDigits | main.py:302 | `int` reads back the decimal digits of n |
| Frames.LeadingZerosIgnored | main.py:302 | `int` ignores leading zeros |
| Frames.ZeroPadDigits | render_animation.py:151 | zero padding keeps a digit string's digits-only form and its value |
| Frames.PaddedDigits | render_animation.py:151 | zero-padded digits are non-empty digits that read back as n |
| Frames.Format04dParses | render_animation.py:151 | `int(format(n, "04d")) == n` for every n, negatives included, and the text holds neither `_` nor `.` |
| Frames.UnsignedParses | render_animation.py:151 | the unsigned case of `Format04dParses` |
| Frames.NegativeParses | render_animation.py:151 | the negative case of `Format04dParses` |
| Frames.FrameNameRoundTrip | main.py:302 | the compiler's `int(name.split("_")[1].split(".")[0])` recovers the frame of `frame_{frame:04d}.png` |
| Frames.FrameFileNameInjective | render_animation.py:151 | distinct frames get distinct file names |
| Strings.Split | main.py:108 | `split` yields at least one field and no field contains the separator |
| Strings.JoinSplit | main.py:115-117 | joining the split parts rebuilds the string |
| Strings.SplitJoin | main.py:115-117 | splitting joined separator-free parts gives back the parts |
| Strings.Insert | main.py:78 | inserting into a sorted list keeps it sorted and adds exactly one copy of the element |
| Strings.InsertFront | main.py:78 | an element no greater than a sorted list's head can go in front |
| Strings.InsertBehind | main.py:78 | an element greater than the head goes after it: head plus sorted tail stays sorted with the right elements |
| Strings.SortStrings | main.py:78 | `sorted` yields a sorted permutation |
| Strings.SortedUnique | main.py:125 | two sorted permutations of each other are equal, so the sorted category list is unique |
| Strings.SortedSameHead | main.py:125 | two sorted permutations of each other have the same first element |
| Strings.SameTailMultiset | main.py:125 | with equal heads, their tails are permutations of each other |
| Strings.Dedup | render_animation.py:71 | no duplicates, the same names as the input, no longer than the input |
| Strings.DedupFirstOccurrenceOrder | render_animation.py:71 | the kept names are in first-occurrence order |
| Strings.DedupOrderStep | render_animation.py:71 | appending one name keeps the kept names in first-occurrence order |
| Animation.HiddenSpec | render_animation.py:75-79 | both flags set hidden and keyed hidden at frame 0, other keys and slots kept |
| Animation.ShownSpec | render_animation.py:120-122 | `hide_render` false and keyed false at Start, other keys, viewport state and slots kept |
| Animation.ColorScheduleSpec | render_animation.py:112-138 | neutral at Start−1 only when Start > 2, the row colour at Start and End−1, neutral at End, later inserts winning; no other key changes |
| Animation.HideKeepsInvariant | render_animation.py:75-79 | hiding one object keeps the scene invariant |
| Animation.HiddenSoFarStep | render_animation.py:75-79 | hiding the next name extends the hidden prefix: exactly the names seen so far are hidden, every other object unchanged |
| Animation.OwnedMaterial | render_animation.py:90-100 | the material painted has one user; a new one has a BSDF and no keys, a reused or copied one keeps its keys and node tree |
| Animation.FreshIdUnshared | render_animation.py:91 | a material id never handed out is held by no object |
| Animation.CreateSharers | render_animation.py:90-93 | the new material is held by the object alone, and every other material keeps its holders |
| Animation.CreateMaterialKeepsInvariant | render_animation.py:90-93 | appending a new one-user material to an object without slots keeps the scene invariant |
| Animation.CopyMaterialKeepsInvariant | render_animation.py:97-100 | moving the object to a one-user copy of a shared material keeps the invariant, the original losing one user |
| Animation.CopySharers | render_animation.py:97-100 | after the copy the object alone holds the copy and no longer holds the original |
| Animation.OwnStepSpec | render_animation.py:90-100 | the material step leaves the object sole holder of a one-user material with the replaced material's keys, copies rather than mutates a shared material, whose original keeps its record with one user fewer; every other object and material is kept exactly |
| Animation.CreateStepSpec | render_animation.py:90-93 | the no-slot case of `OwnStepSpec` |
| Animation.CopyStepSpec | render_animation.py:97-100 | the shared-material case of `OwnStepSpec`: the object moves to a one-user copy and the shared original keeps its colour, keys and BSDF node, with one user fewer |
| Animation.ReuseStepSpec | render_animation.py:94-95 | the already-owned case of `OwnStepSpec` |
| Animation.OwnsKept | render_animation.py:85-100 | another object's sole material stays sole across a step that keeps the others |
| Animation.PaintStepSpec | render_animation.py:112-138 | keying a row keeps the invariant and who holds what; only the row's object and its own material change |
| Animation.PaintSharing | render_animation.py:112-138 | keying a row keeps the invariant, the object's sole ownership of its material, and every other material |
| Animation.PaintObject | render_animation.py:112-138 | keying a row changes only its object, by the Start key, and paints the material that object holds |
| Animation.PaintRowSpec | render_animation.py:112-138 | after the material step, keying the row leaves the object `Shown` at Start holding its own material painted from the original one; nothing else changes |
| Animation.RowStepSpec | render_animation.py:85-138 | one row keeps the invariant; it fails iff the owned material lacks a Principled BSDF, naming the row's Activity and leaving the object's keys and material unpainted; otherwise the object is `Shown` at Start and its own material painted; no other object changes, and every other material keeps its record, a copied shared original losing only one user |
| Animation.RowStepKeepsInvariant | render_animation.py:85-138 | one row keeps the scene invariant and the set of object names |
| Animation.RowLoopStep | render_animation.py:85-138 | one pass of the row loop keeps the object names, leaves unnamed objects and the colours of the materials they hold untouched, never hides, records the row as done on success, and on failure names the row's Activity |
| Animation.RowsFromStep | render_animation.py:85-138 | the loop from row i is row i's result when it fails, otherwise the loop from row i+1 on the row's new scene |
| Animation.RowsFromSpec | render_animation.py:85-138 | the loop from row i keeps the invariant and names, leaves objects no row names and the colours of their materials untouched, never hides, leaves every row done on success, and on failure names a row's Activity |
| Animation.RowsStepSpec | render_animation.py:85-138 | the whole loop: each row's object keyed visible at its Start and owning its material unless a row failed; no key hides; objects no row names untouched, and the materials they hold keep their colour, keys and BSDF node (only their user count may drop); an error names a row's Activity |
| Animation.HideAllKeepsInvariant | render_animation.py:75-79 | hiding the rows' objects keeps the object names and the scene invariant |
| Animation.AnimateSpec | render_animation.py:75-138 | after hiding and keying, every row's object is keyed hidden in the viewport at frame 0 on top of its old viewport keys, and on success keyed visible at its Start owning its material; other objects are unchanged, and so are the colour, keys and BSDF node of the material each holds in its first slot; an error names a row's Activity |
| Animation.UntouchedStep | render_animation.py:85-138 | objects that no processed row names stay as they were |
| Animation.HeldMaterialsKeptStep | render_animation.py:97-100 | after one more row, the first-slot material of every object no processed row names still has its colour, keys and BSDF node: a row whose object shared it copied it instead of painting it |
| Animation.NoHidingStep | render_animation.py:85-138 | no row key ever hides an object |
| Animation.RowsDoneStep | render_animation.py:85-138 | each processed row's object stays keyed visible at its Start and owns its material |
| Animation.EventSetMembers | render_animation.py:140-144 | a frame is an event frame iff some row starts or ends there |
| Animation.EventSetSize | render_animation.py:140-144 | there are at most 2 × rows event frames |
| Animation.SortFrames | render_animation.py:147 | `sorted` on the set: strictly increasing, exactly its members, each once |
| Animation.EventFrames | render_animation.py:140-147 | strictly increasing, exactly the Start and End Frames of the rows, at most 2 × rows of them |
| Animation.RenderLog | render_animation.py:149-152 | one render per event frame, in order, to `<frames_dir>/frame_NNNN.png` |
| Animation.RenderNames | render_animation.py:149-152 | every still's name parses back to its frame, and no two stills share a path |
| Animation.ManifestPathsDistinct | render_animation.py:163-164 | the manifest's `file` entries name distinct stills |
| Animation.Gaps | render_animation.py:166-168 | one duration per consecutive pair of event frames |
| Animation.GapsPositive | render_animation.py:166-168 | every duration between strictly increasing event frames is positive |
| Animation.GapsSum | render_animation.py:162-171 | the durations sum to (last − first) / fps |
| Animation.ManifestFiles | render_animation.py:163-171 | one `file` entry per event frame |
| Animation.ManifestFileAt | render_animation.py:164 | the k-th `file` entry is `frames/frame_NNNN.png` of the k-th event frame |
| Animation.ManifestBodyLength | render_animation.py:163-168 | after i frames the loop has written 2i lines, one fewer once the last frame is in |
| Animation.ManifestBodyAt | render_animation.py:163-168 | frame j's `file` line sits at 2j and, unless j is the last frame, its `duration` line with the gap to frame j+1 at 2j+1 |
| Animation.EntryDurations | render_animation.py:166-168 | one frame's entry carries its gap, or no duration for the last frame |
| Animation.ManifestBodyDurations | render_animation.py:166-168 | after i frames the durations written are the first gaps |
| Animation.ManifestDurations | render_animation.py:162-171 | the whole manifest's durations are exactly the gaps |
| Animation.ConcatManifestShape | render_animation.py:162-171 | fails iff there is no event frame; otherwise 2n lines: a `file` line per frame, the i-th followed by `duration (e(i+1) − e(i))/fps`, the last frame repeated, durations exactly the gaps |
| Animation.WriteConcatManifest | render_animation.py:162-171 | the line-by-line writer produces exactly `ConcatManifest` |
| Animation.Scene.constructor | render_animation.py:33 | the opened scene at the current frame saved in it, nothing rendered yet |
| Animation.Scene.ResolveObjects | render_animation.py:64-69 | succeeds iff every Activity names an object, listing them in row order; otherwise fails naming the first missing Activity |
| Animation.Scene.HideInitially | render_animation.py:75-79 | every named object becomes `Hidden`; every other object and all materials are unchanged |
| Animation.Scene.OwnMaterial | render_animation.py:90-100 | the object's first slot holds a material it alone uses, with one user; copy-on-write happens iff the old material had more than one user, and then the shared original keeps its record with one user fewer; other objects and materials are kept exactly |
| Animation.Scene.AnimateRow | render_animation.py:85-138 | the scene's new objects, materials and next id and the error are exactly `RowStep` of the old state (whose meaning `RowStepSpec` states); the invariant is kept; renders and frame cursor unchanged |
| Animation.Scene.AnimateRows | render_animation.py:85-138 | the new objects, materials, next id and error are exactly `RowsStep` of the old state; hence each row's object is keyed visible at its Start and owns its painted material, no key hides, and objects no row names are untouched along with the colours of the materials they hold |
| Animation.Scene.KeyRows | render_animation.py:61-138 | fails with a missing object iff some Activity has none, naming the first such Activity in row order and changing nothing then; otherwise the new objects, materials, next id and error are exactly `Animate` of the old state |
| Animation.Scene.RenderEventFrames | render_animation.py:149-152 | the render log grows by exactly `RenderLog` and the frame cursor ends on the last event frame |
| Animation.Scene.Run | render_animation.py:61-171 | fails with a missing object iff some Activity has no object, naming the first such Activity in row order and changing nothing; otherwise the objects and materials become `Animate` of the old ones, a `MissingBsdf` from it is the result with nothing rendered, and with no event frames iff there are no rows; on success it renders exactly the sorted event frames and returns their manifest, whose durations sum to (last − first)/10 s |

## Left out

- Command-line parsing and validation, including the WBS-mode `--top_wbs` requirement (main.py:57-58): argument plumbing. The model takes `top_wbs` as a string in which "" means not given.
- File-existence checks, `os.makedirs`, temporary files, `shutil.rmtree` and `os.remove`: file-system housekeeping.
- CSV reading and writing (`pd.read_csv`, `to_csv`, `csv.DictReader`): rows arrive already typed, with WBS and category columns as strings.
  - A WBS column that pandas reads as numbers (every value like `1.1`, or plain integers) is not modelled. The mask (main.py:107) converts it with `astype(str)`, but the reroot (main.py:115, 119-120) calls `.split` on the raw values and raises `AttributeError`; a value such as `1.10` is also read as `1.1`.
  - A Company or ActivityType column that pandas reads as numbers is not modelled. `sorted` (main.py:125) then orders the categories by value (2 before 10), while `Schedule.Categories` orders strings by code point ("10" before "2"), so such rows would get different palette entries.
  - The `Daily Resource` column is not carried, and neither is the `KeyError` that `schedule["Resources"]` (main.py:177) raises in every visual mode when a schedule has no `Resources` column.
  - Python `int()` spellings with whitespace or underscores are not modelled.
- The Blender and ffmpeg sub-processes (main.py:209-218, 322-330; render_animation.py:177-185): external executables.
- Blender render settings and the actual rendering: each render is an abstract `RenderCall` record.
- `colorsys.hsv_to_rgb` (main.py:132): a floating-point conversion. The palette stops at hue, saturation and value.
- Heatmap normalisation and colouring (main.py:145-155, 189-192): floating-point division, which also divides by zero when End == Start.
- `overlay_legend` and the per-frame dates (main.py:222-276, 291-311): image drawing and `datetime`.
- Camera selection (main.py:39-49; render_animation.py:41): it is parsed but never used.
- Timing output and the `print` calls: console output only.
- `os.path.splitext` run-directory naming (main.py:95-96): the model takes the run directory as a parameter.
- `os.path.abspath` in the legacy manifest (main.py:316): it depends on the process's working directory. The model joins the frames directory and the file name.
- The textual float formatting of `duration` lines: durations are exact `real` values.
- Mesh-data sharing between objects: each object has its own material slots. Objects that share mesh data share slot 0, and `mat.users` counts the mesh once; the source then neither copies the material nor keeps their colours apart, and the later row's colour keys show on both.
- Objects without mesh data: every modelled object has material slots, so the `AttributeError` that `obj.data.materials` (render_animation.py:90) raises when an Activity names an Empty, a light or the camera is not modelled; such a row succeeds in the model.
- Material names (`<name>_mat` and Blender's copy names).
- `None` entries in material slots.
- Materials an object holds only in its second or later slots: the scene invariant counts holders of first slots only, so the model does not promise that such a material keeps its colour when a row's object holds it in its first slot and paints it.
- Blender's sharing of an animation action between a material and its copy: a copy is a value copy of the material record.
- `Strings.Lower`: lowers ASCII letters only, because Python's full Unicode `lower()` is not modelled.
- Animation.RowsStepSpec: on a `MissingBsdf` error it states only that the error names some row's Activity; which row stopped the loop is given by `RowsStep` itself.
