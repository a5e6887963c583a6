# Density export of the Android image editor

The editor is a one-component React page. A user picks one raster image,
and the page exports five resized copies, one per Android pixel-density
bucket (mdpi, hdpi, xhdpi, xxhdpi, xxxhdpi). Each copy is downloaded under a
name derived from the original file name. This project models that export
pipeline in Dafny and proves its properties:

- `densities.dfy` (module `Densities`): the ordered density table and
  `Math.round(dim * scale)`. Each factor is stored as a whole number of
  halves (1 is 2, 1.5 is 3, 2 is 4, 3 is 6, 4 is 8). A product of an integer
  and a multiple of one half is exact in IEEE doubles, so the rounding is
  computed in integers as `(dim * halves + 1) / 2`. Its contract states the
  rounding over the reals, as JavaScript's `Math.round` defines it: the
  nearest integer, with ties going toward +infinity.
- `file_names.dfy` (module `FileNames`): `getBaseFileName` and
  `getFileExtension`, built on models of `String.prototype.split('.')` and
  `Array.prototype.join('.')`. The output name is
  `base + "_" + density + "." + extension`.
- `exporter.dfy` (module `Exporter`):
  - the export loop of `processImage`, as a method that appends one result
    per table entry to an output sequence;
  - the function that specifies that loop;
  - the component state touched by `handleFile`, `processImage` and
    `clearImage`, as a class `App`. Its `downloads` field stands for the
    files handed to `downloadImage`.

Behaviour of the code worth knowing, which the model keeps:

- A name without a dot, such as `"photo"`, gets an empty base name and the
  whole name as its extension. `split('.')` gives one piece, `slice(0, -1)`
  removes it, and `pop()` returns it. So the mdpi copy is `"_mdpi.photo"`.
- Rounding is `Math.round`, which sends ties toward +infinity. For the
  non-negative products here, this is the same as rounding half away from
  zero.
- The code has no per-copy error handling and no check on the decoded
  image's size.
- When `loadImage` rejects, `processImage` stops after setting the loading
  flag, and neither `handleFile` nor `clearImage` resets it. The flag then
  stays set (`ProcessImage`, `HandleFile` and `ClearImage` state this), so
  the process button, which is disabled while loading
  (android-image-editor/src/App.js:112), stays disabled until the page is
  reloaded.

## Model

| member | source | states |
|---|---|---|
| `Densities.Scale` | android-image-editor/src/App.js:45-46 | the scaled dimension is `Math.round(dim * factor)`: within one half of the real product, with a tie rounded up |
| `Densities.TableContents` | android-image-editor/src/App.js:10-16 | the table has exactly five entries: mdpi, hdpi, xhdpi, xxhdpi, xxxhdpi, in that order, with factors 1, 1.5, 2, 3, 4 |
| `Densities.TableOrdered` | android-image-editor/src/App.js:10-16 | labels are pairwise distinct, every factor is at least 1, and factors strictly increase in table order |
| `Densities.ScaleWholeFactor` | android-image-editor/src/App.js:45-46 | a whole-number factor scales exactly: the result is `dim * factor` |
| `Densities.ScaleHdpi` | android-image-editor/src/App.js:12 | at hdpi (1.5), an even dimension scales exactly to 1.5 times itself, and an odd one to exactly the product plus one half |
| `Densities.ScaleMdpiIdentity` | android-image-editor/src/App.js:11 | the mdpi factor leaves every dimension unchanged |
| `Densities.ScaleMonotone` | android-image-editor/src/App.js:45-46 | a larger factor never gives a smaller scaled dimension |
| `Densities.ScalePositive` | android-image-editor/src/App.js:45-48 | a non-zero source dimension gives a canvas dimension of at least 1 at every density |
| `Densities.ScaleExamples` | android-image-editor/src/App.js:45-46 | 100 gives 100, 150, 200, 300, 400 along the table; 101 at hdpi gives 152 |
| `FileNames.Split` | android-image-editor/src/App.js:76-77 | `split('.')` returns at least one piece, and no piece contains a dot |
| `FileNames.Join` | android-image-editor/src/App.js:76 | `join('.')` is the inverse of the split: for one or more dot-free parts, splitting the joined string gives the parts back |
| `FileNames.BaseName` | android-image-editor/src/App.js:76 | `getBaseFileName` is "" for a name without a dot; for a name with a dot, base name + "." + extension is the name (its exact value, the part before the last dot, is given by `SplitAtLastDot`) |
| `FileNames.Extension` | android-image-editor/src/App.js:77 | the extension never contains a dot |
| `FileNames.OutputName` | android-image-editor/src/App.js:53 | the output name of a name with a dot is one character longer than the name and the label together; a name without a dot gives "_" + label + "." + the whole name |
| `FileNames.JoinSplit` | android-image-editor/src/App.js:76 | joining the pieces of a split with '.' gives back the original string |
| `FileNames.SplitAtDot` | android-image-editor/src/App.js:76-77 | splitting `a + "." + b` gives the pieces of `a` followed by the pieces of `b` |
| `FileNames.SplitNoDot` | android-image-editor/src/App.js:76-77 | a string without a dot splits into itself alone |
| `FileNames.SplitManyIffDot` | android-image-editor/src/App.js:76-77 | a string contains a dot if and only if it splits into two or more pieces |
| `FileNames.JoinLast` | android-image-editor/src/App.js:76 | joining all the pieces equals joining all but the last, then a dot, then the last piece |
| `FileNames.SplitAtLastDot` | android-image-editor/src/App.js:76-77 | only the last dot is split off: the base name is everything before it, and the extension is everything after it |
| `FileNames.NoDotName` | android-image-editor/src/App.js:76-77 | a name without a dot has an empty base name, and the whole name is its extension |
| `FileNames.TrailingDotName` | android-image-editor/src/App.js:76-77 | a name ending in a dot has an empty extension and keeps the rest as its base name |
| `FileNames.OutputNameWithDot` | android-image-editor/src/App.js:53 | the output name inserts "_" and the density label just before the last dot of the name |
| `FileNames.NameExampleTwoDots` | android-image-editor/src/App.js:76-77 | "a.b.png" has base name "a.b" and extension "png" |
| `FileNames.NameExampleNoDot` | android-image-editor/src/App.js:53 | "photo" has base name "" and extension "photo", so its mdpi copy is named "_mdpi.photo" |
| `Exporter.Exports` | android-image-editor/src/App.js:41-54 | an export run yields exactly one result per table entry |
| `Exporter.ExportEntry` | android-image-editor/src/App.js:45-53 | one density's copy has a width and a height equal to `Math.round` of the source's times the factor, requests the source's MIME type from `toDataURL`, and for a name with a dot has a name one character longer than the source's name and the label together |
| `Exporter.ExportAll` | android-image-editor/src/App.js:41-54 | the loop emits, in table order, the i-th entry's result as the i-th item and nothing else |
| `Exporter.ExportsFollowTable` | android-image-editor/src/App.js:41-53 | the i-th download is named base + "_" + i-th label + "." + extension, has width and height equal to `Math.round` of the source size times the i-th factor, and requests the source's MIME type from the encoder |
| `Exporter.ExportsStartAtSourceSize` | android-image-editor/src/App.js:11 | the first download (mdpi) has the source's width and height |
| `Exporter.ExportsNonDecreasing` | android-image-editor/src/App.js:41-46 | within one run, widths and heights never decrease in table order |
| `Exporter.OutputNamesDiffer` | android-image-editor/src/App.js:53 | two different labels always give two different output names for the same file |
| `Exporter.ExportNamesDistinct` | android-image-editor/src/App.js:41-53 | no two downloads of one run share a file name |
| `Exporter.PhotoOutputNames` | android-image-editor/src/App.js:53 | "photo.png" gives "photo_" + label + ".png" for every label of the table |
| `Exporter.ExportsPhotoExample` | android-image-editor/src/App.js:41-53 | a 100 by 100 "photo.png" gives "photo_mdpi.png" at 100 by 100 up to "photo_xxxhdpi.png" at 400 by 400 |
| `Exporter.ImageTypeExamples` | android-image-editor/src/App.js:24 | "image/png" passes the file-type gate; "text/plain", "image", "Image/png" and a missing file do not |
| `Exporter.IsImageFile` | android-image-editor/src/App.js:24 | the gate holds exactly when a file is present and the first six characters of its type are "image/", as `startsWith('image/')` tests |
| `Exporter.App.constructor` | android-image-editor/src/App.js:5-8 | the component starts with no file, no preview, an empty message, not loading, and no downloads, which satisfies the invariant `Valid()` |
| `Exporter.App.HandleFile` | android-image-editor/src/App.js:23-31 | a present file whose type starts with "image/" becomes the selected file, gets its preview URL and clears the message; anything else only sets the error message and leaves the selected file and preview unchanged; keeps `Valid()`: a selected file always passed the type gate, and a preview exists exactly when a file is selected |
| `Exporter.App.ProcessImage` | android-image-editor/src/App.js:33-58 | with no file selected nothing changes; if loading fails, the loading flag stays set and nothing is downloaded; otherwise the run's results are appended to the downloads in table order, the flag is cleared and the completion message is set; keeps `Valid()`: a selected file always passed the type gate, and a preview exists exactly when a file is selected |
| `Exporter.App.ClearImage` | android-image-editor/src/App.js:79-83 | clears the selected file, the preview and the message, and changes nothing else; keeps `Valid()`: a selected file always passed the type gate, and a preview exists exactly when a file is selected |

## Left out

- Canvas work (`createElement('canvas')`, `drawImage`, `toDataURL`): the resampled pixels and the data URL are not modelled. A result keeps only its name, its canvas size and the MIME type requested of `toDataURL`.
- The encoder's fallback: for a type the browser cannot encode (image/gif, image/svg+xml or image/bmp, say), `toDataURL` produces image/png. The download then holds PNG data under the source's extension. `requestedType` records the type asked for, not the type produced.
- `loadImage` (a Promise around `Image` and `URL.createObjectURL`): its outcome is a parameter of `ProcessImage`, either a decoded width and height or a failure.
- `downloadImage` (an anchor click in the DOM): modelled as appending to the `downloads` sequence.
- `URL.createObjectURL` in `handleFile`: its result is a parameter of `HandleFile`.
- Rendering, drag-and-drop wiring, `handleFileChange` (it only passes `files[0]` on) and the disabled state of the process button: presentation only, with no logic beyond what is modelled.
- Asynchrony and React's batched state updates: the model runs each handler to completion in one step.
- Floating-point arithmetic: the five factors are multiples of one half, so every product is exact. `Scale` computes in integers, and its contract uses the reals.
