# Camera-date watermark: decision logic

`timestamp.go` batch-processes the JPEG files of one directory. For each file it
reads the capture time and the Orientation tag from the EXIF metadata, turns a
portrait photo stored as landscape upright, draws the capture date near the
lower-right corner at a size proportional to the width, and writes the result to
`<dir>/output/<name>`.

This project models the decisions the program takes around its library calls,
over integers and strings:

- `GoInt` — Go's `/` on `int`, which truncates toward zero (Dafny's `/` is
  Euclidean), characterised by `IsTruncatedQuotient`.
- `Geometry` — the geometry planner of `addTimestampWaterMark`: whether to swap
  width and height, which rotation angle to hand to the rotation primitive
  (π/2 for tag 6, 3π/2 for tag 8), and the label anchor and font size computed
  from the corrected dimensions. The defaulting of an absent or unreadable
  Orientation tag to 0 is modelled too.
- `Paths` — the trailing-slash normalisation of the `-path` flag and the output
  path `root + "output/" + name`.
- `Filter` — the entry filter of `main`: Go's `filepath.Ext`, `strings.ToLower`
  and the "not a directory and `.jpg` or `.jpeg`" test.
- `Recency` — the recency gate: the label is drawn only when the capture time is
  strictly after now minus 30·365·24 hours. A missing capture time is Go's zero
  time (year 1), which never passes.
- `Batch` — the loop of `main` over the directory listing, as a method whose
  result is the ordered list of `(name, root)` jobs it hands to the workers.

The font size is an integer. In `float64(140.0 * width / 4000.0)` the constants
are untyped and `width` is an `int`, so Go divides integers and converts the
quotient to `float64` afterwards: a 4000×3000 image gets font size 93, not
93.33. The model follows the code. Likewise the code does not reject zero or
negative dimensions, and neither does the model: `Quo` divides them as Go does.

## Model

| member | source | states |
|---|---|---|
| `GoInt.Quo` | timestamp.go:122-131 | the quotient of a positive divisor truncates toward zero: `d*q` is the multiple of `d` nearest to `n` on the side of zero, with the sign of `n` |
| `GoInt.TruncatedQuotientUnique` | timestamp.go:122-131 | exactly one integer satisfies that characterisation, so it defines Go's quotient independently of the implementation |
| `Geometry.OrientationTag` | timestamp.go:78-88 | a readable tag is passed on unchanged; a missing tag, or one whose value cannot be read as an integer, never asks for the quarter-turn correction, whatever the dimensions |
| `Geometry.NeedsCorrection` | timestamp.go:111 | the swap-and-rotate condition; `Plan`'s contract shows it decides exactly when a rotation is chosen, and `UnreadableTagNeverRotates` that the default tag never meets it |
| `Geometry.Layout` | timestamp.go:122-132 | landscape (`width > height`): posX, posY and font size are the truncated quotients of 5w/6, 9h/10 and 140w/6000; otherwise of 3w/4, 12h/13 and 140w/4000; for positive dimensions the anchor lies inside the image and the font size is not negative |
| `Geometry.Plan` | timestamp.go:109-132 | a rotation is chosen exactly when the tag is 6 or 8 and the stored image is wider than tall; π/2 exactly for tag 6 and 3π/2 exactly for tag 8; rotated plans swap width and height, others keep them; tags 6 and 8 never yield a landscape layout; the label follows the corrected dimensions |
| `Geometry.AnchorInsideImage` | timestamp.go:109-132 | for positive raw dimensions the planned anchor lies inside the corrected image |
| `Geometry.UnreadableTagNeverRotates` | timestamp.go:78-121 | an absent or unreadable Orientation tag never rotates the image or swaps its dimensions |
| `Geometry.CorrectionNotReapplied` | timestamp.go:111-121 | planning the corrected dimensions again with the same tag rotates nothing and keeps the same label |
| `Geometry.FontSizeMonotone` | timestamp.go:124-132 | among landscape images, and among portrait or square ones, a wider image never gets a smaller font |
| `Geometry.PlanExamples` | timestamp.go:109-132 | 4000×3000 gives anchor (3333, 2700) and font 93; 3000×4000 gives (2250, 3692) and font 105; 4000×3000 with tag 6 or 8 is swapped to 3000×4000 with π/2 or 3π/2; a portrait or square image with tag 6 is not rotated |
| `Paths.EndsWithSlash` | timestamp.go:31 | the `strings.HasSuffix(path, "/")` test; `NormalizeDir`'s contract shows its result always meets it and that a path meeting it is kept |
| `Paths.NormalizeDir` | timestamp.go:30-33 | the result ends in "/", extends the input by at most that one slash, and is the input itself when it already ends in "/" |
| `Paths.NormalizeDirIdempotent` | timestamp.go:31-33 | normalising twice is normalising once |
| `Paths.OutputDir` | timestamp.go:142 | the output directory is the root followed by exactly "output/", so it lies under the root and ends in "/" |
| `Paths.OutputPath` | timestamp.go:142-143 | the output path is `root + "output/" + name`: the output directory followed by exactly the input file's name |
| `Paths.OutputPathInjective` | timestamp.go:142-143 | different names under one root give different output paths |
| `Paths.OutputNeverAnInput` | timestamp.go:142-143 | an output path is never `root + other` for a slash-free name `other`, so no input file is overwritten |
| `Filter.Ext` | timestamp.go:41 | Go's `filepath.Ext`; `ExtIsLastDotSuffix` and `ExtOfSuffix` pin it down as the suffix from the last '.' of the last path element, or "" |
| `Filter.ExtIsLastDotSuffix` | timestamp.go:41 | the extension is a suffix of the path; when not empty it starts with '.' and holds no other '.' and no '/' |
| `Filter.LowerChar` | timestamp.go:41 | an upper-case ASCII letter becomes the same letter in lower case and every other character is kept; the result is never an upper-case ASCII letter, and is a lower-case letter exactly when the input is a letter of either case |
| `Filter.ToLower` | timestamp.go:41 | lower-casing keeps the length |
| `Filter.ToLowerAt` | timestamp.go:41 | lower-casing maps every character on its own |
| `Filter.ExtOfNameInDir` | timestamp.go:41 | for a slash-terminated root and a plain name, the extension of `root + name` is that of `name` |
| `Filter.ExtEmptyIffNoDot` | timestamp.go:41 | a plain name has an empty extension exactly when it contains no '.' |
| `Filter.ExtOfSuffix` | timestamp.go:41 | a trailing '.'-led suffix with no other '.' or '/' is the extension |
| `Filter.JpegSuffixIsExtension` | timestamp.go:41 | a trailing suffix that lower-cases to ".jpg" or ".jpeg" is the extension of the path |
| `Filter.Selected` | timestamp.go:41-42 | the filter's condition; `SelectedIffJpegSuffix` characterises it in both directions |
| `Filter.SelectedHasJpegSuffix` | timestamp.go:41-42 | an accepted entry is not a directory and its name ends in ".jpg" or ".jpeg" ignoring case |
| `Filter.JpegSuffixSelected` | timestamp.go:41-42 | every non-directory whose name ends in ".jpg" or ".jpeg" in any case is accepted |
| `Filter.SelectedIffJpegSuffix` | timestamp.go:41-42 | both directions together: the filter accepts exactly the non-directories whose name ends in ".jpg" or ".jpeg" ignoring case |
| `Filter.NoDotNeverSelected` | timestamp.go:41-42 | a name without '.' is never accepted |
| `Filter.CaseInsensitiveExamples` | timestamp.go:41-42 | a file named `base + ".JPG"` or `base + ".JpEg"` is accepted in any directory |
| `Filter.LastExtensionDecides` | timestamp.go:41-42 | a file whose final extension does not lower-case to ".jpg" or ".jpeg" is rejected whatever precedes it, so "scan.jpg.png" is rejected |
| `Recency.CaptureTime` | timestamp.go:77 | a readable capture time is used as is; a missing one is never stamped by any clock from year 31 on (Go's zero time plus the window) |
| `Recency.ShouldStamp` | timestamp.go:137 | the recency gate; `ShouldStampIffFewerDaysThanWindow`, `ShouldStampMonotone` and `MissingTimeNeverStamped` characterise it |
| `Recency.ShouldStampIffFewerDaysThanWindow` | timestamp.go:137 | counted in whole elapsed days, the label is drawn exactly when the capture is fewer than 30·365 days old; a capture in the future is always stamped |
| `Recency.ShouldStampMonotone` | timestamp.go:137 | a later capture time, or an earlier clock, keeps the gate open |
| `Recency.MissingTimeNeverStamped` | timestamp.go:137 | with a clock after 1970, a photo without a capture time is never stamped |
| `Recency.ShouldStampExamples` | timestamp.go:137 | 29 years old is stamped; exactly 30 and 31 years old are not; a future capture is |
| `Batch.Jobs` | timestamp.go:40-57 | there are no more jobs than entries, and every job carries the root it was given; `JobsSingle` and `JobsAppend` fix the jobs as one per selected entry, in listing order |
| `Batch.JobsSingle` | timestamp.go:40-44 | one entry yields exactly one job, carrying its name and the root, when it passes the filter, and none otherwise |
| `Batch.JobsAppend` | timestamp.go:40-55 | the jobs of a listing `a + b` are the jobs of `a` followed by those of `b`: one job per selected entry, in listing order |
| `Batch.Dispatch` | timestamp.go:28-57 | the root is the normalised input path and the jobs are those of the listing, in listing order |
| `Batch.JobsExactlySelected` | timestamp.go:40-55 | a job is launched for a name exactly when some listed entry with that name passes the filter |
| `Batch.OutputsAvoidInputs` | timestamp.go:142-143 | no job's output path is the path of a listed entry |
| `Batch.OutputsDistinct` | timestamp.go:142-143 | jobs for different names write different output files |

## Left out

- Concurrency: the goroutine per file, the `guard` channel that admits 30 at a time and the `sync.WaitGroup` join (timestamp.go:35-59). `Batch.Dispatch` returns the jobs in launch order instead of running them.
- File and OS I/O: `ioutil.ReadDir` (the listing is a parameter, in any order, which covers the name order `ioutil.ReadDir` returns; its error is ignored by the source, which then sees an empty listing), `os.Open`, `Seek`, `os.Stat`, `os.MkdirAll`, `os.Create`, the `os.Exit(1)` paths and all console printing.
- The error returns of `addTimestampWaterMark` (open, EXIF container, decode and seek failures); the model takes the decoded width, height, tag lookup and capture time as inputs.
- EXIF parsing (`exif.Decode`, `x.DateTime`, `x.Get`), image decoding and JPEG encoding at quality 100: third-party code whose behaviour is not visible here.
- The pixel work: `graphics.Rotate` is modelled only by the chosen angle, and `imageToNRGBA`, `addLabel`, font loading in `init` and the `"2006-01-02"` date text are not part of this model.
- Geometry.Plan: does not model wrap-around of `140 * width`, `12 * height` and the other products. A JPEG frame header holds 16-bit dimensions, so the largest product is 140·65535 = 9,174,900, which fits Go's `int` on 32-bit and 64-bit targets alike.
- Geometry.AnchorInsideImage: speaks of the anchor only. `addLabel` draws the baseline `fontSize` pixels below it (timestamp.go:181), and that can lie outside a very wide, short image (10000×2000 gives posY 1800, font 233, baseline 2033); the drawing itself is clipped to the image and not part of this model.
- Geometry.Layout: the font size stays an integer; its conversion to `float64` is exact for every integer below 2^53.
- Filter.ToLower: lower-cases ASCII letters only. Under Go's simple case mapping no other character lowers to one of '.', 'j', 'p', 'e' or 'g', so the accept decision is the same.
- Recency.ShouldStamp: instants are whole Unix seconds and the clock is a parameter. EXIF times carry whole seconds, so dropping the clock's fraction does not change a strict "after" comparison; time zones are out of scope because instants are compared.
