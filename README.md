# geotag: a Dafny model

This project models the core of `cuav/tools/geotag.py`. That tool stamps a batch of
camera images with GPS metadata taken from a flight log. The model covers these parts:

- `to_deg`: turns a signed decimal angle into degrees, minutes, seconds and a
  hemisphere letter (module `Coordinates`).
- `set_gps_location`: packs each angle into three EXIF rationals, reads the file's
  metadata, merges the fixed GPS tags into it and writes it back (module `Exif`).
  The metadata object is the class `Exif.ImageMetadata`, which is updated one key at
  a time.
- The output-path rule of `process`: in place, renamed to `.jpg` beside the input, or
  moved into a destination directory. This needs models of `str.split('.')[0]`,
  `os.path.basename` and `os.path.join` (module `Paths`).
- The file selection of `process`: the `*.png` entries of a directory, or the single
  file named, then `files.sort()` as an insertion sort (module `FileSelection`).
- The per-file loop of `process`: resolving a position from the file's time stamp,
  re-saving the image, the progress count and percentage, and writing the metadata
  (module `Geotag`). Files are processed in order.

How things outside the core are represented:

- The disk is a map from path to that file's metadata map.
- Whatever `process` asks of the outside world is one value of type
  `Geotag.Environment`. It holds:
  - whether the argument is a directory, and that directory's listing;
  - the modification time of each file;
  - the position resolver, which gives `None` where it raises;
  - the epoch-to-local-time conversion;
  - the altitude encoder, which gives `None` where it raises;
  - the metadata a freshly saved image carries.

Numbers are exact reals. Python's `int(x)` on a non-negative `x` is `.Floor`.
`round(x, 5)` is Python 2's rule: round to five decimals, with halves going away
from zero.

Some behaviours of the code are easy to miss. The model keeps them as written:

- **A position lookup that fails.** `process` sets `pos = None` (lines 129-131) and
  then reads `pos.lat` (line 135). That raises, so the whole run stops at that file:
  `Geotag.RunBatch` ends with `Crashed(f)` and has tagged exactly the files before
  `f`. No later file is tagged.
- **An altitude that cannot be encoded.** The code simply does not assign the
  altitude key (lines 92-95). It keeps whatever value it had before, or stays absent.
- **An empty directory.** No error is raised: the run prints `num_files=0` and ends.
  `Geotag.Process` then completes with no files, no progress lines and an unchanged disk.
- **Seconds of exactly 60.** `round(..., 5)` can carry the seconds up to 60.0
  without carrying into the minutes, so `to_deg` returns seconds in [0, 60], not
  [0, 60) (`Coordinates.SecondsCanReachSixty`).
- **The first '.' of the whole path.** `f.split('.')[0]` cuts at the first '.'
  anywhere in the path, directories included, so two images under "./" are both
  saved as ".jpg" (`Paths.DotDirectoryCollides`).
- **Upper-case extensions.** The match of "*.png" is case-sensitive, so an entry
  "A.PNG" is skipped (`FileSelection.UpperCaseSkipped`).
- **Trailing slashes on the directory.** `glob` joins its matches to the head of
  `os.path.split`, which has trailing slashes removed. So "imgs//" gives "imgs/a.png"
  (`FileSelection.DoubledSlashDirectory`).

## Model

| member | source | states |
|---|---|---|
| Coordinates.ToDeg | cuav/tools/geotag.py:42-54 | `deg` is the whole part of `abs(value)`. `min` is the whole part of the remaining fraction times 60, and is below 60. `sec` lies in [0, 60] and is a multiple of 10^-5. `deg + min/60 + sec/3600` is within 0.5e-5/3600 of `abs(value)`. |
| Coordinates.Round5 | cuav/tools/geotag.py:53 | `round(x, 5)` gives a non-negative multiple of 10^-5 in (x - 0.5e-5, x + 0.5e-5]. |
| Coordinates.Round5Nearest | cuav/tools/geotag.py:53 | No multiple of 10^-5 is closer to `x` than `round(x, 5)`. |
| Coordinates.SecondsCanReachSixty | cuav/tools/geotag.py:50-53 | An angle of 59.999996 seconds gives degrees 0, minutes 0 and seconds exactly 60.0. |
| Coordinates.Hemisphere | cuav/tools/geotag.py:43-48 | This defines the label `to_deg` picks: `loc[0]` for a negative value, `loc[1]` for a positive one, "" for zero. HemisphereBySign states it in both directions. |
| Coordinates.HemisphereBySign | cuav/tools/geotag.py:43-48 | For distinct non-empty labels, the label is `loc[0]` iff the value is negative, `loc[1]` iff it is positive, and "" iff it is zero. |
| Coordinates.MirrorSymmetric | cuav/tools/geotag.py:49-53 | `to_deg(v)` and `to_deg(-v)` have the same degrees, minutes and seconds. |
| Coordinates.SignedReconstruction | cuav/tools/geotag.py:42-54 | Reading the tuple back, negated when its label is `loc[0]`, recovers the signed input within 0.5e-5/3600 degrees. |
| Exif.Pack | cuav/tools/geotag.py:73-78 | The triple `((deg*60+min)/60, (sec*100)/6000, 0/1)` has non-zero denominators. It decodes to `deg + min/60 + sec/3600`. The first slot holds degrees plus minutes, the second the seconds as a fraction of a minute, and the third is zero. |
| Exif.PackedWithinTolerance | cuav/tools/geotag.py:69-78 | The packed triple of `to_deg(value)` decodes to `abs(value)` within 0.5e-5/3600 degrees. |
| Exif.ImageMetadata.Read | cuav/tools/geotag.py:80-81 | After `read()` the container holds exactly the stored tags. |
| Exif.ImageMetadata.Set | cuav/tools/geotag.py:83-93 | Assigning `m[key] = v` sets that key and leaves every other key as it was. |
| Exif.SetGpsLocation | cuav/tools/geotag.py:56-97 | The map `m.write()` persists is the stored map updated key by key, which is `GeoTagged`. |
| Exif.GeoTagged | cuav/tools/geotag.py:83-95 | This defines the map `set_gps_location` writes back: the read map updated with the eight fixed keys, and with the altitude key when the encoder succeeded. GeoTaggedFields states its contents. |
| Exif.GeoTaggedFields | cuav/tools/geotag.py:83-95 | The result's keys are the stored keys, the eight fixed keys, and the altitude key when the altitude was encoded. Each fixed key holds its value: packed angles, their hemisphere labels, 654, "WGS-84", "2 0 0 0" and the time. An altitude that failed to encode leaves the prior altitude. Every other key is unchanged. |
| Exif.GeoTaggedRoundTrip | cuav/tools/geotag.py:69-90 | Decoding the written latitude and longitude triples with their written reference tags recovers `lat` and `lng` within 0.5e-5/3600 degrees. |
| Exif.ReadBackToDeg | cuav/tools/geotag.py:69-86 | A packed `to_deg` triple read back with its hemisphere label recovers the signed value within the rounding error. |
| Exif.GeoTaggedIdempotent | cuav/tools/geotag.py:80-95 | Tagging metadata a second time with the same fix changes nothing. |
| Paths.BeforeFirstDot | cuav/tools/geotag.py:141 | `f.split('.')[0]` is a prefix of `f` with no '.'. When it is shorter than `f`, the next character is '.'. |
| Paths.Basename | cuav/tools/geotag.py:144 | `os.path.basename` contains no '/'. When it is shorter than the path, it is preceded by a '/'. |
| Paths.BasenameIsSuffix | cuav/tools/geotag.py:144 | The basename is the tail of the path. |
| Paths.Join | cuav/tools/geotag.py:144 | `os.path.join(a, b)` is `b` when `b` is absolute. Otherwise it is `a + b` when `a` is empty or ends in '/', and `a + "/" + b` when it does not. |
| Paths.BasenameJoin | cuav/tools/geotag.py:144 | Joining never changes the basename of the second part. |
| Paths.OutputPath | cuav/tools/geotag.py:138-144 | This defines the output path: `f` in place; otherwise the text before the first '.' plus ".jpg", joined onto `destdir` by its basename when a destination is set. Its properties are the lemmas InPlaceKeepsPath, RenamedBesideInput, RenamedIntoDestdir and DotDirectoryCollides. |
| Paths.StripTrailingSlashes | cuav/tools/geotag.py:106 | `s.rstrip('/')` is a prefix of `s` that is empty or does not end in '/', and every character cut off is '/'. |
| Paths.SplitHead | cuav/tools/geotag.py:106 | This defines the head of `os.path.split`: the path up to its last '/', with trailing slashes removed unless it is made of slashes only. Its use is characterised by FileSelection.GlobDirectoryStripped. |
| Paths.InPlaceKeepsPath | cuav/tools/geotag.py:138-139 | With `--inplace` the output path is the input path. |
| Paths.RenamedBesideInput | cuav/tools/geotag.py:140-142 | Without a destination directory, the output is the input up to its first '.' followed by ".jpg". |
| Paths.RenamedIntoDestdir | cuav/tools/geotag.py:143-144 | With a destination directory, the output lies directly under it, with or without an added '/'. Its basename is the basename of the cut input plus ".jpg". |
| Paths.DotDirectoryCollides | cuav/tools/geotag.py:141-142 | The first '.' is searched in the whole path, so "./a.png" and "./b.png" both become ".jpg". |
| FileSelection.Matches | cuav/tools/geotag.py:106 | This defines which entries `glob` reports for "*.png": names ending in ".png" that do not start with '.'. It is used by Kept. |
| FileSelection.GlobDirectory | cuav/tools/geotag.py:106 | This defines the directory `glob` joins its matches to: the split head of `os.path.join(dir, '*.png')`. GlobDirectoryStripped states what it is. |
| FileSelection.GlobDirectoryStripped | cuav/tools/geotag.py:106 | The directory matches are joined to is empty for an empty `dir`, is `dir` itself when it is made of slashes only, and is `dir` without its trailing slashes otherwise. |
| FileSelection.Globbed | cuav/tools/geotag.py:106 | This defines what `glob.glob(os.path.join(dir, '*.png'))` returns before sorting: each kept entry joined to GlobDirectory. GlobbedCount, DoubledSlashDirectory and SelectFiles state its properties. |
| FileSelection.DoubledSlashDirectory | cuav/tools/geotag.py:106 | For "imgs//" with entries "a.png", ".b.png" and "c.jpg", glob yields exactly "imgs/a.png". |
| FileSelection.UpperCaseSkipped | cuav/tools/geotag.py:106 | "A.PNG" does not match "*.png" while "a.png" does, so a listing of both keeps only "a.png". |
| FileSelection.Kept | cuav/tools/geotag.py:106 | Every listing entry that matches `*.png` is kept as often as it occurs. Every other entry is dropped. |
| FileSelection.JoinAll | cuav/tools/geotag.py:106 | Each kept name is joined to the directory glob lists, one result per name. |
| FileSelection.GlobbedCount | cuav/tools/geotag.py:105-106 | A listing of N matching and M non-matching entries yields exactly N files. |
| FileSelection.BelowTotal | cuav/tools/geotag.py:109 | Python's string order is total. |
| FileSelection.BelowTransitive | cuav/tools/geotag.py:109 | Python's string order is transitive. |
| FileSelection.BelowAntisymmetric | cuav/tools/geotag.py:109 | Python's string order is antisymmetric. |
| FileSelection.Sort | cuav/tools/geotag.py:109 | `files.sort()` returns an ascending permutation of its input. |
| FileSelection.SelectFiles | cuav/tools/geotag.py:104-109 | For a directory, the result is the sorted permutation of its globbed `*.png` paths. Otherwise it is `[f]`. |
| Geotag.Roll | cuav/tools/geotag.py:124-127 | This defines the roll handed to the resolver: 0 for a roll-stabilised camera, none otherwise. Resolve uses it. |
| Geotag.Resolve | cuav/tools/geotag.py:122-128 | This defines the lookup for a file: the resolver applied to the file's modification time, the maximum time gap, and a roll of 0 for a roll-stabilised camera or none otherwise. FirstUnresolved and RunBatch are stated in terms of it. |
| Geotag.Percent | cuav/tools/geotag.py:149 | This defines `(100.0*count)/num_files`, defined only for a positive total. PercentRange states its properties. |
| Geotag.TagAll | cuav/tools/geotag.py:121-150 | This defines the disk after the given resolved files are processed in order: each file's output path is set to the re-saved metadata with its GPS tags merged in. TagAllStep, TagAllUntouched and TagAllLastWrite state its properties. |
| Geotag.PercentRange | cuav/tools/geotag.py:149 | `(100.0*count)/num_files` times `num_files` is `100*count`. It is positive once a file is done, at most 100, and exactly 100 iff `count == num_files`. |
| Geotag.FirstUnresolved | cuav/tools/geotag.py:121-135 | This is the index of the first file whose lookup fails: every earlier file resolves, and that file does not. |
| Geotag.FirstUnresolvedAt | cuav/tools/geotag.py:129-135 | A resolved prefix ending at a failing file, or at the end, pins down that index. |
| Geotag.TagAllStep | cuav/tools/geotag.py:145-150 | Processing one more file adds its metadata at its output path on top of the earlier files' disk. |
| Geotag.TagAllUntouched | cuav/tools/geotag.py:121-150 | A path that is no processed file's output keeps its prior metadata, or stays absent. |
| Geotag.TagAllLastWrite | cuav/tools/geotag.py:121-150 | A processed file whose output no later file reuses holds exactly the metadata written for its own position. |
| Geotag.Progress | cuav/tools/geotag.py:146-149 | The count goes up by one. The progress line carries the output basename, the coordinates, the count, the total and the percentage. The total is positive whenever the percentage is computed. |
| Geotag.SaveTagged | cuav/tools/geotag.py:145-150 | The output path ends up holding the freshly saved image's metadata with the GPS tags merged in. No other path changes. |
| Geotag.SaveAndTag | cuav/tools/geotag.py:138-150 | One resolved file: its output path gets its tagged metadata, the count goes up by one, and its progress line is produced. |
| Geotag.Step | cuav/tools/geotag.py:133-150 | For a resolved file, the loop state after `i` files becomes the state after `i + 1` files. |
| Geotag.RunBatch | cuav/tools/geotag.py:121-150 | Let n be the first file that fails to resolve. The run completes iff n is the number of files; otherwise it crashes at file n. There are n progress lines, and the k-th line reports count k+1 of the total. The disk is the one from tagging the first n files in order. |
| Geotag.Process | cuav/tools/geotag.py:100-150 | The file selection of `SelectFiles`, followed by `RunBatch` over those files. A directory with no matching entry completes with no files, no progress lines and the disk unchanged. |

## Left out

- Argument parsing (argparse and the Gooey front end): left out because the options arrive as a `Geotag.Options` value. `--max-attitude`, `--lens` and `--mavlog` are not part of it, since the core gets no use of them beyond handing the log to the resolver.
- The internals of `MavInterpolator` (log loading, interpolation, the GPS lag offset): it is a foreign component. The resolver is the function `Environment.position`, and the lag is folded into it.
- `os.path.getmtime`, `datetime.datetime.fromtimestamp` and the altitude encoder `mav_position.Fraction`: they are I/O or library code, so their results are parameters. An encoder that raises is `None`.
- A failing `os.path.getmtime`: `Environment.mtime` is total, so the OSError the code raises at line 122 is not modelled. For example, a single file argument naming a missing file stops the real run there, while the model goes on to resolve and tag it.
- Windows path and match rules: the model follows POSIX only. `posixpath` is used for join, basename and split, with '/' the only separator. `fnmatch` is case-sensitive, so "*.png" skips "A.PNG". Under `ntpath`, '\\' and drive letters are path structure too, and case folding would keep "A.PNG"; none of this is modelled.
- `cv.LoadImage` and `cv.SaveImage`: these are image I/O. A re-saved file's metadata is the parameter `Environment.savedTags`, and failures to load or save are not modelled.
- The pyexiv2 read and write I/O, and a write that fails: `m.write()` is modelled as persisting the merged map, which always succeeds.
- Exif.Pack: the seconds numerator `sec*100` is kept as an exact real. The float-to-rational conversion inside `pyexiv2.Rational` is library code and is not modelled. If that conversion makes the numerator an integer, the stored seconds are cut to whole hundredths. Exif.PackedWithinTolerance and Exif.GeoTaggedRoundTrip then hold only for the unconverted numerator: the stored angle can be off by up to about 0.01/3600 degrees, not 0.5e-5/3600.
- The `datetime` value and its EXIF string form: the time is kept as the string the conversion returns.
- IEEE double arithmetic: the model uses exact reals, so the Coordinates and Exif bounds hold exactly and say nothing about floating-point error.
- All `print` output and its formatting: the progress line is modelled as the `Geotag.Report` values it shows, and `print e` is not modelled.
- `cuav_util.mkdir_p` of the destination directory: it is a file-system side effect with no influence on the paths computed.
- Glob magic characters inside the directory name, and file-system errors while listing: the listing of the directory is a parameter, and only the `*.png` pattern is modelled.
- The case of `glob` with an empty directory part, which lists the current directory: `process` reaches `glob` only after `os.path.isdir` accepted the argument, and the model keeps joining names to the empty head.
