# Time-lapse assembly: natural file order and frame bookkeeping

A model of `mp4_Time_Lapse_Generator.py`, a script that turns a directory of
still images into a video. Only the program's own logic is modelled:

- **the natural sort key** (`natural_key`). It takes the last path
  component and cuts it, as `re.split(r"(\d+)", name)` does, into alternating
  text and digit runs. Digit runs become integers and text runs are
  lower-cased (module `NaturalKey`).
- **how two keys compare**. Keys are Python lists, so they compare
  element-wise. An integer met by a string raises `TypeError`, modelled as
  `None` (module `KeyOrder`).
- **normalising the file list**: `sorted(set(files), key=natural_key)`.
  An insertion sort that lists a set in the order of any strict order is
  written once (module `Sorting`). `Timelapse.Normalize` builds the set of
  gathered paths and sorts it with the key order.
- **the frame loop** of `make_timelapse`, with images reduced to their size.
  The run fails on an empty list, on an unreadable first image, or when the
  writer does not open. Otherwise the target size is the requested one or
  the first image's. Each readable image becomes a frame of the target size
  and each unreadable one is counted as skipped (module `Timelapse`).

Reading an image is a parameter `read: string -> Option<Size>`, where `None`
means unreadable. Whether the video writer opened is a boolean parameter.
Pixels, decoding, resizing and encoding are not modelled. A frame records
its source file, its size and whether it went through a resize.

Two behaviours of the code that are easy to miss:

- An unreadable first file stops the run with `ValueError` (lines 36-38); the
  code does not fall back to a later readable file. `Assemble` returns
  `FirstUnreadable` in that case.
- Extensions are requested only in all lower case and in all upper case
  (lines 26-28), so `x.Png` is not gathered on a case-sensitive file system.
  Gathering itself is left out; see below.

## Model

| member | source | states |
|---|---|---|
| NaturalKey.Basename | mp4_Time_Lapse_Generator.py:10 | `os.path.basename`: the text after the last `/`. No contract of its own; `BasenameIsBasename` and `BasenameUnique` characterise it |
| NaturalKey.BasenameIsBasename | mp4_Time_Lapse_Generator.py:10 | the result is a separator-free suffix of the path, either the whole path or directly preceded by `/` |
| NaturalKey.BasenameUnique | mp4_Time_Lapse_Generator.py:10 | only one string fits that description of the last component, so `Basename` is exactly the part after the last `/` |
| NaturalKey.Split | mp4_Time_Lapse_Generator.py:11 | `re.split(r"(\d+)", name)`: alternating text and digit runs. No contract of its own; `SplitIsRunSplit` and `RunSplitUnique` show it is the one list of runs of the reference shape |
| NaturalKey.RunLengthMaximal | mp4_Time_Lapse_Generator.py:11 | the run of digits (or of non-digits) at the front is as long as possible: every character in it has the kind, and the next one does not |
| NaturalKey.SplitIsRunSplit | mp4_Time_Lapse_Generator.py:11 | the split has the shape of `re.split` with a capturing `\d+`: an odd number of runs that join back to the name, digit-free runs at even positions, non-empty all-digit runs at odd positions, and only the first and last text runs possibly empty |
| NaturalKey.RunSplitUnique | mp4_Time_Lapse_Generator.py:11 | any list of runs of that shape is the split, so the split is fully determined by the shape |
| NaturalKey.SplitRuns | mp4_Time_Lapse_Generator.py:11 | a text run, then a digit run, then a remainder not starting with a digit, splits into those two runs followed by the remainder's split |
| NaturalKey.SplitRoundTrip | mp4_Time_Lapse_Generator.py:10-11 | joining the runs, with digit runs as written and text runs before lower-casing, gives back the last path component exactly |
| NaturalKey.KeyShape | mp4_Time_Lapse_Generator.py:11 | the key has odd length; position i holds an integer exactly when i is odd; each integer is the value of its digit run and each string is its lower-cased text run |
| NaturalKey.Lower | mp4_Time_Lapse_Generator.py:11 | `t.lower()`, restricted to ASCII letters. No contract of its own; `LowerKeepsKinds` and `KeyIgnoresCase` state what it keeps and what it erases |
| NaturalKey.ToToken | mp4_Time_Lapse_Generator.py:11 | `int(t) if t.isdigit() else t.lower()` on one run. No contract of its own; `KeyShape` and `NameKeyRuns` state what it gives for text and digit runs |
| NaturalKey.Key | mp4_Time_Lapse_Generator.py:6-11 | `natural_key`: the tokens of the runs of the last component. No contract of its own; `KeyShape`, `KeyIgnoresDirectory`, `KeyIgnoresCase` and `KeyRoundTrip` characterise it |
| NaturalKey.DecimalValue | mp4_Time_Lapse_Generator.py:11 | `int(t)` on a run of decimal digits. No contract of its own; `DecimalValueOfString`, `DecimalStringOfValue` and `LeadingZeroIgnored` characterise it |
| NaturalKey.DecimalValueOfString | mp4_Time_Lapse_Generator.py:11 | reading back the decimal digits of n gives n |
| NaturalKey.DecimalStringOfValue | mp4_Time_Lapse_Generator.py:11 | a digit run without leading zeros is exactly the decimal writing of its value |
| NaturalKey.LeadingZeroIgnored | mp4_Time_Lapse_Generator.py:11 | `int()` ignores a leading zero: the value of "0" followed by d is the value of d |
| NaturalKey.KeyRoundTrip | mp4_Time_Lapse_Generator.py:11 | when no digit run has a leading zero, writing the key back out (integers in decimal) gives the lower-cased last component |
| NaturalKey.NameKeyRuns | mp4_Time_Lapse_Generator.py:11 | the key of text + digits + rest is the lower-cased text, the digits' value, then the key of the rest |
| NaturalKey.EqualValuesEqualKeys | mp4_Time_Lapse_Generator.py:7-11 | digit runs of equal value, such as "007" and "7", give names with equal keys |
| NaturalKey.KeyIgnoresDirectory | mp4_Time_Lapse_Generator.py:10 | putting a directory and `/` in front of a path leaves its key unchanged |
| NaturalKey.KeyIgnoresCase | mp4_Time_Lapse_Generator.py:11 | paths equal after ASCII lower-casing have equal keys |
| KeyOrder.TextLess | mp4_Time_Lapse_Generator.py:30 | Python `<` on two strings, by code point, as `sorted` applies it to text elements. No contract of its own; `TextLessIrreflexive`, `TextLessAsymmetric`, `TextLessTransitive` and `TextLessTotal` make it a strict total order |
| KeyOrder.TokenLess | mp4_Time_Lapse_Generator.py:30 | `<` on two key elements: numeric on two integers, `TextLess` on two strings, `None` (`TypeError`) on a mix. No contract of its own; `TokenLessTransitive` and `AlignedNeverRaises` are about it |
| KeyOrder.KeyLess | mp4_Time_Lapse_Generator.py:30 | Python list `<` on two keys, `None` when it raises. No contract of its own; `AlignedNeverRaises`, `KeyComparisonNeverRaises` and the `Lt` lemmas characterise it |
| KeyOrder.TextLessTotal | mp4_Time_Lapse_Generator.py:30 | two different strings are always ordered one way or the other by code-point comparison |
| KeyOrder.AlignedNeverRaises | mp4_Time_Lapse_Generator.py:30 | when both keys hold an integer, or both a string, at every shared position, the list comparison never raises |
| KeyOrder.KeysAligned | mp4_Time_Lapse_Generator.py:11 | the keys of any two paths are aligned in that way |
| KeyOrder.KeyComparisonNeverRaises | mp4_Time_Lapse_Generator.py:30 | comparing the keys of any two paths never compares an integer with a string, so sorting never raises `TypeError` |
| KeyOrder.LtIrreflexive | mp4_Time_Lapse_Generator.py:30 | no key is less than itself |
| KeyOrder.LtAsymmetric | mp4_Time_Lapse_Generator.py:30 | two keys are never each less than the other |
| KeyOrder.LtTransitive | mp4_Time_Lapse_Generator.py:30 | the key comparison is transitive |
| KeyOrder.LtTotal | mp4_Time_Lapse_Generator.py:30 | two different aligned keys are always ordered one way or the other |
| KeyOrder.Precedes | mp4_Time_Lapse_Generator.py:30 | `natural_key(p) < natural_key(q)`, the order `sorted` applies to the file list. No contract of its own; `PrecedesTrichotomy` and `Timelapse.PrecedesIsStrictOrder` characterise it |
| KeyOrder.PrecedesTrichotomy | mp4_Time_Lapse_Generator.py:30 | for any two paths, exactly one holds: equal keys, the first precedes, or the second precedes |
| KeyOrder.DigitRunsCompareNumerically | mp4_Time_Lapse_Generator.py:7-11 | names with the same leading text are ordered by the numeric value of the following digit run, whatever comes after it |
| KeyOrder.PathsCompareNumerically | mp4_Time_Lapse_Generator.py:7-11 | the same holds for such names inside any directory, and the reverse order does not hold |
| KeyOrder.TwoBeforeTen | mp4_Time_Lapse_Generator.py:8 | `img2.png` sorts strictly before `img10.png`, in any directory |
| KeyOrder.LeadingZerosTie | mp4_Time_Lapse_Generator.py:11 | `img007.png` and `img7.png` have equal keys, so neither precedes the other |
| KeyOrder.LetterCaseTie | mp4_Time_Lapse_Generator.py:11 | `IMG1.PNG` and `img1.png` have equal keys |
| Sorting.Insert | mp4_Time_Lapse_Generator.py:30 | inserting into a sorted list keeps it sorted; the result holds the old elements plus the new one; a new element keeps the list duplicate-free |
| Sorting.SortSet | mp4_Time_Lapse_Generator.py:30 | the output lists each element of the set exactly once, in sorted order |
| Timelapse.PrecedesIsStrictOrder | mp4_Time_Lapse_Generator.py:30 | the natural order on paths is irreflexive and transitive, so it can drive a sort |
| Timelapse.Normalize | mp4_Time_Lapse_Generator.py:30 | the file list has no duplicates, holds exactly the gathered paths, and is non-decreasing in key order |
| Timelapse.TwoListedBeforeTen | mp4_Time_Lapse_Generator.py:30 | in the normalised list, `dir/img2.png` sits before `dir/img10.png` |
| Timelapse.TargetSize | mp4_Time_Lapse_Generator.py:40-44 | the frame size: `resize_to` when given, else the first image's. No contract of its own; the size clause of `Assemble` states it |
| Timelapse.FrameOf | mp4_Time_Lapse_Generator.py:61-67 | one readable image on its way to the writer, resized when a size was requested or its size differs. No contract of its own; the frame clauses of `Walk` state it |
| Timelapse.Walk | mp4_Time_Lapse_Generator.py:54-69 | frames plus skipped equals the number of files; every frame has the target size and comes from a readable file in the list; a frame skips the resize exactly when no size was requested and the image already has the target size; the first file, if readable, gives the first frame |
| Timelapse.WalkCountsUnreadable | mp4_Time_Lapse_Generator.py:54-59 | the skipped count equals the number of files whose read fails |
| Timelapse.WalkSources | mp4_Time_Lapse_Generator.py:55-69 | the frames written come from exactly the readable files, one frame per file, in list order |
| Timelapse.EveryReadableFileWritten | mp4_Time_Lapse_Generator.py:55-69 | every readable file in the list appears as the source of some written frame |
| Timelapse.Assemble | mp4_Time_Lapse_Generator.py:32-69 | the run fails with `NoImages` exactly on an empty list. It fails with `FirstUnreadable(files[0])` exactly when the first file is unreadable, and with `WriterNotOpened` exactly when that file is readable but the writer did not open. Otherwise: the size is `resize_to` if given, else the first image's; "frames used" equals the frames written; used plus skipped equals the file count; skipped counts the unreadable images; every frame has the size |
| Timelapse.MakeTimelapse | mp4_Time_Lapse_Generator.py:30-73 | the normalised list is duplicate-free, sorted and holds exactly the gathered paths. The run fails with `NoImages` exactly when nothing was gathered, and otherwise behaves as `Assemble` on the normalised list |

## Left out

- Gathering files with `glob` (lines 24-28). Its pattern and case semantics depend on the platform, so the gathered paths are an input.
- Unicode. Digits are ASCII `'0'..'9'` and lower-casing maps only `'A'..'Z'`. Python's `\d`, `str.isdigit` and `str.lower` also cover non-ASCII characters, and there `\d` and `isdigit` disagree (for example on superscript digits).
- Windows paths. `Basename` splits on `/` only, as POSIX `os.path.basename` does; the Windows variant also splits on `\` and after a drive letter.
- The order among distinct paths with equal keys, such as `img7.png` and `img007.png`. In the source it follows the iteration order of a `set`, which is not specified. `SortSet` picks elements in an arbitrary order, and the contracts promise only a sorted, duplicate-free list of the gathered paths.
- OpenCV calls: `imread`, `resize`, `VideoWriter`, fourcc, `isOpened`, `write` and `release`. Reading is the `read` parameter, and the two reads of the first file (lines 36 and 56) are assumed to agree. Opening the writer is the `writerOpens` parameter. Resizing is recorded only as a flag and the target size.
- Invalid sizes. `Size` uses natural numbers, and `resize_to` values that OpenCV would reject (zero) are not modelled as errors.
- The resize of the first image when `resize_to` is given (line 42). Its result is never used afterwards.
- The `fps`, `codec` and `output_path` arguments. They only affect the writer, which is abstracted to `writerOpens`.
- Printing (lines 72-73). The printed "frames used" value is `Report.used`, computed as in line 73, and the skipped count is `Report.skipped`.
- The example invocation under `__main__` (lines 75-83).
