# Raspberry-Pi person counter: a Dafny model of its core

The person counter samples a camera and runs an object detector on each
frame. It keeps the rows of the detector's output that are people and
counts them. It then aggregates the counts over a window of five frames and
posts one summary per window to a server. A push button starts and stops
the pipeline.

This project models the pure logic of that pipeline and proves properties
of it:

- `Aggregator` (aggregator.dfy) is the rolling count window, `Data.process_result`,
  in `tensor-flow/package/data.py` and its copy in `tensor-flow/detect_picamera.py`.
  It covers the constructor, `mode_index`, and the `finally` of `post_data` /
  `send_data` that clears the dictionary. A window is the counter plus the values
  stored under `img1 .. img5`. A flush produces a `Sample` carrying the five
  counts, the `mode`, the timestamp, and whether the POST succeeded.
- `Sorting` (sorting.dfy) is Python's `sorted` on a list of ints. It also gives the
  rank facts about the value found at a fixed index of the sorted list.
- `PyText` (text.dfy) holds the Python string operations that the label parser
  uses: `str.strip`, `str.isdigit`, `int`, and `re.split(r'[:\s]+', s, maxsplit=1)`.
- `Labels` (labels.dfy) is `load_labels`, which parses the label file into a
  dictionary from class index to label.
- `Detections` (detections.dfy) is the person filter of `detect_objects`. It keeps
  rows of class 0 whose score reaches the threshold. It also models the
  `IndexError` raised when a tensor is shorter than `count`.
- `Toggle` (toggle.dfy) is the `switch` callback of `tensor-flow/package/sig.py`,
  which drives the LED and the `button_press` event.
- `PeopleCount` (people_count.dfy) is `people_count` of the OpenCV variant. It
  counts the entries equal to 1 in the flattened class-id array.

Inputs from outside the program are parameters of the model:

- the number of detections in the current frame;
- the clock reading used as the timestamp;
- whether the HTTP POST succeeded;
- the lines of the label file;
- the output tensors and `count` of the interpreter.

The call that finds five stored counts flushes them and drops its own
frame's count, so one sample comes out per six calls. Fifteen frames counting
1..5 three times give two samples, both with `mode` 3, and leave 3, 4, 5
stored (`Aggregator.FifteenFrames`). `M` calls from a fresh `Data` give
`M / 6` samples (`Aggregator.RunFromInit`).

`process_result` compares the counter with the literal 5, whatever
`collection_limit` is. So a flush always sorts exactly five values. The index
`collection_limit // 2` therefore raises `IndexError` unless `collection_limit` lies in -10 .. 9.
When that happens, the counter has already been reset but the stored counts
are kept (`Aggregator.Step`, `Aggregator.FlushRaisesIff`).

## Model

| member | source | states |
|---|---|---|
| Aggregator.Init | tensor-flow/package/data.py:16-21 | a new `Data` has counter 0 and no stored counts, which satisfies the window invariant |
| Aggregator.ModeIndex | tensor-flow/package/data.py:24-26 | `collection_limit // 2` is Python floor division: `2r <= limit < 2r + 2`, including negative limits |
| Aggregator.PyIndex | tensor-flow/package/data.py:36 | indexing a Python list of length n succeeds exactly for `-n <= i < n`; a negative index counts from the end |
| Aggregator.Step | tensor-flow/package/data.py:28-39 | one `process_result` call keeps the window invariant. Below five stored counts it stores the frame's count under the next key and leaves every other key unchanged. At five it either flushes the five counts, with the sorted value at the order index, the timestamp and the POST outcome, and leaves an empty window; or it raises exactly when the index is out of range, with the counter reset and the counts kept |
| Aggregator.ProcessResult | tensor-flow/package/data.py:24-39 | a call raises exactly when it finds five counts and `collection_limit` lies outside -10 .. 9; a flush carries the five stored counts and leaves an empty `Data` |
| Aggregator.PicameraProcessResult | tensor-flow/detect_picamera.py:130-141 | with index 2 a call never raises; it flushes exactly when five counts are stored, carrying those counts and leaving an empty dictionary |
| Aggregator.FlushRaisesIff | tensor-flow/package/data.py:28-36 | from a fresh `Data`, the sixth call raises exactly when `collection_limit` lies outside -10 .. 9. It then leaves no sample, the counter at 0 and the five counts stored, and the run stops; otherwise the sixth call flushes one sample and empties the window |
| Aggregator.DefaultLimitIsPicamera | tensor-flow/detect_picamera.py:130-141 | with the default `collection_limit` of 5, data.py's `Data` behaves exactly like detect_picamera.py's, which hard-codes index 2 |
| Aggregator.FlushIsMedian | tensor-flow/detect_picamera.py:136-141 | with index 2 no call raises, and every flushed `mode` is one of the five counts, with at least three counts at most it and at least three at least it |
| Aggregator.UploadOutcomeIrrelevant | tensor-flow/package/data.py:41-52 | the dictionary is cleared in `finally`, so a failed POST leaves the same window as a successful one |
| Aggregator.RunPrefix | tensor-flow/package/data.py:54-58 | over any sequence of calls, the window invariant holds and every flushed sample holds five counts with `mode` at the sorted order index |
| Aggregator.Run | tensor-flow/detect_picamera.py:158-163 | the same for one call per element of a whole sequence |
| Aggregator.RunFromInit | tensor-flow/package/data.py:28-52 | from a fresh `Data`, with an index that fits five values, n calls never raise. They flush exactly n / 6 samples; sample k holds the counts of calls 6k .. 6k+4 and the timestamp of call 6k+5; the last n % 6 counts are stored under `img1 ..` |
| Aggregator.FifteenFrames | tensor-flow/detect_picamera.py:130-141 | fifteen frames counting 1..5 three times give two samples with `mode` 3, and leave 3, 4, 5 stored |
| Aggregator.AscendingWindowExample | tensor-flow/package/data.py:34-36 | a full window 0, 1, 2, 3, 4 flushes with `mode` 2 under the default limit |
| Sorting.Sort | tensor-flow/package/data.py:36 | `sorted` returns an ascending permutation of its argument |
| Sorting.SortIsUnique | tensor-flow/package/data.py:36 | any ascending permutation of the values is the one `sorted` returns |
| Sorting.OrderStatistic | tensor-flow/package/data.py:36 | the value at index k of the sorted list is one of the values, at least k + 1 values are at most it and at least n - k are at least it |
| Sorting.MiddleOfFive | tensor-flow/detect_picamera.py:138 | index 2 of five sorted values is a median of the five |
| PyText.IsSpace | tensor-flow/package/detector.py:25 | the code points Python's `str.isspace` accepts, which are also what `\s` matches in a `str` pattern |
| PyText.StripLeft | tensor-flow/package/detector.py:25 | `lstrip` returns the longest suffix not starting with whitespace, having removed only whitespace |
| PyText.StripRight | tensor-flow/package/detector.py:25 | `rstrip` returns the longest prefix not ending in whitespace, having removed only whitespace |
| PyText.Strip | tensor-flow/package/detector.py:25 | `strip` leaves no whitespace at either end and never lengthens the text |
| PyText.StripOf | tensor-flow/package/detector.py:25 | `strip` of whitespace, a trimmed text and whitespace is exactly that text |
| PyText.StripShape | tensor-flow/package/detector.py:25 | `strip(s)` is a piece of `s` with only whitespace before and after it |
| PyText.StripIdempotent | tensor-flow/package/detector.py:25 | stripping twice is stripping once |
| PyText.StripNoSep | tensor-flow/package/detector.py:26-29 | a text with no colon or whitespace, such as the first piece of the split, is its own strip, so `pair[0].strip()` is `pair[0]` |
| PyText.SplitOnce | tensor-flow/package/detector.py:25 | `re.split(r'[:\s]+', s, maxsplit=1)` gives `[s]` exactly when `s` has no colon or whitespace. Otherwise it gives the separator-free text before the leftmost run and the text after the whole greedy run |
| PyText.SplitOf | tensor-flow/package/detector.py:25 | a separator-free head, a run of separators and a rest not starting with one split into exactly that head and rest |
| PyText.IsDigits | tensor-flow/package/detector.py:26 | `isdigit`: a non-empty string of digits |
| PyText.DigitsValue | tensor-flow/package/detector.py:27 | `int` of a digit string reads zero exactly when every digit is `0` |
| PyText.DigitsRoundTrip | tensor-flow/package/detector.py:27 | `int(str(n)) == n`, ignoring CPython's 4300-digit limit on decimal conversion |
| PyText.LeadingZero | tensor-flow/package/detector.py:27 | a leading zero does not change the value `int` reads |
| Labels.ParseLine | tensor-flow/package/detector.py:24-29 | a line yields a non-negative key and a label with no surrounding whitespace |
| Labels.Assign | tensor-flow/package/detector.py:23-29 | assigning entries in order: every entry's key is present, every key comes from an entry, the last entry with a key wins, and there are at most as many keys as entries |
| Labels.LoadLabels | tensor-flow/package/detector.py:18-30 | the dictionary holds exactly the lines' keys; a key maps to the label of the last line with that key; there are at most as many keys as lines |
| Labels.DigitsLine | tensor-flow/package/detector.py:25-27 | a line led by any digit string (after whitespace, before separators and a label) is keyed by the value of those digits, whatever the row |
| Labels.NumberedLine | tensor-flow/package/detector.py:25-27 | whitespace, the number n, separators, a label and whitespace give `n -> label`, whatever the row |
| Labels.ZeroPaddedLine | tensor-flow/package/detector.py:27 | a zero-padded number keys the label by its value |
| Labels.WordThenMore | tensor-flow/package/detector.py:25-29 | a line whose first word is not a number keeps only that word, keyed by its row |
| Labels.DigitsThenColon | tensor-flow/package/detector.py:25-27 | a number followed only by separators ending in a colon (`12:`, `12 :`) splits into the number and an empty rest, so it gives `number -> ""`; the same number alone on its line is keyed by its row |
| Labels.WordThenColon | tensor-flow/package/detector.py:25-29 | a word that is not a number, followed only by separators ending in a colon, keeps the word under its row |
| Labels.SingleWord | tensor-flow/package/detector.py:28-29 | a one-word line, even an all-digit one, is keyed by its row |
| Labels.BlankLine | tensor-flow/package/detector.py:28-29 | a blank line maps its row to the empty label |
| Labels.LeadingColon | tensor-flow/package/detector.py:25-29 | a line whose first non-blank character is `:` maps its row to the empty label |
| Labels.NumberedFile | tensor-flow/detect_picamera.py:50-61 | a file of lines `n name` with distinct numbers yields exactly the dictionary from those numbers to those names |
| Labels.PlainFile | tensor-flow/detect_picamera.py:50-61 | a file of one-word lines maps each row number to its word and has no other key |
| Detections.ReadRow | tensor-flow/package/detector.py:56-63 | one loop iteration raises exactly when a read it makes is out of range. It keeps the row exactly when the row is readable, the score reaches the threshold and the class is 0; it then records that row's box, class and score |
| Detections.KeptRows | tensor-flow/package/detector.py:55-63 | the kept rows are increasing, all below `count`, all person rows whose score reaches the threshold, and include every such row |
| Detections.DetectObjects | tensor-flow/package/detector.py:55-64 | the loop returns a list exactly when every row below `count` is readable, and the list is the reference filter `People`. Otherwise it raises at the first unreadable row |
| Detections.PeopleStep | tensor-flow/detect_picamera.py:90-97 | one more row appends its detection exactly when it is kept |
| Detections.OnlyPeople | tensor-flow/package/detector.py:57-63 | every returned detection has class 0, a score at least the threshold, and the box and score of one row below `count` |
| Detections.AllPeople | tensor-flow/detect_picamera.py:91-97 | every person row below `count` whose score reaches the threshold is returned |
| Detections.RowOrder | tensor-flow/detect_picamera.py:89-98 | detections come out in row order, each with its own row's values |
| Detections.HigherThresholdReadable | tensor-flow/detect_picamera.py:91 | a row readable at one threshold is readable at a higher one |
| Detections.HigherThresholdKeepsFewerRows | tensor-flow/detect_picamera.py:91 | a higher threshold never keeps more rows |
| Detections.HigherThresholdKeepsFewer | tensor-flow/detect_picamera.py:91 | a higher threshold never returns more detections |
| Detections.CommandLineKeepsFewer | tensor-flow/detect_picamera.py:243-248 | the command-line default 0.6 never reports more people than the `Detector` default 0.4 on the same frame, and raises on no frame the 0.4 filter reads safely |
| Detections.NoPersonNoDetection | tensor-flow/package/detector.py:55-64 | a frame without class-0 rows gives the empty list, not an error |
| Detections.LongTensorsNeverRaise | tensor-flow/package/detector.py:55-63 | tensors at least `count` long never raise |
| Toggle.Init | tensor-flow/package/sig.py:5-9 | at start-up the LED is off and the event is clear |
| Toggle.Press | tensor-flow/package/sig.py:17-23 | a press always flips the LED and leaves the event equal to the new LED state |
| Toggle.Presses | tensor-flow/package/sig.py:17-23 | after at least one press the LED and the event agree |
| Toggle.AlwaysAgree | tensor-flow/package/sig.py:17-23 | from start-up on, the event is set exactly while the LED is lit |
| Toggle.PressRepairs | tensor-flow/package/sig.py:18-23 | a press sets both outputs from the LED alone, so it restores agreement from any state |
| Toggle.PressTwice | tensor-flow/package/sig.py:17-23 | two presses undo each other in every state where LED and event agree |
| Toggle.OddPressesRun | tensor-flow/package/sig.py:17-23 | from start-up, the pipeline is enabled and the LED lit exactly after an odd number of presses |
| PeopleCount.Flatten | opencv/Controller/detector.py:41 | `flatten()` lays the rows out one after the other |
| PeopleCount.FlattenAppend | opencv/Controller/detector.py:41 | flattening a concatenation of rows is the concatenation of the flattenings |
| PeopleCount.FlattenCell | opencv/Controller/detector.py:41 | row-major order: cell j of row i sits at position j after all cells of the earlier rows |
| PeopleCount.Occurrences | opencv/Controller/detector.py:40-43 | a count of occurrences never exceeds the length |
| PeopleCount.OccurrencesIsMultiplicity | opencv/Controller/detector.py:40-43 | counting one by one gives the multiplicity of the value |
| PeopleCount.CountPeople | opencv/Controller/detector.py:39-44 | the count is the number of entries equal to 1 in the flattened array, and at most its size |
| PeopleCount.OccurrencesAppend | opencv/Controller/detector.py:41-43 | the count over a concatenation is the sum of the counts |
| PeopleCount.CountByRows | opencv/Controller/detector.py:41 | the count over the flattened array is the sum of the per-row counts |
| PeopleCount.OtherClassesIgnored | opencv/Controller/detector.py:42-43 | a detection of another class does not change the count |

## Left out

- Opening and decoding the label file, camera capture, image conversion and the TensorFlow Lite / OpenCV inference are left out. They are I/O and foreign code; their results are parameters.
- The HTTP POST, credentials and environment variables are left out: the POST's success is a boolean parameter. `sleep` is left out as well.
- The timestamp is a string parameter. `datetime.now().isoformat(...)` reads the clock.
- `people_count` returns `None` and prints the count (opencv/Controller/detector.py:44); `PeopleCount.CountPeople` returns that count instead of printing it. The other `print` calls are left out.
- The threads and loops that call the core are left out: `timer_thread`, `start_background`, `watch_background`, the `button_interrupt` wrapper, `pause`, and `KeyboardInterrupt` handling. Runs of calls are modelled in their place (`Aggregator.Run`), sequentially. Concurrency between the timer thread and the capture loop is not modelled.
- Drawing boxes and labels (`annotate_objects`), `set_input_tensor` and `get_output_tensor` are left out. In tensor-flow/detect_picamera.py they only move data to and from the interpreter.
- `Detector.detect_objects` in tensor-flow/package/detector.py is not modelled as a whole: at lines 46 and 50-53 it calls the instance methods `set_input_tensor` and `get_output_tensor` with `self.interpreter` as an extra argument, so as written it raises `TypeError` at line 46 and never reaches its loop. `Detections.DetectObjects` models the loop as it runs in tensor-flow/detect_picamera.py:89-98, which the package copy's lines 55-64 repeat.
- `Data.detection_list` / `Data.results` are left out; only their length enters `process_result`, as the `detected` parameter.
- `count` of the detector is given as an integer. The source's `int(...)` conversion of the float tensor is left out.
- Scores and class ids are mathematical reals. Float32 rounding and NaN scores are not modelled.
- PyText.IsDigits: accepts only the ASCII digits `0`..`9`, because the model has no Unicode digit tables. Python's `isdigit` also accepts other Unicode digits and superscripts. For a first piece such as `٣` (U+0663), `load_labels` keys the line by `int`'s value, 3. For one such as `²`, `int` raises `ValueError`. `Labels.ParseLine` therefore keys both kinds of line by their row, and the model has no `ValueError` path.
- PyText.DigitsValue: has no limit on the length of the digit string. CPython (3.11 on, and the 3.10.7, 3.9.14, 3.8.14 and 3.7.14 releases) refuses to convert a decimal string of more than 4300 digits, so `int(pair[0])` raises `ValueError` on a line such as 4301 ones followed by ` person`, and `load_labels` fails. `Labels.ParseLine` returns an entry for it; the model has no such `ValueError` path.
- The label dictionary is described by properties of its keys and values; the insertion order of the Python dictionary is not modelled.
- The class-id array of `people_count` is taken as a list of rows. The case where `net.detect` returns an empty tuple, which has no `flatten`, belongs to `detect` and is left out.
- `Data.post_data_semaphore` and `Data.flag` are left out; they only stop the timer loop.
