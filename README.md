# Plant-Recognizer label and result pipeline, in Dafny

The Plant-Recognizer ships two front ends over one pretrained plant
classifier: an HTTP server (`server.py`) and an interactive command-line
program (`src/main.py`). Around the classifier, both do the same small job.
They read a label map file of `"<index> <name>"` lines. They turn the
classifier's score vector into the best index and look up its label. Then
they turn that label into a display name through an ordered table of seven
flower substrings. The CLI also writes a fallback label file when the real
one cannot be downloaded. It reports the top five predictions and lets the
user pick an image from a menu.

This project models that pipeline and proves its properties:

- `Text`: the pieces of Python's `str` the pipeline relies on. These are
  `isspace`, `strip()`, `split(maxsplit=1)`, `int()`, `f"{k}"`, `lower`,
  `capitalize`, `title`, `in`, `endswith`, `strip('"')` and reading a text
  file line by line (universal newlines, each line keeping its `"\n"`).
- `LabelFile`: the label-file format shared by `load_labels` and
  `load_label_map`. The loading loop (`ReadLabelLines`, `AddLine`) is proved
  against `ParseLabels`, and `ParseLabels` is characterised line by line.
- `Naming`: `get_pretty_name` / `get_pretty_flower_name`, i.e. the first
  table substring found in the lower-cased label, else `capitalize()`.
- `Scores`: `np.argmax` (first index of the maximum) and the CLI's top five.
- `Server`: `load_labels` with its missing-file case, and the result part
  of `/predict`.
- `Cli`: the fallback label-file writer and its round trip through the
  reader, `load_label_map` with its fallback table, the result part of
  `predict_flower`, and the `get_image_path` menu loop.

The classifier's scores, the label file's state (missing, unreadable, or its text), the
directory listing, the set of existing paths and the console lines are
inputs of the model.

Behaviour of the code worth knowing:

- A line whose first token is not an integer is not skipped. `int()` raises
  `ValueError`, which ends loading. In the server, that error escapes. In
  the CLI, it replaces everything read so far with the fallback table.
- The display name of `""` is `""`, since `"".capitalize()` is `""`.
- Indices may be negative: `int()` accepts a sign.
- The description is built from the display name alone.

Also visible in the code: the CLI's fallback table (used when reading
fails) binds daisy to 1945 and 1752. The fallback file it writes binds
Daisy to 1896. Both are modelled as written.

## Model

| member | source | states |
|---|---|---|
| Text.IsSpace | server.py:61 | the characters `str.isspace()` accepts, which `strip()` and `split()` drop |
| Text.TrimLeft | server.py:61 | `lstrip()`: drops whitespace from the front; characterised by `TrimLeftSpec` |
| Text.TrimRight | server.py:61 | `rstrip()`: drops whitespace from the end; characterised by `TrimRightSpec` |
| Text.Strip | server.py:61 | `strip()`: `rstrip()` after `lstrip()`; characterised by `StripSpec`, `StripOf` and `StripUnpadded` |
| Text.TrimLeftSpec | server.py:61 | `lstrip` keeps a suffix of the text, drops only whitespace and leaves none at the front |
| Text.TrimRightSpec | server.py:61 | `rstrip` keeps a prefix, drops only whitespace and leaves none at the end |
| Text.StripSpec | server.py:61 | a stripped text neither starts nor ends with whitespace |
| Text.StripOf | server.py:61 | stripping whitespace padding gives back exactly the unpadded text, inner whitespace kept |
| Text.StripUnpadded | server.py:61 | a text with no whitespace at either end is unchanged by `strip()` |
| Text.StripQuotes | src/main.py:110 | `strip('"')` leaves no double quote at either end |
| Text.StripQuotesInfix | src/main.py:110 | `strip('"')` returns a slice of its input, and everything cut away on either side is a double quote |
| Text.StripQuotesUnquoted | src/main.py:110 | a text with no double quote at either end is unchanged by `strip('"')` |
| Text.TokenEnd | server.py:61 | the index where the first whitespace-free token ends; characterised by `TokenEndSpec` |
| Text.SplitOnce | server.py:61 | `split(maxsplit=1)`: the first token and the rest after the whitespace that follows it, at most two parts; characterised by `SplitOnceSpec`, `SplitOnceOf` and `TwoPartsIff` |
| Text.SplitOnceSpec | server.py:61 | `split(maxsplit=1)` gives no empty part; no part at all exactly when the text is blank; the first part is one whitespace-free token; the second part does not start with whitespace |
| Text.TokenEndSpec | server.py:61 | the first token ends at the first whitespace character |
| Text.SplitOnceOf | server.py:61 | a token, a whitespace run and a name split into exactly `[token, name]` |
| Text.TwoPartsIff | server.py:61-62 | a stripped text splits into two parts if and only if it contains whitespace |
| Text.ParseInt | server.py:63 | `int()` on a `str`: surrounding whitespace ignored, one optional sign, a run of digits with single underscores between digits; none for the `ValueError`; characterised by the `ParseIntOf*` lemmas |
| Text.NatToString | src/main.py:49 | `str(n)` for a natural number: its decimal digits, no leading zero; characterised by `NatToStringDigits` |
| Text.IntToString | src/main.py:49 | `f"{k}"`: a minus sign for a negative number, then the digits; read back by `ParseIntOfIntToString` |
| Text.ParseIntOfDigits | server.py:63 | `int()` reads a run of digits as its decimal value |
| Text.ParseIntOfNegatedDigits | server.py:63 | `int()` reads `-` and digits as the negated value |
| Text.ParseIntOfIntToString | src/main.py:49-59 | `int()` reads back every integer `f"{k}"` writes |
| Text.IntToStringIsToken | src/main.py:49 | `f"{k}"` is non-empty and has no whitespace or line break |
| Text.NatToStringDigits | src/main.py:49 | `str(n)` is a non-empty run of digits whose value is `n` |
| Text.Lower | server.py:74 | `lower()`: each ASCII capital replaced by its small letter, every other character kept |
| Text.Capitalize | server.py:76 | `capitalize()`: the first character upper-cased and all others lower-cased |
| Text.Title | server.py:104 | `title()`: a letter after a non-letter upper-cased, a letter after a letter lower-cased, everything else kept |
| Text.Occurs | server.py:74 | `key in text`: some window of the text equals the key |
| Text.EndsWith | src/main.py:121 | `endswith(suffix)`: the last characters of the text are the suffix |
| Text.LowerCapitalize | server.py:76 | `capitalize()` keeps the length and changes only case |
| Text.CapitalizeIdempotent | server.py:76 | capitalizing twice is capitalizing once |
| Text.TitleOnlyChangesCase | server.py:104 | `title()` keeps the length, changes only case and is idempotent |
| Text.Translate | server.py:59 | text-mode reading: `"\r\n"` and a lone `"\r"` become `"\n"` |
| Text.SplitLines | server.py:60 | `for line in f`: the lines, each keeping its `"\n"`; characterised by `SplitLinesInverse` |
| Text.ReadLines | server.py:59-60 | the lines a file opened in text mode yields: newlines translated, then split |
| Text.SplitLinesInverse | server.py:59-60 | the lines of a file put back together give its text; each line is non-empty and holds `"\n"` only at its end, and every line but the last ends with one |
| Text.SplitLinesCons | server.py:60 | a `"\n"`-terminated first line is split off first |
| Text.SplitLinesOfConcat | server.py:60 | text made of `"\n"`-terminated lines splits back into exactly those lines |
| Text.TranslateWithoutCR | server.py:59 | text without carriage returns is read back unchanged in text mode |
| LabelFile.ParseLine | server.py:61-63 | what one line does: skip unless its stripped text splits into two parts; otherwise bind `int()` of the first part to the second lower-cased, or raise when `int()` fails; characterised by `ParseLineOf` and `ParseLineSkipIff` |
| LabelFile.Step | server.py:60-63 | one iteration of the loop on the dictionary so far: an escaped error stays, a skip changes nothing, an entry assigns its key, a bad index raises |
| LabelFile.Kinds | server.py:60-61 | each line classified on its own |
| LabelFile.Fold | server.py:60-63 | the loop over classified lines: `Step` from the empty dictionary, in file order |
| LabelFile.ParseLabels | server.py:57-64 | the dictionary the loop builds or the first `ValueError`; equal to `Fold(Kinds(lines))` by `ParseLabelsIsFold` |
| LabelFile.ParseLineOf | server.py:61-63 | a line whose stripped text is token, whitespace, name binds `int(token)` to the name lower-cased, inner spaces kept, or raises when `int(token)` fails |
| LabelFile.ParseLineSkipIff | server.py:61-62 | a line is skipped if and only if its stripped text has no whitespace (blank or one token) |
| LabelFile.SkipIffNotTwoParts | server.py:62 | a line is skipped exactly when its split does not give two parts |
| LabelFile.ReadLabelLines | server.py:57-63 | the loading loop returns exactly `ParseLabels` of the lines: the dictionary built, or the first `ValueError` |
| LabelFile.AddLine | server.py:61-63 | one loop iteration performs one `Step` on the dictionary built so far |
| LabelFile.StepOfParts | server.py:61-63 | one iteration in terms of the split parts: fewer or more than two leave the map; two bind or raise |
| LabelFile.ParseLabelsIsFold | server.py:60-63 | loading is a left fold of the line classifications, stopped by the first error |
| LabelFile.ParseLabelsSnoc | server.py:60 | reading one more line applies one more step |
| LabelFile.ParseLabelsPrefixError | server.py:63 | once a line has raised, the rest of the file does not matter |
| LabelFile.ParseLabelsOkIff | server.py:60-63 | loading succeeds if and only if no two-part line has a non-integer first part |
| LabelFile.ParseLabelsFirstError | server.py:63 | the error reported is the one raised by the first failing line |
| LabelFile.ParseLabelsBinding | server.py:63 | an entry line's index is bound to its lower-cased name unless a later line reuses the index: the last one wins |
| LabelFile.ParseLabelsKeys | server.py:60-63 | every bound index comes from an entry line carrying exactly the bound name: nothing else enters the map |
| LabelFile.SkippedLineHasNoEffect | server.py:61-62 | removing a blank or single-token line does not change the result |
| LabelFile.KindsAppend | server.py:60 | lines are classified one by one, independently of each other |
| LabelFile.FoldSnoc | server.py:60 | folding one more classified line applies one more step |
| LabelFile.FoldErrorPersists | server.py:63 | a fold that has failed stays failed |
| LabelFile.FoldOkIff | server.py:60-63 | the fold succeeds if and only if no classified line is a bad index |
| LabelFile.FoldFirstError | server.py:63 | the fold's error is the first bad index |
| LabelFile.FoldBinding | server.py:63 | the last entry for an index decides its binding |
| LabelFile.FoldKeys | server.py:63 | every bound index comes from an entry |
| LabelFile.FoldSkip | server.py:62 | a skipped line leaves the fold unchanged |
| Naming.FirstMatch | server.py:73-75 | the index of the first table row whose substring occurs, with no earlier row occurring; none when no row occurs |
| Naming.PrettyName | server.py:68-76 | the display name is one of the table's seven names or the capitalized label |
| Naming.TableFacts | server.py:69-72 | in `Enhancements` (the table, in insertion order), each display name lower-cases to its own substring; the seven display names differ |
| Naming.PrettyNameIsFirstMatch | server.py:73-75 | a label gets the i-th display name if and only if the i-th substring occurs in the lower-cased label and no earlier one does |
| Naming.PrettyNameFallsBackToCapitalize | server.py:76 | with no substring present, the label is only capitalized |
| Naming.PrettyNameEmptyIff | server.py:76 | the display name is empty if and only if the label is empty |
| Naming.PrettyNameIdempotent | server.py:68-76 | prettifying a display name again changes nothing |
| Naming.PrettyNameOfDisplayName | server.py:69-75 | each of the seven display names is its own display name |
| Naming.EarlierKeyAbsent | server.py:69-72 | no table substring occurs inside a later one |
| Naming.KeyNotInPlant | src/main.py:167 | no table substring has a digit or occurs in `"plant "` |
| Naming.PlaceholderHasNoKey | src/main.py:167 | no table substring occurs in `"plant <digits>"` |
| Naming.PlaceholderPrettyName | src/main.py:167 | `"plant <digits>"` and `"Plant <digits>"` are both displayed as `"Plant <digits>"` |
| Naming.PrettyNamePrimrose | server.py:73-75 | `"primrose"` is displayed as `"Rose"` |
| Naming.PrettyNameIgnoresCase | server.py:74 | `"Common Sunflower"` is displayed as `"Sunflower"`: case does not matter |
| Naming.PrettyNameTableOrder | server.py:73-75 | `"lily rose"` is displayed as `"Rose"`: table order, not position in the label, decides |
| Scores.ArgMax | server.py:96 | `np.argmax`: an index of the maximum score, and no earlier index reaches it |
| Scores.ArgMaxUnique | server.py:96 | the first index of the maximum is the only index with both properties |
| Scores.Outranks | src/main.py:171 | the ranking of the top five: a higher score first, and among equal scores the higher index first |
| Scores.OutranksTotal | src/main.py:171 | the top-five ranking is a strict total order on indices |
| Scores.Pick | src/main.py:171 | the best-ranked index not yet taken, or none when all are taken |
| Scores.TopFrom | src/main.py:171 | up to k untaken indices, strictly ranked, none left over ranking higher, as many as k and the free indices allow |
| Scores.TopFive | src/main.py:171 | `argsort()[-5:][::-1]`: the five best-ranked indices, best first; characterised by `TopFiveSpec` |
| Scores.TopFiveSpec | src/main.py:170-173 | the top five are `min(5, n)` distinct indices with non-increasing scores; no index left out scores higher than any of them |
| Scores.TopFiveHeadIsMax | src/main.py:171 | the first of the top five has the maximum score, and it is the argmax when the maximum is unique |
| Server.LoadLabels | server.py:56-64 | a missing file gives the empty map; a file that exists but cannot be read is an error; otherwise the result of loading the file's lines, a `ValueError` included |
| Server.RawName | server.py:99 | the label map's entry, or exactly `"Plant <index>"` when the index is absent |
| Server.Describe | server.py:100-107 | the response fields from the raw label: display name, title-cased label, description template, raw label |
| Server.Predict | server.py:96-107 | the result is an error if and only if the score vector is empty |
| Server.PredictSpec | server.py:96-107 | the response is for the first index of maximum score: its raw label is the entry or `"Plant <index>"`, its name is the display name of that label, its description is `"This appears to be a healthy "` + name + `"."`, and its scientific name is the label title-cased, which has the same letters up to case |
| Server.DescriptionName | server.py:106 | a description read back gives a name that rebuilds it through the template |
| Server.DescriptionRoundTrip | server.py:106 | the name can be read back from every description |
| Server.PredictNameRange | server.py:100 | the response's name is one of the seven display names or the capitalized raw label |
| Server.UnknownIndexResponse | server.py:99-107 | an unknown index gives `"Plant <index>"` as name, scientific name and raw label alike |
| Server.PlaceholderTitle | server.py:104 | title-casing leaves `"Plant <digits>"` unchanged |
| Server.PredictExample | server.py:96-107 | scores `[0.1, 0.7, 0.2]` with index 1 labelled `"rose"` give name Rose, scientific name Rose and the Rose description |
| Cli.LineOf | src/main.py:49 | `f"{k} {v}\n"` for one entry |
| Cli.FileLines | src/main.py:48-49 | one written line per entry, in `basic_labels` order |
| Cli.WriteLabelFile | src/main.py:47-49 | the writer loop leaves one `"k v\n"` line per entry, in order |
| Cli.FileLinesSnoc | src/main.py:48-49 | one more entry gives one more line at the end |
| Cli.LineOfParses | src/main.py:49-59 | a written line reads back as its key bound to its name lower-cased |
| Cli.LineOfShape | src/main.py:49 | a written line ends with its only `"\n"` and has no carriage return |
| Cli.ReadWrittenLines | src/main.py:47-56 | reading the written file gives back the written lines |
| Cli.FoldWrittenLines | src/main.py:48-59 | loading the written lines gives the entries' bindings, the last one winning |
| Cli.WriteThenParse | src/main.py:38-59 | round trip: a file written from entries with well-formed names loads without error as their bindings |
| Cli.Bindings | src/main.py:48-59 | what reading the entries back should give: each key bound to its name lower-cased, a later entry overriding an earlier one |
| Cli.BindingsOfDistinctKeys | src/main.py:38-46 | with distinct keys, each key is bound to its own name lower-cased and no other key is bound |
| Cli.BasicLabelsWellFormed | src/main.py:38-46 | the seven fallback names survive writing and reading |
| Cli.BasicLabelsBindings | src/main.py:38-46 | the seven entries of `BasicLabels` (the `basic_labels` dictionary in insertion order) bind each key to its name lower-cased |
| Cli.BasicLabelsRoundTrip | src/main.py:38-59 | the written fallback file loads as the seven keys bound to their lower-cased names and nothing else |
| Cli.LoadLabelMap | src/main.py:52-74 | a file that is missing or cannot be read, or a `ValueError`, gives the fallback table, discarding what was read; otherwise the loaded map |
| Cli.FallbackTableFacts | src/main.py:63-73 | `FallbackTable`, the table of the `except` branch, has nine entries; 1220 and 410 are both rose, 1945 and 1752 both daisy |
| Cli.DisplayName | src/main.py:167-172 | `get_pretty_flower_name(plant_labels.get(c, f"plant {c}"))` |
| Cli.UnknownIndexDisplayName | src/main.py:167 | an unknown index is displayed as `"Plant <index>"` |
| Cli.PredictFlower | src/main.py:163-173 | no result (numpy raises) if and only if the score vector is empty |
| Cli.PredictFlowerSpec | src/main.py:163-173 | the best match names the first index of maximum score; the top list has `min(5, n)` entries for distinct indices, each paired with its own display name and score, scores non-increasing, none left out scoring higher, led by the maximum |
| Cli.IsImageName | src/main.py:120-121 | the lower-cased name ends with `.jpg`, `.jpeg`, `.png`, `.webp` or `.bmp` |
| Cli.FilterImages | src/main.py:120-121 | the offered names are exactly the listing's names whose lower-cased form ends with an image extension |
| Cli.FilterImagesAppend | src/main.py:121 | filtering keeps the listing's order |
| Cli.ImageNameExamples | src/main.py:120-121 | `"Rose.JPG"` is an image name and `"notes.txt"` is not |
| Cli.ChooseImage | src/main.py:131-143 | 0 goes back; k in 1..n picks `images[k-1]`; other integers are an invalid selection; non-integers are invalid input; each case if and only if |
| Cli.ChoosePrintedNumber | src/main.py:128-139 | the number printed beside an image selects that image |
| Cli.Menu | src/main.py:100-150 | where the menu ends for the console lines still to be read: option 1 returns an existing path and otherwise asks again; option 2 returns a picked image and otherwise asks again; option 3 exits; anything else asks again; running out of lines ends the loop |
| Cli.GetImagePath | src/main.py:98-150 | the menu loop ends exactly as `Menu` describes: a chosen path, exit, or input running out |
| Cli.MenuChosenPath | src/main.py:108-139 | a returned path either exists or is an image name from the listing |
| Cli.MenuBack | src/main.py:133-136 | answering 0 returns to the menu, which reads on from the next line |
| Cli.MenuPicksPrintedNumber | src/main.py:118-139 | option 2 followed by a printed number returns that image |
| Cli.MenuRetriesMissingPath | src/main.py:110-115 | a path that does not exist sends the user back to the menu |

## Left out

- Model loading and inference (TensorFlow Hub, TFLite `invoke`, `model.predict`): foreign calls. The score vector is an input.
- Image decoding, resizing and normalisation (PIL, `/255.0`): library image processing on floats.
- The confidence (`np.max * 100`, `round(.., 1)`, the `:.1f` formatting): float formatting that does not affect which index is chosen.
- HTTP, FastAPI routing, CORS and uvicorn; the `requests` downloads of the label map: network I/O. The label file is given as its stored text, as absent, or as present but unreadable.
- `open`, `os.path.exists` and `os.listdir`: file-system I/O. Their results (file text, existing paths, listing) are inputs.
- matplotlib output, the printed messages and the CLI's outer `while True` loop with its continue prompt: console and UI output.
- Cli.GetImagePath: `sys.exit(0)` is the outcome `Exit`, and running out of console lines (where `input()` would raise `EOFError`) is the outcome `EndOfInput`. `KeyboardInterrupt` is not modelled.
- Cli.GetImagePath: the directory listing is one input for the whole call, so a directory that changes between visits to option 2 is not modelled.
- Text: case mapping (`lower`, `capitalize`, `title`) covers ASCII letters only, and `int()` accepts ASCII digits only. Other Unicode letters and digits are treated as uncased non-digits.
- Scores.TopFrom: `argsort` uses an unstable sort, so the order among equal scores is not fixed by the source. The model puts the higher index first. Scores.TopFiveSpec and Cli.PredictFlowerSpec state only what holds for any tie order.
- Scores are reals. numpy's float32 values, NaN included, are not modelled.
- LabelFile.LabelSource: a file that cannot be decoded partway through is modelled as `Unreadable`, an error as a whole. When a `ValueError` comes from an earlier line than the decoding failure, the server raises the `ValueError`, not the decoding error. The model does not say which of the two escapes.
- Cli.WriteLabelFile: the text is the one the program writes on a system whose line separator is `"\n"`. In text mode on Windows each `"\n"` is written as `"\r\n"`. Reading translates `"\r\n"` back to `"\n"`, so the loaded map is the same. The round trip is proved only for the `"\n"` form.
- Text.ParseInt: accepts digit runs of any length. Python 3.11 and later raise `ValueError` for a run of more than 4300 digits.
