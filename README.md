# icon-pie, modelled in Dafny

icon-pie is a command-line tool that turns source images (PNG, SVG and other rasters)
into icon containers: ICO, ICNS, or a ZIP of PNG files. The repository holds two
generations of the same front end, and this project models both. In each generation,
command-line strings become tokens, the tokens become a command, the command is checked,
and every image is planned with integer geometry.

- **Newer generation.**
  - `tokens.dfy` is the token classifier (`src/parse/token.rs`).
  - `command_parser.dfy` is the one-token-lookahead parser over a token sequence (`src/parse/mod.rs`).
    The source's peekable cursor is an index into the sequence; each helper returns the next index or an error.
  - `icon_eval.dfy` is the evaluator (`src/eval/mod.rs`). It decodes each distinct source path once into a map, then feeds the entries in order to the icon builder.
    The builder and the decoder are abstract collaborators.
  - `cli.dfy` holds the command, entry and error types these three share.
- **Older generation.**
  - `legacy_parse.dfy` is the tokenizer with `WxH` sizes, `ext`, the per-file size list without repeats, and the top-level loop with its skip-the-first-stray-token flag (`src/parse.rs`).
    It also holds the command and error types that `src/parse.rs` and `src/eval.rs` share.
  - `legacy_eval.dfy` models `src/eval.rs`: the ICO/ICNS size rules, detection of sizes bound twice, the order of checks in `exec`, and `scale::file` with its downsizing guard and reframing.
  - `legacy_img.dfy` models `src/img.rs`, an alternative evaluator: output type by extension, rebinding reports naming both files, the check order in `images`, and `resize` under Proportional or Exact fit.
- **Shared modules.**
  - `imaging.dfy`: images as a width, a height and rows of pixels. It also holds centring, `reframe`, the names of PNG-sequence entries, and the image and SVG libraries as function-valued collaborators.
  - `numerals.dfy`: Rust's unsigned `FromStr` and `format!("{}", n)`.
  - `wrappers.dfy` and `io.dfy`: `Option`/`Result`, and the `io::ErrorKind`s that are distinguished.
  - `sequences.dfy`: lists of lists joined in order, and where each inner element lands. The file-then-size order of both older evaluators is stated with it.

Methods that loop in the source (the tokenizers, `args`, `entry`, `sizes`, `get_source_map`,
`get_icon`, `ext`, `n_sizes`, `validate`, `images`, `scale::file`) are `method`s.
Each is proved equal to a specification function, and the properties are proved about
that function. `File` in `src/parse.rs` is a class, because `add_size` and the attribute loop
update it in place.

Where the code and the design description of the system disagree, the model follows the code:

- The newer tokenizer has no `WxH` size form: `16x16` is a path (`Tokens.PairIsPath`).
- The newer parser accepts repeated sizes (`CommandParser.RepeatedSizeAccepted`).
  Duplicate sizes are left to the icon builder.
- `src/eval.rs` runs the container-size rules before the duplicate check (`LegacyEval.ValidateFirst`).
- Duplicate reports name the size alone (`src/eval.rs`), or the size and the two files' paths (`src/img.rs`).
  Neither names token positions.
- The ICO rule accepts a size of 0.
- The older parser skips one stray token wherever it occurs, not only the first argument (`LegacyParse.StrayTokens`).
- In the newer parser, Help and Version may follow entries, and they discard them (`CommandParser.HelpDiscardsEntries`).
- The older tokenizer panics when a `WxH` component exceeds `u16`, and the model gives the explicit failure `Panicked`.
  A Strict SVG raster larger than its box underflows a `u32` in `reframe`. That panics only in a debug build and wraps around in a release build. The model gives `Panicked` for both builds.

## Model

| member | source | states |
|---|---|---|
| Numerals.ParseUnsigned | src/parse/token.rs:37-38 | Rust's unsigned parse: an optional '+', one or more ASCII digits, and a value below the type's limit; any digit string whose value fits parses to that value |
| Numerals.Decimal | src/parse.rs:71 | `format!("{}", n)` is a non-empty digit string with no leading zero whose value is `n` |
| Numerals.ParseDecimal | src/parse/token.rs:37-38 | parsing the rendering of a value that fits gives the value back |
| Numerals.ParseRejectsNonDigit | src/parse/token.rs:37-44 | a string with a character other than a digit or a leading '+' does not parse |
| Numerals.DecimalInjective | src/eval.rs:136-140 | distinct values render differently |
| Tokens.Classify | src/parse/token.rs:24-46 | the classifier is total; it gives a flag exactly for the flag literals, a filter exactly for `nearest`/`linear`/`cubic`, a size exactly for a non-literal that parses as a `u32` (with that value), and otherwise a path holding the string unchanged |
| Tokens.ClassifyLiterals | src/parse/token.rs:27-36 | each literal spelling gives its fixed flag or filter |
| Tokens.LiteralsAreNotDigits | src/parse/token.rs:26-37 | no literal is a numeral, so literal matching never competes with sizes |
| Tokens.SizeRoundTrip | src/parse/token.rs:37-38 | the decimal rendering of every `u32` is classified as that size |
| Tokens.PairIsPath | src/parse/token.rs:39-44 | `16x16` stays a path |
| Tokens.OverflowIsPath | src/parse/token.rs:37-44 | 2^32 written out stays a path |
| CommandParser.TokensOf | src/parse/mod.rs:53-69 | the arguments are classified in order, and index 0 is dropped exactly when it is a path, so the length is the input's or one less |
| CommandParser.Tokenize | src/parse/mod.rs:53-69 | the loop that pushes each token, then removes a leading path, computes `TokensOf` |
| CommandParser.Advance | src/parse/mod.rs:20 | `it.next()` moves one token on, or stays at the end |
| CommandParser.SizeRunEnd | src/parse/mod.rs:93-98 | the run of sizes ends at the first non-size token or at the end |
| CommandParser.SizeValues | src/parse/mod.rs:93-98 | the collected values are those of the size tokens in order |
| CommandParser.Sizes | src/parse/mod.rs:93-98 | the `sizes` loop stops at the first non-size token and collects the values of the run in order |
| CommandParser.SizeRunEndUnique | src/parse/mod.rs:93-98 | the end of a size run is determined by the tokens |
| CommandParser.FilterAt | src/parse/mod.rs:100-106 | no `-r` gives Nearest without moving; `-r` followed by a filter gives that filter two tokens on; `-r` followed by anything else is UnexpectedToken at that index, and `-r` last is UnexpectedEnd |
| CommandParser.BindingsFor | src/parse/mod.rs:82-84 | one tuple per size, in order, each with the entry's path and filter |
| CommandParser.EntryAt | src/parse/mod.rs:71-91 | success appends bindings and moves at least three tokens on; a missing path or missing first size is UnexpectedToken at the offender's index, and running out is UnexpectedEnd |
| CommandParser.ParseEntry | src/parse/mod.rs:71-91 | the `entry` body (`sizes` into a buffer, then pushing one tuple per size) computes `EntryAt` |
| CommandParser.IconTypeAt | src/parse/mod.rs:119-127 | succeeds exactly on `-ico`/`-icns`/`-png`, with the matching container; otherwise UnexpectedToken at the cursor, or UnexpectedEnd |
| CommandParser.ExpectEnd | src/parse/mod.rs:129-135 | the command stands exactly when no token follows the cursor; otherwise UnexpectedToken at the next index |
| CommandParser.CommandAt | src/parse/mod.rs:108-117 | after a container flag: nothing gives Stdout, a path as the final token gives that file, a non-path is UnexpectedToken at its index, and a token after the path is UnexpectedToken at its index |
| CommandParser.ParseFrom | src/parse/mod.rs:40-50 | the top-level loop: errors index the token sequence, an icon command extends the entries parsed so far, and Help/Version succeed only when their flag is the last token |
| CommandParser.Args | src/parse/mod.rs:29-51 | an empty argument list is Help before any tokenization; the loop computes `ArgsOf`, and UnexpectedToken positions index the stripped token sequence |
| CommandParser.SizeTokens | src/parse/mod.rs:93-98 | the token form of a list of sizes |
| CommandParser.EntryParses | src/parse/mod.rs:71-106 | `-e P s1..sn [-r F]` appends exactly the n tuples `(si, P, F)` in order, with F Nearest when `-r` is absent |
| CommandParser.EntriesParse | src/parse/mod.rs:40-42 | a run of well-formed entries is consumed whole, their tuples appended in order |
| CommandParser.CommandParses | src/parse/mod.rs:40-117 | rendering an icon command as tokens and parsing it gives back its bindings, container and output |
| CommandParser.HelpDiscardsEntries | src/parse/mod.rs:44-45 | Help or Version as the last token succeeds and discards the entries before it |
| CommandParser.MissingContainer | src/parse/mod.rs:50 | entries that reach the end without a container flag give UnexpectedEnd |
| CommandParser.UnexpectedAtTopLevel | src/parse/mod.rs:40-47 | any top-level token other than `-e`, a container flag, Help or Version is UnexpectedToken at its own index |
| CommandParser.RepeatedSizeSpelled | src/parse/mod.rs:71-91 | the tokens and tuples of `-e a.png 16 -e b.png 16` |
| CommandParser.RepeatedSizeAccepted | src/parse/mod.rs:82-84 | the same size in two entries is accepted, in order |
| IconEval.ResamplerRoundTrip | src/eval/mod.rs:5-13 | `resample!` maps Nearest, Linear and Cubic to distinct resamplers, one-to-one and onto |
| IconEval.Paths | src/eval/mod.rs:61 | the paths of the entries, in order |
| IconEval.Distinct | src/eval/mod.rs:61-68 | the distinct paths, each once, exactly the paths that occur |
| IconEval.DistinctPrefix | src/eval/mod.rs:61-68 | the distinct paths of a prefix are a prefix of all distinct paths |
| IconEval.DistinctSnoc | src/eval/mod.rs:62 | one more path adds itself exactly when it has not occurred yet |
| IconEval.FirstFailure | src/eval/mod.rs:63-66 | the first path, in entry order, that fails to decode; every earlier one decodes |
| IconEval.FirstFailureAt | src/eval/mod.rs:63-66 | a failing path with no failure before it is the first failure |
| IconEval.SourceMap | src/eval/mod.rs:56-72 | the keys are exactly the entries' paths, each mapped to its decoded source |
| IconEval.SourceMapUnique | src/eval/mod.rs:56-72 | any map with those keys and those values is the source map |
| IconEval.ScanDone | src/eval/mod.rs:69-71 | a scan that got through every entry yields the source map, with each distinct path decoded once |
| IconEval.FailingPathIsNew | src/eval/mod.rs:62-66 | the first failing path occurs on no earlier entry, so it is handed to the decoder once, and last |
| IconEval.GetSourceMap | src/eval/mod.rs:56-72 | the decoder sees each distinct path at most once, in order of first occurrence; success is the source map, and the first failing path gives NotFound with that path (paths compared as strings) |
| IconEval.AddedFor | src/eval/mod.rs:42-46 | each entry reaches `add_entry` with its filter's resampler, its path's source and its size, in order |
| IconEval.FedDeterministic | src/eval/mod.rs:42-53 | the result of the entry loop is determined by the builder's answers |
| IconEval.AddEntries | src/eval/mod.rs:42-53 | `add_entry` is called once per entry, in order, up to the first error; an I/O error is retagged with the entry's path, and any other is wrapped as IconBaker |
| IconEval.GetIcon | src/eval/mod.rs:38-54 | a failing source map is returned before any `add_entry` call; otherwise every lookup succeeds and the entries are fed in order |
| IconEval.BuildIcon | src/eval/mod.rs:30-36 | the container type picks the builder kind; a decode failure makes no `add_entry` call and is NotFound with the first failing path; otherwise the outcome is `Fed` for that kind, so a finished icon holds every entry in order |
| Imaging.Blank | src/eval.rs:269 | a w×h canvas of transparent pixels |
| Imaging.Overlay | src/eval.rs:273 | the top image replaces the pixels it covers, clipped to the canvas; every other pixel is kept |
| Imaging.Centred | src/eval.rs:269-274 | the centred image has the box's dimensions |
| Imaging.MarginBalanced | src/eval.rs:270-271 | floor-centring leaves margins that differ by at most one and add up with the image to the box |
| Imaging.CentredPixels | src/eval.rs:269-274 | the source sits at `((w-sw)/2, (h-sh)/2)` and every other pixel is transparent |
| Imaging.CentredSameSize | src/eval.rs:266-267 | centring an image of the box's size gives it back |
| Imaging.Reframe | src/eval.rs:265-276 | defined exactly when the source fits the box (the unsigned offsets), and then exactly w×h |
| Imaging.ReframePixels | src/eval.rs:265-276 | a matching source is returned unchanged; otherwise it is placed at the floor offsets on a transparent canvas |
| Imaging.PngEntryNameParts | src/eval.rs:136-140 | a square is named `<w>.png` with no 'x'; any other size is named `<w>x<h>.png`, split at its only 'x' |
| Imaging.PngEntryNameInjective | src/img.rs:165-169 | distinct sizes get distinct entry names |
| Imaging.XSplit | src/img.rs:168 | two names joined at an 'x' that neither contains split back uniquely |
| LegacyParse.FirstX | src/parse.rs:205-206 | the first 'x' of a string, with none before it |
| LegacyParse.PairShapeExact | src/parse.rs:192 | `^\d+x\d+$` holds exactly of two non-empty digit runs joined by an 'x' |
| LegacyParse.Classify | src/parse.rs:196-213 | a literal is its flag or attribute; otherwise a `u16` numeral (zero padding and a leading '+' included) is the square size of its value; otherwise a `WxH` shape is the size of its two components, or the panic when one does not fit `u16`; a path comes exactly when none of these matches, and holds the argument unchanged |
| LegacyParse.ClassifyLiterals | src/parse.rs:197-202 | each literal spelling gives its flag or attribute |
| LegacyParse.NumeralNotLiteral | src/parse.rs:196-203 | a numeral is none of the literal spellings |
| LegacyParse.ClassifySquare | src/parse.rs:203-204 | a `u16` numeral is the square size of its value |
| LegacyParse.ClassifyPair | src/parse.rs:205-210 | `WxH` with two `u16` numerals is the size `(W, H)` |
| LegacyParse.ClassifyZeroPadded | src/parse.rs:203-204 | `007` is the size (7, 7) |
| LegacyParse.ClassifyPlusSign | src/parse.rs:203-204 | `+7` is the size (7, 7) |
| LegacyParse.ClassifyPaddedPair | src/parse.rs:205-210 | `016x9` is the size (16, 9) |
| LegacyParse.PairOverflowPanics | src/parse.rs:207-208 | a `WxH` component above `u16` panics |
| LegacyParse.LargeNumeralIsPath | src/parse.rs:203-212 | a plain numeral above `u16` is a path |
| LegacyParse.RenderRoundTrip | src/parse.rs:59-74 | every non-path token is read back from its spelling |
| LegacyParse.TokensOf | src/parse.rs:191-218 | the arguments are classified in order, and a panic anywhere aborts the run |
| LegacyParse.TokensRoundTrip | src/parse.rs:59-74 | `tokens([String::from(&t)]) == [t]` for every non-path token |
| LegacyParse.Tokenize | src/parse.rs:191-218 | the push loop computes `TokensOf` |
| LegacyParse.AfterLastDot | src/parse.rs:168-189 | the text after the last '.' never holds a '.' |
| LegacyParse.AfterLastDotSuffix | src/parse.rs:168-189 | it is a suffix of the path, with a '.' just before it unless it is the whole path |
| LegacyParse.AfterDot | src/parse.rs:172-182 | after a '.', a run without '.' is the whole extension |
| LegacyParse.NoDotIsExt | src/parse.rs:172-188 | a path without '.' is its own extension |
| LegacyParse.ExtOfJoin | src/parse.rs:168-189 | `stem.e` has the extension `e`, whatever the stem |
| LegacyParse.Ext | src/parse.rs:168-189 | the reverse character loop computes `ExtOf`, which is None when the text after the last '.' is empty |
| LegacyParse.WithSizeProperties | src/parse.rs:38-44 | `add_size` keeps the sizes free of repeats, adds exactly the given size, and re-adding changes nothing |
| LegacyParse.File.constructor | src/parse.rs:34-36 | a new file has no sizes, Strict fit and the Nearest filter |
| LegacyParse.File.AddSize | src/parse.rs:38-44 | the sizes are updated as `WithSize`, and every other field is unchanged |
| LegacyParse.SizeRunEnd | src/parse.rs:101-104 | the run of size tokens ends within the tokens |
| LegacyParse.CollectContents | src/parse.rs:101-104 | a file's sizes never repeat and are exactly the sizes of its run |
| LegacyParse.AttrRunEnd | src/parse.rs:106-113 | the run of attribute tokens ends within the tokens |
| LegacyParse.FitFromProportional | src/parse.rs:106-113 | a file is Proportional exactly when its attribute run holds a `-p` |
| LegacyParse.FilterFromTriangle | src/parse.rs:106-113 | a file uses Triangle exactly when its attribute run holds a `-i` |
| LegacyParse.FileAt | src/parse.rs:94-118 | `-f` fails exactly when no path follows, and then names `-f` itself; zero sizes are allowed |
| LegacyParse.ReadFile | src/parse.rs:94-118 | the loops that update the `File` in place compute `FileAt` |
| LegacyParse.FileAtContents | src/parse.rs:97-115 | the parsed file has its path, the sizes of its run without repeats, and the fit and filter its attributes set |
| LegacyParse.Args | src/parse.rs:84-166 | the tokenizer and then the loop compute `ArgsOf` |
| LegacyParse.ParseTokens | src/parse.rs:90-165 | the loop with `files` and `first_arg` computes `Run` |
| LegacyParse.OutputAccepted | src/parse.rs:120-137 | `-o` with `.ico`/`.icns` and `-png` with `.zip`, as the last tokens, give the encode command with the matching output type |
| LegacyParse.OutputRejected | src/parse.rs:138-140 | an `-o` path with another extension is UnsupportedOutputType naming it, or the empty string when there is none |
| LegacyParse.PngOutputRejected | src/parse.rs:138-140 | a `-png` path that is not `.zip` is UnsupportedPngOutput naming its extension, or the empty string when there is none |
| LegacyParse.OutputFollowed | src/parse.rs:126-129 | a token after an accepted output path is UnexpectedToken naming that token |
| LegacyParse.OutputNeedsPath | src/parse.rs:144-146 | an output flag without a path gives MissingOutputPath |
| LegacyParse.NoOutputFlag | src/parse.rs:90-165 | with no `-o`, `-png` or `-h` left, the loop never succeeds: it ends in MissingOutputFlag when the tokens run out, and otherwise stops on UnexpectedToken |
| LegacyParse.StrayTokens | src/parse.rs:156-161 | the first stray token is skipped wherever it is, and a second one is UnexpectedToken naming it |
| LegacyParse.OutputResult | src/parse.rs:120-147 | an accepted output path has the extension of its output type |
| LegacyParse.FileAppended | src/parse.rs:115 | reading one more file keeps every file free of repeated sizes |
| LegacyParse.RunResult | src/parse.rs:84-166 | every encode result extends the files read so far, repeats no size within a file, and has an output path with its type's extension |
| LegacyParse.SingleFileExample | src/parse.rs:84-166 | a program path, one file of size 16 and `-o x.ico` give one Strict, Nearest file written as ICO |
| LegacyEval.FlatPrefix | src/eval.rs:54-55 | the sizes of the first files come first, in file order and then size order |
| LegacyEval.FirstBreak | src/eval.rs:54-62 | the first size, in scan order, that breaks a rule, with no earlier size breaking it |
| LegacyEval.FirstBreakPrefix | src/eval.rs:54-62 | what the scan finds in a prefix it also finds in the whole sequence |
| LegacyEval.NoRepeatMeansDistinct | src/eval.rs:54-62 | no size is bound twice exactly when no size occurs twice |
| LegacyEval.ValidateAccepts | src/eval.rs:67-93 | `validate` passes exactly when the output type accepts every size; PNG sequences are never constrained |
| LegacyEval.IcoRule | src/eval.rs:69-79 | ICO takes exactly the square sizes up to 256, 0 included |
| LegacyEval.IcnsRule | src/eval.rs:80-91 | ICNS takes exactly the square sizes with a side in {16, 32, 64, 128, 256, 512, 1024} |
| LegacyEval.NSizesMeaning | src/eval.rs:50-65 | success exactly when no size repeats, counting every size; otherwise the first size already bound is reported |
| LegacyEval.StoppedAt | src/eval.rs:54-62 | the nested loops stop at the position of the whole command's first break |
| LegacyEval.NSizes | src/eval.rs:50-65 | the nested loops over the map compute `NSizesOf` |
| LegacyEval.Validate | src/eval.rs:67-93 | the nested loops with early return compute `ValidateOf` |
| LegacyEval.ImageFor | src/eval.rs:221-253 | a raster image, or a Strict SVG image, has exactly the requested size |
| LegacyEval.Gather | src/eval.rs:221-254 | one image per size, in order, or the first size's error |
| LegacyEval.GatherPrefix | src/eval.rs:221-254 | once a size fails, the later sizes do not matter |
| LegacyEval.ScaleFile | src/eval.rs:215-263 | `scale::file` computes `ScaleOf`: SVG by extension, any other path through the image decoder |
| LegacyEval.GatherImages | src/eval.rs:221-254 | the loop that pushes one image per size computes `Gather` |
| LegacyEval.NearestDownsizeRefused | src/eval.rs:243-250 | shrinking with Nearest is IlligalDownsizing with the size, the source's dimensions and the extension ("*" when none) |
| LegacyEval.RasterAlwaysReframed | src/eval.rs:252 | every other raster case is the resize reframed to the box, whatever the fit type |
| LegacyEval.SvgProportionalKept | src/eval.rs:228-230 | a Proportional SVG raster is kept as rasterized |
| LegacyEval.SvgStrictReframed | src/eval.rs:223-227 | a Strict SVG raster that fits the box is reframed to the requested size |
| LegacyEval.ScaleAll | src/eval.rs:103-106 | success has one image per size of the command and every file scaled; failure is the error of the first file that fails, all earlier files having scaled |
| LegacyEval.ScaleAllPrefix | src/eval.rs:103-106 | once a file fails, the later files do not matter |
| LegacyEval.ScaleOfPlan | src/eval.rs:215-263 | a file that scales was read by its plan, and its image `si` is the plan's image for its size `si` |
| LegacyEval.FlatConcat | src/eval.rs:103-106 | the command's sizes are the files' sizes joined in file order |
| LegacyEval.FlatAt | src/eval.rs:103-106 | the position after the sizes of the earlier files, plus `si`, holds size `si` of file `fi` |
| LegacyEval.ScaleAllConcat | src/eval.rs:103-106 | a successful scaling is the files' images joined in file order |
| LegacyEval.ScaleAllAt | src/eval.rs:103-106 | the image at the position of size `si` of file `fi` is image `si` of that file |
| LegacyEval.Exec | src/eval.rs:95-106 | `validate`, then `n_sizes`, and only then scaling: a failed check scales no file |
| LegacyEval.ScaleFiles | src/eval.rs:103-106 | the loop over the files computes `ScaleAll` |
| LegacyEval.ValidateFirst | src/eval.rs:97-101 | a forbidden size is reported before any repeated size |
| LegacyEval.ImagesPerSize | src/eval.rs:95-106 | a command that passes its checks yields as many images as it has sizes, its sizes are distinct, and each is valid for the output type |
| LegacyEval.ImagesInOrder | src/eval.rs:95-106 | in file order and then size order, each image is its file's image for its size, with exactly that size for a raster source or under Strict fit |
| LegacyImg.OutputTypeByExtension | src/img.rs:39-51 | zip, ico and icns select their types; another extension is UnsupportedOutputType naming it, and a path ending in '.' is UnknownOutputType |
| LegacyImg.Row | src/img.rs:57-58 | one binding per size of the file, with the file's path |
| LegacyImg.BindingsPrefix | src/img.rs:57-58 | the bindings of the first files come first |
| LegacyImg.IndexOf | src/img.rs:59 | the first binding of a size, with none before it |
| LegacyImg.FirstRebindSpec | src/img.rs:57-65 | the first binding whose size was bound before; every binding before it is fresh, and None means all are |
| LegacyImg.RepeatFound | src/img.rs:59 | a binding that is not fresh finds its size among the earlier ones |
| LegacyImg.FirstRebindPrefix | src/img.rs:57-65 | a rebinding found in a prefix is the whole command's first |
| LegacyImg.NSizesCounted | src/img.rs:53-68 | success means every size of the command is distinct, and all of them are counted |
| LegacyImg.NSizesReported | src/img.rs:59-60 | a reassignment names the size, the path of its first binding and the path of the current file, at the first rebinding |
| LegacyImg.RebindFacts | src/img.rs:59-60 | the first rebinding and the first binding it repeats |
| LegacyImg.StoppedAt | src/img.rs:59-60 | the error the loops return is the one `NSizesOf` reports |
| LegacyImg.RebindReported | src/img.rs:59-60 | a binding that meets its size again, with no earlier rebinding, is what is reported |
| LegacyImg.RebindAtEnd | src/img.rs:59 | a seen size appended to rebinding-free bindings is the first rebinding |
| LegacyImg.NSizes | src/img.rs:53-68 | the nested loops over the map compute `NSizesOf` |
| LegacyImg.Resize | src/img.rs:243-262 | Proportional returns the library's resize unchanged; Exact, when it succeeds, is exactly w×h |
| LegacyImg.ResizeExact | src/img.rs:249-260 | with a resize that fits its box, Exact is the resize reframed: unchanged when it matches, centred otherwise |
| LegacyImg.BufferFor | src/img.rs:77-114 | a non-square Proportional size for ICO/ICNS is refused first; an Exact raster buffer has exactly the size, and an Exact SVG buffer has it modulo 2^16 |
| LegacyImg.Gather | src/img.rs:76-115 | one buffer per size, in order, or the first size's error |
| LegacyImg.GatherPrefix | src/img.rs:76-115 | once a size fails, the later sizes do not matter |
| LegacyImg.AllBuffers | src/img.rs:74-127 | every file gives its buffers, or the first failing file's error is the result |
| LegacyImg.AllBuffersCount | src/img.rs:74-127 | a successful run has as many buffers as the command has (file, size) bindings |
| LegacyImg.AllBuffersPrefix | src/img.rs:74-127 | once a file fails, the later files do not matter |
| LegacyImg.FileBuffersPlan | src/img.rs:75-124 | a file whose buffers were made was read by its plan, and its buffer `si` is the plan's buffer for its size `si` |
| LegacyImg.BindingsConcat | src/img.rs:74-76 | the bindings are the files' rows joined in file order |
| LegacyImg.BindingAt | src/img.rs:74-76 | the position after the bindings of the earlier files, plus `si`, holds size `si` of file `fi` with its path |
| LegacyImg.AllBuffersConcat | src/img.rs:74-127 | a successful run is the files' buffers joined in file order |
| LegacyImg.AllBuffersAt | src/img.rs:74-127 | the buffer at the position of size `si` of file `fi` among the bindings is buffer `si` of that file |
| LegacyImg.GatherBuffers | src/img.rs:76-115 | the loop over one file's sizes computes `Gather` |
| LegacyImg.FileBuffers | src/img.rs:75-124 | SVG by extension, any other path through `image::open`, computing `FileBuffersOf` |
| LegacyImg.AllFileBuffers | src/img.rs:74-127 | the loop over the files computes `AllBuffers` |
| LegacyImg.Images | src/img.rs:70-72 | `output_type`, then `n_sizes`, then the files: a failed check starts no file |
| LegacyImg.NearestDownsizeRefused | src/img.rs:107-111 | shrinking a raster with Nearest is InvalidDownsizingOpts with the size |
| LegacyImg.ProportionalKeepsResize | src/img.rs:248 | under Proportional a raster buffer is the library's resize unchanged |
| LegacyImg.ExactRasterSize | src/img.rs:249-260 | under Exact every raster buffer has exactly its size |
| LegacyImg.SvgWithoutSizes | src/img.rs:75-81 | an SVG file with no sizes is never parsed and gives no buffers |
| LegacyImg.ImagesPerSize | src/img.rs:70-128 | a successful command gives as many buffers as bindings, and its sizes are distinct |
| LegacyImg.ImagesInOrder | src/img.rs:70-128 | in file order and then size order, each buffer is its file's buffer for its size; under Exact fit it has exactly that size (an SVG raster's modulo 2^16) |

## Left out

- Writing the containers (ZIP of PNGs, ICO, ICNS) and creating the files (src/eval.rs:108-208, src/img.rs:134-241, src/eval/mod.rs:74-85): these are byte-level I/O through foreign crates. `Exec`/`Images`/`BuildIcon` end with the images or the icon to be written.
- src/main.rs, src/error.rs, src/error/mod.rs and src/error/show.rs are not part of this model: they handle help and version text, reading the process arguments, and coloured diagnostics. `crate::args()` becomes a parameter of `CommandParser.Args`.
- The icon builder's internals (`add_entry`, `SourceImage::from_path` and their errors) are not part of this model. The decoder is a function from a path to an optional source. The builder's verdict is a function of its state and the call, as `Adder`.
- SVG rasterization uses the `f32` scale `w / svg.width()` (src/eval.rs:222, src/img.rs:83). It is the collaborator `Library.rasterize`, whose raster dimensions are unconstrained.
- `image::open` and the library `resize` are also collaborators. Where a property needs `resize` to fit its box, that is stated as the precondition `BoxedResize`.
- Imaging.Overlay copies the top image's pixels instead of alpha-blending them. The blending of `imageops::overlay` is library code; only placement, canvas size and the transparent border are modelled.
- Regex `\d` in src/parse.rs:192 matches Unicode digits, which `u16` parsing then rejects with a panic. The model treats `\d` as ASCII only, so such arguments become paths.
- The u32 underflow in `reframe` and `resize` under a box smaller than the image panics only in a debug build. A release build wraps the subtraction around, and that wrap-around is not modelled: both builds give `Panicked`.
- The `unimplemented!` branches of src/img.rs:91-94, `from_raw` failing, other nsvg errors (src/eval.rs:234) and non-I/O `image::open` errors in src/eval.rs:257 panic in the source, and they become the error `Panicked`.
- The unreachable `_` arm at src/parse.rs:134 is left out. The `_` arm at src/parse.rs:141 is reachable only by tokens `args` never passes, so it is left out too.
- IconEval.GetSourceMap: src/eval/mod.rs:58-62 keys its map by `PathBuf`, whose equality compares path components, so `icons//a.png` and `icons/a.png` are one key there. The model compares paths as strings, so it decodes those two spellings twice and lists both in `decoded`.
- The paths stored in the map of src/eval.rs:50-65 are never read back; only its keys are modelled.
- `exec` in src/img.rs:130-132 calls `output_type` again before `images`, which repeats the same check. It is folded into `LegacyImg.Images`.
- src/img.rs was written against a parser that is not part of this repository. Its `File` is a datatype taken as given, so no parser builds it.
- The `n_files`/`n_entries` counts and `with_capacity` pre-allocations only reserve memory, and they are left out.
- LegacyImg.BufferFor: the SVG check in src/img.rs:85 compares dimensions cast to `u16`, so an Exact SVG buffer is promised its size only modulo 2^16.
