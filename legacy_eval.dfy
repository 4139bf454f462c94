/**
 * The older evaluator (src/eval.rs): an encode command is checked against the size rules of
 * its output type, then for sizes bound twice, and only then is each file scaled to its sizes.
 * Writing the container is not part of this model; `Exec` ends with the images to be written.
 */
module LegacyEval {
  import opened Wrappers
  import opened Io
  import opened Imaging
  import opened LegacyParse
  import opened Seqs

  /** `MAX_ICO_SIZE`. */
  const MAX_ICO_SIZE: nat := 256

  /** `VALID_ICNS_SIZES`. */
  const VALID_ICNS_SIZES: set<nat> := {16, 32, 64, 128, 256, 512, 1024}

  // ---------------------------------------------------------------------------------------
  // The sizes of a command, in file order and then size order

  function Flat(files: seq<FileEntry>): seq<Size> {
    if files == [] then [] else Flat(files[..|files| - 1]) + files[|files| - 1].sizes
  }

  lemma FlatSnoc(files: seq<FileEntry>, fi: nat)
    requires fi < |files|
    ensures Flat(files[..fi + 1]) == Flat(files[..fi]) + files[fi].sizes
  {
    assert files[..fi + 1][..fi] == files[..fi];
  }

  /** The sizes of the first `j` files come first among the sizes of all of them. */
  lemma {:induction false} FlatPrefix(files: seq<FileEntry>, j: nat)
    requires j <= |files|
    ensures Flat(files[..j]) <= Flat(files)
    decreases |files| - j
  {
    if j < |files| {
      FlatSnoc(files, j);
      FlatPrefix(files, j + 1);
    } else {
      assert files[..j] == files;
    }
  }

  /** The size checks of the evaluator: a size bound before, or a size the output type forbids. */
  datatype Rule = Repeat | Invalid(outputType: OutputType)

  /** Whether the ICO or ICNS container can hold an image of this size; PNG sequences take any. */
  predicate ValidFor(t: OutputType, s: Size) {
    match t
    case Ico => s.w <= MAX_ICO_SIZE && s.h <= MAX_ICO_SIZE && s.w == s.h
    case Icns => s.w in VALID_ICNS_SIZES && s.h in VALID_ICNS_SIZES && s.w == s.h
    case PngSequence => true
  }

  /** Whether `s`, coming after the sizes `seen`, breaks the rule. */
  predicate Breaks(rule: Rule, seen: seq<Size>, s: Size) {
    match rule
    case Repeat => s in seen
    case Invalid(t) => !ValidFor(t, s)
  }

  /** The position of the first size that breaks the rule, scanning in order. */
  function FirstBreak(xs: seq<Size>, rule: Rule): (r: Option<nat>)
    ensures r.Some? ==> r.value < |xs| && Breaks(rule, xs[..r.value], xs[r.value])
    ensures r.Some? ==> forall j :: 0 <= j < r.value ==> !Breaks(rule, xs[..j], xs[j])
    ensures r.None? ==> forall j :: 0 <= j < |xs| ==> !Breaks(rule, xs[..j], xs[j])
  {
    if xs == [] then None
    else
      var init := xs[..|xs| - 1];
      assert forall j :: 0 <= j < |init| ==> init[..j] == xs[..j] && init[j] == xs[j];
      match FirstBreak(init, rule)
      case Some(k) => Some(k)
      case None => if Breaks(rule, init, xs[|xs| - 1]) then Some(|xs| - 1) else None
  }

  /** A scan that found nothing in `xs` looks next at the size after `xs`. */
  lemma FirstBreakSnoc(xs: seq<Size>, s: Size, rule: Rule)
    requires FirstBreak(xs, rule).None?
    ensures FirstBreak(xs + [s], rule) == if Breaks(rule, xs, s) then Some(|xs|) else None
  {
    assert (xs + [s])[..|xs|] == xs;
  }

  /** What the scan finds in a prefix it also finds in the whole sequence. */
  lemma {:induction false} FirstBreakPrefix(xs: seq<Size>, ys: seq<Size>, rule: Rule)
    requires xs <= ys && FirstBreak(xs, rule).Some?
    ensures FirstBreak(ys, rule) == FirstBreak(xs, rule)
    decreases |ys|
  {
    if |ys| > |xs| {
      var init := ys[..|ys| - 1];
      assert xs <= init;
      FirstBreakPrefix(xs, init, rule);
    } else {
      assert xs == ys;
    }
  }

  /** No size breaks the repeat rule exactly when no size occurs twice. */
  lemma NoRepeatMeansDistinct(xs: seq<Size>)
    ensures FirstBreak(xs, Repeat).None? <==> NoDuplicates(xs)
  {
    if FirstBreak(xs, Repeat).None? {
      forall j, k | 0 <= j < k < |xs|
        ensures xs[j] != xs[k]
      {
        assert !Breaks(Repeat, xs[..k], xs[k]);
        assert xs[j] == xs[..k][j];
      }
    } else {
      var k := FirstBreak(xs, Repeat).value;
      var j :| 0 <= j < k && xs[..k][j] == xs[k];
      assert xs[j] == xs[k];
    }
  }

  // ---------------------------------------------------------------------------------------
  // n_sizes and validate

  /** `n_sizes`: the first size bound a second time, or how many sizes there are. */
  function NSizesOf(files: seq<FileEntry>): Result<nat, Error> {
    var all := Flat(files);
    match FirstBreak(all, Repeat)
    case Some(k) => Err(Syntax(SizeReassignment(all[k])))
    case None => Ok(|all|)
  }

  /** The error for a size the output type forbids. */
  function SizeError(t: OutputType, s: Size): Error {
    if t == Ico then Eval(InvalidIcoSize(s)) else Eval(InvalidIcnsSize(s))
  }

  /** `validate`: the first size, in file order and then size order, that the output type forbids. */
  function ValidateOf(t: OutputType, files: seq<FileEntry>): Option<Error> {
    if t == PngSequence then None
    else
      var all := Flat(files);
      match FirstBreak(all, Invalid(t))
      case Some(k) => Some(SizeError(t, all[k]))
      case None => None
  }

  /** A command passes `validate` exactly when its output type accepts every one of its sizes. */
  lemma ValidateAccepts(t: OutputType, files: seq<FileEntry>)
    ensures ValidateOf(t, files).None? <==> forall s :: s in Flat(files) ==> ValidFor(t, s)
    ensures t == PngSequence ==> ValidateOf(t, files).None?
  {
    var all := Flat(files);
    if t != PngSequence && FirstBreak(all, Invalid(t)).Some? {
      var k := FirstBreak(all, Invalid(t)).value;
      assert all[k] in all;
    }
  }

  /** The ICO rule: square, and at most 256 a side, zero included. */
  lemma IcoRule(s: Size)
    ensures ValidFor(Ico, s) <==> s.w == s.h && s.w <= 256
    ensures ValidFor(Ico, Size(0, 0)) && !ValidFor(Ico, Size(257, 257)) && !ValidFor(Ico, Size(16, 32))
  {
  }

  /** The ICNS rule: square, with a side among the seven the format defines. */
  lemma IcnsRule(s: Size)
    ensures ValidFor(Icns, s) <==> s.w == s.h && s.w in {16, 32, 64, 128, 256, 512, 1024}
    ensures !ValidFor(Icns, Size(48, 48)) && ValidFor(Icns, Size(1024, 1024))
  {
  }

  /** A command whose sizes are all distinct counts exactly its sizes; a repeat is reported by size. */
  lemma NSizesMeaning(files: seq<FileEntry>)
    ensures NSizesOf(files).Ok? <==> NoDuplicates(Flat(files))
    ensures NSizesOf(files).Ok? ==> NSizesOf(files).value == |Flat(files)|
    ensures NSizesOf(files).Err? ==>
      exists k :: 0 <= k < |Flat(files)| &&
        NSizesOf(files).error == Syntax(SizeReassignment(Flat(files)[k])) && Flat(files)[k] in Flat(files)[..k]
  {
    NoRepeatMeansDistinct(Flat(files));
  }

  /** The sizes seen so far are the keys of the map, each once, and none was bound twice. */
  ghost predicate Bound(m: map<Size, string>, seen: seq<Size>) {
    FirstBreak(seen, Repeat).None? && (forall s :: s in m <==> s in seen) && |m| == |seen|
  }

  lemma BindStep(m: map<Size, string>, seen: seq<Size>, s: Size, path: string)
    requires Bound(m, seen) && s !in m
    ensures Bound(m[s := path], seen + [s])
  {
    FirstBreakSnoc(seen, s, Repeat);
  }

  lemma AppendStep<T>(p: seq<T>, xs: seq<T>, i: nat)
    requires i < |xs|
    ensures (p + xs[..i]) + [xs[i]] == p + xs[..i + 1]
  {
    assert xs[..i + 1] == xs[..i] + [xs[i]];
  }

  /** A scan stopped at position `si` of file `fi` stopped at that position of all the sizes. */
  lemma StoppedAt(files: seq<FileEntry>, fi: nat, si: nat, rule: Rule)
    requires fi < |files| && si < |files[fi].sizes|
    requires FirstBreak(Flat(files[..fi]) + files[fi].sizes[..si], rule).None?
    requires Breaks(rule, Flat(files[..fi]) + files[fi].sizes[..si], files[fi].sizes[si])
    ensures var seen := Flat(files[..fi]) + files[fi].sizes[..si];
      FirstBreak(Flat(files), rule) == Some(|seen|) && Flat(files)[|seen|] == files[fi].sizes[si]
  {
    var sizes := files[fi].sizes;
    var seen := Flat(files[..fi]) + sizes[..si];
    FirstBreakSnoc(seen, sizes[si], rule);
    AppendStep(Flat(files[..fi]), sizes, si);
    FlatSnoc(files, fi);
    FlatPrefix(files, fi + 1);
    assert seen + [sizes[si]] <= Flat(files);
    FirstBreakPrefix(seen + [sizes[si]], Flat(files), rule);
  }

  /** The end of one file's sizes is the start of the next file's. */
  lemma NextFile(files: seq<FileEntry>, fi: nat)
    requires fi < |files|
    ensures Flat(files[..fi]) + files[fi].sizes[..|files[fi].sizes|] == Flat(files[..fi + 1])
  {
    assert files[fi].sizes[..|files[fi].sizes|] == files[fi].sizes;
    FlatSnoc(files, fi);
  }

  method NSizes(files: seq<FileEntry>) returns (r: Result<nat, Error>)
    ensures r == NSizesOf(files)
  {
    var m: map<Size, string> := map[];
    ghost var seen: seq<Size> := [];
    for fi := 0 to |files|
      invariant seen == Flat(files[..fi]) && Bound(m, seen)
    {
      var sizes := files[fi].sizes;
      for si := 0 to |sizes|
        invariant seen == Flat(files[..fi]) + sizes[..si] && Bound(m, seen)
      {
        var s := sizes[si];
        if s in m {
          StoppedAt(files, fi, si, Repeat);
          return Err(Syntax(SizeReassignment(s)));
        }
        BindStep(m, seen, s, files[fi].path);
        m := m[s := files[fi].path];
        AppendStep(Flat(files[..fi]), sizes, si);
        seen := seen + [s];
      }
      NextFile(files, fi);
    }
    assert files[..|files|] == files;
    r := Ok(|m|);
  }

  method Validate(t: OutputType, files: seq<FileEntry>) returns (r: Option<Error>)
    ensures r == ValidateOf(t, files)
  {
    if t == PngSequence {
      return None;
    }
    ghost var seen: seq<Size> := [];
    for fi := 0 to |files|
      invariant seen == Flat(files[..fi]) && FirstBreak(seen, Invalid(t)).None?
    {
      var sizes := files[fi].sizes;
      for si := 0 to |sizes|
        invariant seen == Flat(files[..fi]) + sizes[..si] && FirstBreak(seen, Invalid(t)).None?
      {
        var s := sizes[si];
        if !ValidFor(t, s) {
          StoppedAt(files, fi, si, Invalid(t));
          return Some(SizeError(t, s));
        }
        FirstBreakSnoc(seen, s, Invalid(t));
        AppendStep(Flat(files[..fi]), sizes, si);
        seen := seen + [s];
      }
      NextFile(files, fi);
    }
    assert files[..|files|] == files;
    r := None;
  }

  // ---------------------------------------------------------------------------------------
  // Scaling

  function Reframed(src: Image, w: nat, h: nat): Result<Image, Error> {
    match Reframe(src, w, h)
    case Some(img) => Ok(img)
    case None => Err(Panicked)
  }

  /** How a file is turned into images: its SVG rasterized per size, or its decoded raster resized. */
  datatype Plan = SvgPlan(lib: Library, file: FileEntry) | RasterPlan(lib: Library, file: FileEntry, source: Image)

  /**
   * The image for one size. An SVG raster is reframed only under Strict fit when its dimensions
   * differ from the size; a raster source is checked against downsizing with the Nearest
   * filter, then resized and always reframed.
   */
  function ImageFor(plan: Plan, s: Size): (r: Result<Image, Error>)
    ensures r.Ok? && (plan.RasterPlan? || plan.file.fitType == Strict) ==> r.value.width == s.w && r.value.height == s.h
  {
    match plan
    case SvgPlan(lib, file) =>
      (match lib.rasterize(file.path, s.w)
       case Raster(buf) =>
         if file.fitType == Strict && (s.w != buf.width || s.h != buf.height) then Reframed(buf, s.w, s.h) else Ok(buf)
       case RasterIoError(kind) => Err(Io(kind, file.path))
       case RasterParseError => Err(Io(InvalidInput, file.path))
       case RasterFailed => Err(Panicked))
    case RasterPlan(lib, file, img) =>
      if (s.w < img.width || s.h < img.height) && file.filterType == Nearest then
        Err(Eval(IlligalDownsizing(s, img.width, img.height, ExtOf(file.path).GetOr("*"))))
      else
        Reframed(lib.resize(img, s.w, s.h, file.filterType), s.w, s.h)
  }

  /** The images for the sizes in order, or the error of the first size that fails. */
  function Gather(plan: Plan, sizes: seq<Size>): (r: Result<seq<Image>, Error>)
    ensures r.Ok? ==> |r.value| == |sizes| && forall k :: 0 <= k < |sizes| ==> ImageFor(plan, sizes[k]) == Ok(r.value[k])
    ensures r.Err? ==>
      exists k :: 0 <= k < |sizes| && ImageFor(plan, sizes[k]) == Err(r.error) &&
        forall j :: 0 <= j < k ==> ImageFor(plan, sizes[j]).Ok?
  {
    if sizes == [] then Ok([])
    else
      var init := sizes[..|sizes| - 1];
      assert forall k :: 0 <= k < |init| ==> init[k] == sizes[k];
      match Gather(plan, init)
      case Err(e) => Err(e)
      case Ok(imgs) =>
        (match ImageFor(plan, sizes[|sizes| - 1])
         case Err(e) => Err(e)
         case Ok(img) => Ok(imgs + [img]))
  }

  /** `scale::file`: SVG files by their "svg" extension; anything else goes to the image decoder. */
  function ScaleOf(lib: Library, file: FileEntry): Result<seq<Image>, Error> {
    if ExtOf(file.path).GetOr("") == "svg" then
      if lib.parsesAsSvg(file.path) then Gather(SvgPlan(lib, file), file.sizes)
      else Err(Io(InvalidInput, file.path))
    else
      match lib.open(file.path)
      case OpenedImage(img) => Gather(RasterPlan(lib, file, img), file.sizes)
      case OpenIoError(kind) => Err(Io(kind, file.path))
      case OpenFailed => Err(Panicked)
  }

  method ScaleFile(lib: Library, file: FileEntry) returns (r: Result<seq<Image>, Error>)
    ensures r == ScaleOf(lib, file)
  {
    var ext := Ext(file.path);
    var plan: Plan;
    if ext.GetOr("") == "svg" {
      if !lib.parsesAsSvg(file.path) {
        return Err(Io(InvalidInput, file.path));
      }
      plan := SvgPlan(lib, file);
    } else {
      match lib.open(file.path)
      case OpenedImage(img) =>
        plan := RasterPlan(lib, file, img);
      case OpenIoError(kind) =>
        return Err(Io(kind, file.path));
      case OpenFailed =>
        return Err(Panicked);
    }
    r := GatherImages(plan, file.sizes);
  }

  lemma GatherSnoc(plan: Plan, sizes: seq<Size>, k: nat, images: seq<Image>)
    requires k < |sizes| && Gather(plan, sizes[..k]) == Ok(images)
    ensures Gather(plan, sizes[..k + 1]) ==
      if ImageFor(plan, sizes[k]).Ok? then Ok(images + [ImageFor(plan, sizes[k]).value]) else Err(ImageFor(plan, sizes[k]).error)
  {
    assert sizes[..k + 1][..k] == sizes[..k];
  }

  /** Once a size fails, the sizes after it do not matter. */
  lemma {:induction false} GatherPrefix(plan: Plan, sizes: seq<Size>, j: nat)
    requires j <= |sizes| && Gather(plan, sizes[..j]).Err?
    ensures Gather(plan, sizes) == Gather(plan, sizes[..j])
    decreases |sizes| - j
  {
    if j < |sizes| {
      assert sizes[..j + 1][..j] == sizes[..j];
      GatherPrefix(plan, sizes, j + 1);
    } else {
      assert sizes[..j] == sizes;
    }
  }

  /** The loop of `scale::file` over the sizes, pushing one image per size. */
  method GatherImages(plan: Plan, sizes: seq<Size>) returns (r: Result<seq<Image>, Error>)
    ensures r == Gather(plan, sizes)
  {
    var images: seq<Image> := [];
    for k := 0 to |sizes|
      invariant Gather(plan, sizes[..k]) == Ok(images)
    {
      var img := ImageFor(plan, sizes[k]);
      GatherSnoc(plan, sizes, k, images);
      if img.Err? {
        GatherPrefix(plan, sizes, k + 1);
        return Err(img.error);
      }
      images := images + [img.value];
    }
    assert sizes[..|sizes|] == sizes;
    r := Ok(images);
  }

  /** Downsizing a raster with the Nearest filter is refused, naming the size, the source and the extension. */
  lemma NearestDownsizeRefused(lib: Library, file: FileEntry, img: Image, s: Size)
    requires s.w < img.width || s.h < img.height
    requires file.filterType == Nearest
    ensures ImageFor(RasterPlan(lib, file, img), s) ==
      Err(Eval(IlligalDownsizing(s, img.width, img.height, ExtOf(file.path).GetOr("*"))))
  {
  }

  /**
   * With a resize that fits its box, any other filter, or a size that does not shrink the
   * source, gives an image of exactly the requested size.
   */
  lemma RasterAlwaysReframed(lib: Library, file: FileEntry, img: Image, s: Size)
    requires BoxedResize(lib)
    requires file.filterType != Nearest || (img.width <= s.w && img.height <= s.h)
    ensures var r := ImageFor(RasterPlan(lib, file, img), s);
      r.Ok? && r.value == Reframe(lib.resize(img, s.w, s.h, file.filterType), s.w, s.h).value
  {
    assert FitsIn(lib.resize(img, s.w, s.h, file.filterType), s.w, s.h);
  }

  /** Under Proportional fit an SVG raster is kept at the dimensions the rasterizer chose. */
  lemma SvgProportionalKept(lib: Library, file: FileEntry, s: Size, buf: Image)
    requires file.fitType == FitType.Proportional && lib.rasterize(file.path, s.w) == Raster(buf)
    ensures ImageFor(SvgPlan(lib, file), s) == Ok(buf)
  {
  }

  /** Under Strict fit an SVG raster that fits the box is reframed to exactly the requested size. */
  lemma SvgStrictReframed(lib: Library, file: FileEntry, s: Size, buf: Image)
    requires file.fitType == Strict && lib.rasterize(file.path, s.w) == Raster(buf) && FitsIn(buf, s.w, s.h)
    ensures ImageFor(SvgPlan(lib, file), s) == Ok(Reframe(buf, s.w, s.h).value)
  {
  }

  // ---------------------------------------------------------------------------------------
  // exec

  /** The images of the files in order, or the error of the first file that fails. */
  function ScaleAll(lib: Library, files: seq<FileEntry>): (r: Result<seq<Image>, Error>)
    ensures r.Ok? ==> |r.value| == |Flat(files)| && forall k :: 0 <= k < |files| ==> ScaleOf(lib, files[k]).Ok?
    ensures r.Err? ==>
      exists k :: 0 <= k < |files| && ScaleOf(lib, files[k]) == Err(r.error) &&
        forall j :: 0 <= j < k ==> ScaleOf(lib, files[j]).Ok?
  {
    if files == [] then Ok([])
    else
      var init := files[..|files| - 1];
      assert forall k :: 0 <= k < |init| ==> init[k] == files[k];
      match ScaleAll(lib, init)
      case Err(e) => Err(e)
      case Ok(imgs) =>
        (match ScaleOf(lib, files[|files| - 1])
         case Err(e) => Err(e)
         case Ok(more) => Ok(imgs + more))
  }

  /** How `scale::file` reads a file: an SVG that parses, or the image the decoder opens; None when that fails. */
  function PlanOf(lib: Library, file: FileEntry): Option<Plan> {
    if ExtOf(file.path).GetOr("") == "svg" then
      if lib.parsesAsSvg(file.path) then Some(SvgPlan(lib, file)) else None
    else
      match lib.open(file.path)
      case OpenedImage(img) => Some(RasterPlan(lib, file, img))
      case _ => None
  }

  /** A file that scales was read by its plan, with one image per size: image `si` is the plan's image for size `si`. */
  lemma ScaleOfPlan(lib: Library, file: FileEntry, si: nat)
    requires ScaleOf(lib, file).Ok? && si < |file.sizes|
    ensures PlanOf(lib, file).Some? && PlanOf(lib, file).value.file == file
    ensures |ScaleOf(lib, file).value| == |file.sizes|
    ensures ImageFor(PlanOf(lib, file).value, file.sizes[si]) == Ok(ScaleOf(lib, file).value[si])
  {
  }

  lemma ScaleOfLength(lib: Library, file: FileEntry)
    requires ScaleOf(lib, file).Ok?
    ensures |ScaleOf(lib, file).value| == |file.sizes|
  {
  }

  /** Each file's sizes, in file order. */
  function SizeLists(files: seq<FileEntry>): (r: seq<seq<Size>>)
    ensures |r| == |files| && forall k :: 0 <= k < |files| ==> r[k] == files[k].sizes
  {
    seq(|files|, k requires 0 <= k < |files| => files[k].sizes)
  }

  /** The command's sizes are the files' sizes joined in file order. */
  lemma {:induction false} FlatConcat(files: seq<FileEntry>)
    ensures Flat(files) == Concat(SizeLists(files))
  {
    if files != [] {
      var n := |files| - 1;
      FlatConcat(files[..n]);
      assert SizeLists(files) == SizeLists(files[..n]) + [files[n].sizes];
      ConcatSnoc(SizeLists(files[..n]), files[n].sizes);
    }
  }

  /** The image lists of the files, in file order; a file that fails contributes none. */
  function ImageLists(lib: Library, files: seq<FileEntry>): (r: seq<seq<Image>>)
    ensures |r| == |files|
    ensures forall k :: 0 <= k < |files| && ScaleOf(lib, files[k]).Ok? ==> r[k] == ScaleOf(lib, files[k]).value
  {
    seq(|files|, k requires 0 <= k < |files| =>
      match ScaleOf(lib, files[k]) case Ok(imgs) => imgs case Err(_) => [])
  }

  lemma ImageListsSnoc(lib: Library, files: seq<FileEntry>)
    requires files != [] && ScaleOf(lib, files[|files| - 1]).Ok?
    ensures ImageLists(lib, files) == ImageLists(lib, files[..|files| - 1]) + [ScaleOf(lib, files[|files| - 1]).value]
  {
    var n := |files| - 1;
    assert forall k :: 0 <= k < n ==> files[..n][k] == files[k];
  }

  /** A successful scaling is the images of all files but the last, then the last file's. */
  lemma ScaleAllSplit(lib: Library, files: seq<FileEntry>)
    requires ScaleAll(lib, files).Ok? && files != []
    ensures var init := files[..|files| - 1];
      ScaleAll(lib, init).Ok? && ScaleOf(lib, files[|files| - 1]).Ok? &&
      ScaleAll(lib, files).value == ScaleAll(lib, init).value + ScaleOf(lib, files[|files| - 1]).value
  {
  }

  /** A successful scaling is every file's images joined in file order. */
  lemma {:induction false} ScaleAllConcat(lib: Library, files: seq<FileEntry>)
    requires ScaleAll(lib, files).Ok?
    ensures ScaleAll(lib, files).value == Concat(ImageLists(lib, files))
  {
    if files != [] {
      var n := |files| - 1;
      ScaleAllSplit(lib, files);
      ScaleAllConcat(lib, files[..n]);
      ImageListsSnoc(lib, files);
      ConcatSnoc(ImageLists(lib, files[..n]), ScaleOf(lib, files[n]).value);
    }
  }

  /** When every file scales, each file's list has one image per size. */
  lemma ImageListsLengths(lib: Library, files: seq<FileEntry>)
    requires forall k :: 0 <= k < |files| ==> ScaleOf(lib, files[k]).Ok?
    ensures forall k :: 0 <= k < |files| ==> |ImageLists(lib, files)[k]| == |SizeLists(files)[k]|
  {
    forall k | 0 <= k < |files|
      ensures |ImageLists(lib, files)[k]| == |SizeLists(files)[k]|
    {
      ScaleOfLength(lib, files[k]);
    }
  }

  /** The size at the position of size `si` of file `fi` among the command's sizes is that size. */
  lemma FlatAt(files: seq<FileEntry>, fi: nat, si: nat, p: nat)
    requires fi < |files| && si < |files[fi].sizes| && p == |Flat(files[..fi])| + si
    ensures p < |Flat(files)| && Flat(files)[p] == files[fi].sizes[si]
  {
    FlatConcat(files);
    FlatConcat(files[..fi]);
    assert SizeLists(files[..fi]) == SizeLists(files)[..fi];
    ConcatAt(SizeLists(files), fi, si, p);
  }

  /**
   * The images come in file order and then size order: the image at the position of size
   * `si` of file `fi` among the command's sizes is image `si` of that file.
   */
  lemma ScaleAllAt(lib: Library, files: seq<FileEntry>, fi: nat, si: nat, p: nat)
    requires ScaleAll(lib, files).Ok? && fi < |files| && si < |files[fi].sizes|
    requires p == |Flat(files[..fi])| + si
    ensures p < |ScaleAll(lib, files).value| && p < |Flat(files)| && Flat(files)[p] == files[fi].sizes[si]
    ensures ScaleOf(lib, files[fi]).Ok? && si < |ScaleOf(lib, files[fi]).value|
    ensures ScaleAll(lib, files).value[p] == ScaleOf(lib, files[fi]).value[si]
  {
    FlatAt(files, fi, si, p);
    ScaleAllConcat(lib, files);
    ImageListsLengths(lib, files);
    FlatConcat(files[..fi]);
    assert SizeLists(files[..fi]) == SizeLists(files)[..fi];
    ConcatParallelAt(ImageLists(lib, files), SizeLists(files), fi, si, p);
  }

  /** `exec` up to the write: `validate`, then `n_sizes`, then each file scaled in order. */
  function ExecOf(lib: Library, t: OutputType, files: seq<FileEntry>): Result<seq<Image>, Error> {
    match ValidateOf(t, files)
    case Some(e) => Err(e)
    case None =>
      match NSizesOf(files)
      case Err(e) => Err(e)
      case Ok(_) => ScaleAll(lib, files)
  }

  /**
   * `exec` up to the write. `scaled` counts the files whose scaling was started: none when a
   * check fails, and the files up to and including the first that fails otherwise.
   */
  method Exec(lib: Library, t: OutputType, files: seq<FileEntry>) returns (r: Result<seq<Image>, Error>, scaled: nat)
    ensures r == ExecOf(lib, t, files)
    ensures ValidateOf(t, files).Some? || NSizesOf(files).Err? ==> scaled == 0
    ensures r.Ok? ==> scaled == |files|
    ensures scaled <= |files|
  {
    var invalid := Validate(t, files);
    if invalid.Some? {
      return Err(invalid.value), 0;
    }
    var n := NSizes(files);
    if n.Err? {
      return Err(n.error), 0;
    }
    r, scaled := ScaleFiles(lib, files);
  }

  lemma ScaleAllSnoc(lib: Library, files: seq<FileEntry>, fi: nat, images: seq<Image>, next: Result<seq<Image>, Error>)
    requires fi < |files| && ScaleAll(lib, files[..fi]) == Ok(images) && ScaleOf(lib, files[fi]) == next
    ensures ScaleAll(lib, files[..fi + 1]) == if next.Ok? then Ok(images + next.value) else Err(next.error)
  {
    assert files[..fi + 1][..fi] == files[..fi];
  }

  /** Once a file fails, the files after it do not matter. */
  lemma {:induction false} ScaleAllPrefix(lib: Library, files: seq<FileEntry>, j: nat)
    requires j <= |files| && ScaleAll(lib, files[..j]).Err?
    ensures ScaleAll(lib, files) == ScaleAll(lib, files[..j])
    decreases |files| - j
  {
    if j < |files| {
      assert files[..j + 1][..j] == files[..j];
      ScaleAllPrefix(lib, files, j + 1);
    } else {
      assert files[..j] == files;
    }
  }

  /** The loop of `exec` over the files; `scaled` counts the files whose scaling was started. */
  method ScaleFiles(lib: Library, files: seq<FileEntry>) returns (r: Result<seq<Image>, Error>, scaled: nat)
    ensures r == ScaleAll(lib, files)
    ensures r.Ok? ==> scaled == |files|
    ensures scaled <= |files|
  {
    var images: seq<Image> := [];
    scaled := 0;
    for fi := 0 to |files|
      invariant ScaleAll(lib, files[..fi]) == Ok(images) && scaled == fi
    {
      var more := ScaleFile(lib, files[fi]);
      ScaleAllSnoc(lib, files, fi, images, more);
      scaled := scaled + 1;
      if more.Err? {
        ScaleAllPrefix(lib, files, fi + 1);
        return Err(more.error), scaled;
      }
      images := images + more.value;
    }
    assert files[..|files|] == files;
    r := Ok(images);
  }

  /** An ICO or ICNS command with a forbidden size fails on it even when sizes are also repeated. */
  lemma ValidateFirst(lib: Library, t: OutputType, files: seq<FileEntry>)
    requires !(forall s :: s in Flat(files) ==> ValidFor(t, s))
    ensures ExecOf(lib, t, files).Err? && ExecOf(lib, t, files) == Err(ValidateOf(t, files).value)
    ensures ValidateOf(t, files).value.Eval?
  {
    ValidateAccepts(t, files);
  }

  /** A command whose checks pass yields one image per size, in file order and then size order. */
  lemma ImagesPerSize(lib: Library, t: OutputType, files: seq<FileEntry>)
    requires ExecOf(lib, t, files).Ok?
    ensures |ExecOf(lib, t, files).value| == |Flat(files)|
    ensures NoDuplicates(Flat(files)) && forall s :: s in Flat(files) ==> ValidFor(t, s)
  {
    ValidateAccepts(t, files);
    NSizesMeaning(files);
  }

  /**
   * In a command that passes its checks, the image at the position `p` of size `si` of file
   * `fi` among the command's sizes is that file's image for that size, and it has exactly that
   * size for a raster source or under Strict fit.
   */
  lemma {:induction false} ImagesInOrder(lib: Library, t: OutputType, files: seq<FileEntry>, fi: nat, si: nat, p: nat)
    requires ExecOf(lib, t, files).Ok? && fi < |files| && si < |files[fi].sizes|
    requires p == |Flat(files[..fi])| + si
    ensures p < |ExecOf(lib, t, files).value| && p < |Flat(files)| && Flat(files)[p] == files[fi].sizes[si]
    ensures PlanOf(lib, files[fi]).Some?
    ensures ImageFor(PlanOf(lib, files[fi]).value, files[fi].sizes[si]) == Ok(ExecOf(lib, t, files).value[p])
    ensures PlanOf(lib, files[fi]).value.RasterPlan? || files[fi].fitType == Strict ==>
      ExecOf(lib, t, files).value[p].width == files[fi].sizes[si].w &&
      ExecOf(lib, t, files).value[p].height == files[fi].sizes[si].h
  {
    assert ExecOf(lib, t, files) == ScaleAll(lib, files);
    ScaleAllAt(lib, files, fi, si, p);
    ScaleOfPlan(lib, files[fi], si);
  }
}
