/**
 * The alternative older evaluator (src/img.rs): the output type comes from the extension of
 * the output path, sizes bound twice are reported with both files, and each (file, size)
 * gives one buffer, resized under Exact fit to exactly the size. Writing the container is not
 * part of this model; `Exec` ends with the buffers to be written.
 */
module LegacyImg {
  import opened Wrappers
  import opened Io
  import opened Imaging
  import opened Seqs
  import P = LegacyParse

  /** One more than the largest `u16`: img.rs compares raster dimensions cast to `u16`. */
  const U16_LIMIT: nat := 0x1_0000

  type Size = P.Size

  datatype OutputType = PngSequence | Ico | Icns

  datatype FitType = Proportional | Exact

  /** A file of the parser this evaluator was written against: path, sizes, fit and filter. */
  datatype File = File(path: string, sizes: seq<Size>, fitType: FitType, filterType: FilterType)

  datatype Command = Command(files: seq<File>, output: string)

  datatype SyntaxError =
    | UnsupportedOutputType(ext: string)
    | UnknownOutputType
    | SizeReassignment(w: P.U16, h: P.U16, other: string, path: string)
    | InvalidProportionalFlag(size: Size)
    | InvalidDownsizingOpts(size: Size)

  /** The errors of this evaluator; `Panicked` stands for the `unimplemented!` branches and underflow. */
  datatype Error = Syntax(syntax: SyntaxError) | Io(kind: IoKind, path: Option<string>) | ImageError | Panicked

  // ---------------------------------------------------------------------------------------
  // output_type

  /** `output_type`: zip, ico and icns select their types; another extension or none is an error. */
  function OutputTypeOf(output: string): Result<OutputType, Error> {
    match P.ExtOf(output)
    case Some(e) =>
      if e == "zip" then Ok(PngSequence)
      else if e == "ico" then Ok(Ico)
      else if e == "icns" then Ok(Icns)
      else Err(Syntax(UnsupportedOutputType(e)))
    case None => Err(Syntax(UnknownOutputType))
  }

  /** The extension after the last '.' decides the output type; an empty one is unknown. */
  lemma OutputTypeByExtension(stem: string, e: string)
    requires '.' !in e
    ensures e != [] ==>
      OutputTypeOf(stem + "." + e) ==
        if e == "zip" then Ok(PngSequence) else if e == "ico" then Ok(Ico) else if e == "icns" then Ok(Icns)
        else Err(Syntax(UnsupportedOutputType(e)))
    ensures OutputTypeOf(stem + ".") == Err(Syntax(UnknownOutputType))
  {
    if e != [] {
      P.ExtOfJoin(stem, e);
    }
    assert P.AfterLastDot(stem + ".") == [];
  }

  // ---------------------------------------------------------------------------------------
  // n_sizes

  /** A size bound to the path of the file that named it. */
  datatype Binding = Binding(size: Size, path: string)

  function Row(file: File): (r: seq<Binding>)
    ensures |r| == |file.sizes| && forall k :: 0 <= k < |r| ==> r[k] == Binding(file.sizes[k], file.path)
  {
    seq(|file.sizes|, k requires 0 <= k < |file.sizes| => Binding(file.sizes[k], file.path))
  }

  /** Every size of the command with its file's path, in file order and then size order. */
  function Bindings(files: seq<File>): seq<Binding> {
    if files == [] then [] else Bindings(files[..|files| - 1]) + Row(files[|files| - 1])
  }

  lemma BindingsSnoc(files: seq<File>, fi: nat)
    requires fi < |files|
    ensures Bindings(files[..fi + 1]) == Bindings(files[..fi]) + Row(files[fi])
  {
    assert files[..fi + 1][..fi] == files[..fi];
  }

  lemma {:induction false} BindingsPrefix(files: seq<File>, j: nat)
    requires j <= |files|
    ensures Bindings(files[..j]) <= Bindings(files)
    decreases |files| - j
  {
    if j < |files| {
      BindingsSnoc(files, j);
      BindingsPrefix(files, j + 1);
    } else {
      assert files[..j] == files;
    }
  }

  /** The position of the first binding of `s`, if any. */
  function IndexOf(bs: seq<Binding>, s: Size): (r: Option<nat>)
    ensures r.Some? ==> r.value < |bs| && bs[r.value].size == s && forall i :: 0 <= i < r.value ==> bs[i].size != s
    ensures r.None? ==> forall i :: 0 <= i < |bs| ==> bs[i].size != s
  {
    if bs == [] then None
    else
      var init := bs[..|bs| - 1];
      assert forall i :: 0 <= i < |init| ==> init[i] == bs[i];
      match IndexOf(init, s)
      case Some(j) => Some(j)
      case None => if bs[|bs| - 1].size == s then Some(|bs| - 1) else None
  }

  /** The position of the first binding whose size was bound before it; FirstRebindSpec states its meaning. */
  function FirstRebind(bs: seq<Binding>): Option<nat> {
    if bs == [] then None
    else
      var init := bs[..|bs| - 1];
      match FirstRebind(init)
      case Some(k) => Some(k)
      case None => if IndexOf(init, bs[|bs| - 1].size).Some? then Some(|bs| - 1) else None
  }

  /** Whether binding `j` has a size that no earlier binding has. */
  predicate Fresh(bs: seq<Binding>, j: nat)
    requires j < |bs|
  {
    forall i :: 0 <= i < j ==> bs[i].size != bs[j].size
  }

  /** The first rebinding repeats an earlier size and every binding before it is fresh; None: all are. */
  lemma {:induction false} FirstRebindSpec(bs: seq<Binding>)
    ensures var r := FirstRebind(bs);
      (r.Some? ==>
         r.value < |bs| && !Fresh(bs, r.value) && IndexOf(bs[..r.value], bs[r.value].size).Some? &&
         forall j :: 0 <= j < r.value ==> Fresh(bs, j)) &&
      (r.None? ==> forall j :: 0 <= j < |bs| ==> Fresh(bs, j))
    decreases |bs|
  {
    if bs != [] {
      var init := bs[..|bs| - 1];
      FirstRebindSpec(init);
      assert forall j :: 0 <= j < |init| ==> Fresh(init, j) == Fresh(bs, j);
      assert IndexOf(init, bs[|bs| - 1].size).Some? <==> !Fresh(bs, |bs| - 1);
      if FirstRebind(bs).Some? {
        RepeatFound(bs, FirstRebind(bs).value);
      }
    }
  }

  /** A binding that is not fresh has its size among the bindings before it. */
  lemma RepeatFound(bs: seq<Binding>, k: nat)
    requires k < |bs| && !Fresh(bs, k)
    ensures IndexOf(bs[..k], bs[k].size).Some?
  {
    var i :| 0 <= i < k && bs[i].size == bs[k].size;
    assert bs[..k][i] == bs[i];
  }

  lemma {:induction false} FirstRebindPrefix(xs: seq<Binding>, ys: seq<Binding>)
    requires xs <= ys && FirstRebind(xs).Some?
    ensures FirstRebind(ys) == FirstRebind(xs)
    decreases |ys|
  {
    if |ys| > |xs| {
      var init := ys[..|ys| - 1];
      assert xs <= init;
      FirstRebindPrefix(xs, init);
    } else {
      assert xs == ys;
    }
  }

  /** `n_sizes`: the first size bound twice, with the path of its first binding and of the current file. */
  function NSizesOf(files: seq<File>): Result<nat, Error> {
    var bs := Bindings(files);
    FirstRebindSpec(bs);
    match FirstRebind(bs)
    case Some(k) =>
      var j := IndexOf(bs[..k], bs[k].size).value;
      Err(Syntax(SizeReassignment(bs[k].size.w, bs[k].size.h, bs[j].path, bs[k].path)))
    case None => Ok(|bs|)
  }

  /** When no size is bound twice, every size of the command is distinct and all of them are counted. */
  lemma NSizesCounted(files: seq<File>)
    requires NSizesOf(files).Ok?
    ensures var bs := Bindings(files);
      NSizesOf(files).value == |bs| && forall j, k :: 0 <= j < k < |bs| ==> bs[j].size != bs[k].size
  {
    var bs := Bindings(files);
    FirstRebindSpec(bs);
    forall j, k | 0 <= j < k < |bs|
      ensures bs[j].size != bs[k].size
    {
      assert Fresh(bs, k);
    }
  }

  /**
   * Bindings `j` and `k` bind the size `(w, h)` to `other` and then to `path`: `j` is its first
   * binding and `k` is the first binding of the command whose size was bound before.
   */
  predicate Rebinding(bs: seq<Binding>, j: nat, k: nat, w: P.U16, h: P.U16, other: string, path: string) {
    j < k < |bs| && bs[j] == Binding(P.Size(w, h), other) && bs[k] == Binding(P.Size(w, h), path) &&
    (forall i :: 0 <= i < j ==> bs[i].size != bs[k].size) &&
    (forall i, l :: 0 <= i < l < k ==> bs[i].size != bs[l].size)
  }

  /** A reported reassignment names the size, the file that bound it first and the file that bound it again. */
  lemma NSizesReported(files: seq<File>)
    requires NSizesOf(files).Err?
    ensures var e := NSizesOf(files).error;
      e.Syntax? && e.syntax.SizeReassignment? &&
      exists j, k :: Rebinding(Bindings(files), j, k, e.syntax.w, e.syntax.h, e.syntax.other, e.syntax.path)
  {
    var bs := Bindings(files);
    RebindFacts(bs);
    var k := FirstRebind(bs).value;
    var j := IndexOf(bs[..k], bs[k].size).value;
    var e := NSizesOf(files).error;
    assert e == Syntax(SizeReassignment(bs[k].size.w, bs[k].size.h, bs[j].path, bs[k].path));
    assert Rebinding(bs, j, k, e.syntax.w, e.syntax.h, e.syntax.other, e.syntax.path);
  }

  /** The first rebinding and the binding it repeats. */
  lemma RebindFacts(bs: seq<Binding>)
    requires FirstRebind(bs).Some?
    ensures var k := FirstRebind(bs).value;
      k < |bs| && IndexOf(bs[..k], bs[k].size).Some? &&
      var j := IndexOf(bs[..k], bs[k].size).value;
      j < k && bs[j].size == bs[k].size &&
      (forall i :: 0 <= i < j ==> bs[i].size != bs[k].size) &&
      (forall i, l :: 0 <= i < l < k ==> bs[i].size != bs[l].size)
  {
    FirstRebindSpec(bs);
    var k := FirstRebind(bs).value;
    var j := IndexOf(bs[..k], bs[k].size).value;
    assert bs[..k][j] == bs[j];
    forall i, l | 0 <= i < l < k
      ensures bs[i].size != bs[l].size
    {
      assert Fresh(bs, l);
    }
    assert forall i :: 0 <= i < j ==> bs[..k][i] == bs[i];
  }

  /** The map holds the first binding of each size seen, and no size was seen twice. */
  ghost predicate Bound(m: map<Size, string>, seen: seq<Binding>) {
    FirstRebind(seen).None? && |m| == |seen| &&
    (forall s :: s in m <==> IndexOf(seen, s).Some?) &&
    (forall s :: s in m ==> m[s] == seen[IndexOf(seen, s).value].path)
  }

  lemma IndexOfSnoc(seen: seq<Binding>, b: Binding, s: Size)
    ensures IndexOf(seen + [b], s) == if IndexOf(seen, s).Some? then IndexOf(seen, s) else if b.size == s then Some(|seen|) else None
  {
    assert (seen + [b])[..|seen|] == seen;
  }

  lemma BindStep(m: map<Size, string>, seen: seq<Binding>, b: Binding)
    requires Bound(m, seen) && b.size !in m
    ensures Bound(m[b.size := b.path], seen + [b])
  {
    assert (seen + [b])[..|seen|] == seen;
    forall s
      ensures IndexOf(seen + [b], s) == if IndexOf(seen, s).Some? then IndexOf(seen, s) else if b.size == s then Some(|seen|) else None
    {
      IndexOfSnoc(seen, b, s);
    }
  }

  lemma RowStep(prefix: seq<Binding>, file: File, si: nat)
    requires si < |file.sizes|
    ensures (prefix + Row(file)[..si]) + [Binding(file.sizes[si], file.path)] == prefix + Row(file)[..si + 1]
  {
    assert Row(file)[..si + 1] == Row(file)[..si] + [Row(file)[si]];
  }

  lemma NextFile(files: seq<File>, fi: nat)
    requires fi < |files|
    ensures Bindings(files[..fi]) + Row(files[fi])[..|files[fi].sizes|] == Bindings(files[..fi + 1])
  {
    assert Row(files[fi])[..|files[fi].sizes|] == Row(files[fi]);
    BindingsSnoc(files, fi);
  }

  /** A binding whose size is in the map is the first rebinding of the whole command. */
  lemma StoppedAt(files: seq<File>, fi: nat, si: nat, m: map<Size, string>)
    requires fi < |files| && si < |files[fi].sizes|
    requires Bound(m, Bindings(files[..fi]) + Row(files[fi])[..si]) && files[fi].sizes[si] in m
    ensures var file := files[fi]; var s := file.sizes[si];
      NSizesOf(files) == Err(Syntax(SizeReassignment(s.w, s.h, m[s], file.path)))
  {
    var seen := Bindings(files[..fi]) + Row(files[fi])[..si];
    var s := files[fi].sizes[si];
    assert FirstRebind(seen).None? && IndexOf(seen, s).Some? && m[s] == seen[IndexOf(seen, s).value].path;
    RebindReported(files, fi, si);
  }

  /** The first binding whose size was seen before is reported with the path that bound it first. */
  lemma RebindReported(files: seq<File>, fi: nat, si: nat)
    requires fi < |files| && si < |files[fi].sizes|
    requires var seen := Bindings(files[..fi]) + Row(files[fi])[..si];
      FirstRebind(seen).None? && IndexOf(seen, files[fi].sizes[si]).Some?
    ensures var seen := Bindings(files[..fi]) + Row(files[fi])[..si];
      var file := files[fi]; var s := file.sizes[si];
      NSizesOf(files) == Err(Syntax(SizeReassignment(s.w, s.h, seen[IndexOf(seen, s).value].path, file.path)))
  {
    var file := files[fi];
    var s := file.sizes[si];
    var b := Binding(s, file.path);
    var seen := Bindings(files[..fi]) + Row(file)[..si];
    var bs := Bindings(files);
    RebindAtEnd(seen, b);
    RowStep(Bindings(files[..fi]), file, si);
    BindingsSnoc(files, fi);
    BindingsPrefix(files, fi + 1);
    assert seen + [b] <= bs;
    FirstRebindPrefix(seen + [b], bs);
    assert bs[..|seen|] == seen && bs[|seen|] == b;
  }

  /** A binding whose size was seen before is the first rebinding when none came earlier. */
  lemma RebindAtEnd(seen: seq<Binding>, b: Binding)
    requires FirstRebind(seen).None? && IndexOf(seen, b.size).Some?
    ensures FirstRebind(seen + [b]) == Some(|seen|)
  {
    assert (seen + [b])[..|seen|] == seen;
  }

  method NSizes(files: seq<File>) returns (r: Result<nat, Error>)
    ensures r == NSizesOf(files)
  {
    var m: map<Size, string> := map[];
    ghost var seen: seq<Binding> := [];
    for fi := 0 to |files|
      invariant seen == Bindings(files[..fi]) && Bound(m, seen)
    {
      var file := files[fi];
      for si := 0 to |file.sizes|
        invariant seen == Bindings(files[..fi]) + Row(file)[..si] && Bound(m, seen)
      {
        var s := file.sizes[si];
        if s in m {
          StoppedAt(files, fi, si, m);
          return Err(Syntax(SizeReassignment(s.w, s.h, m[s], file.path)));
        }
        BindStep(m, seen, Binding(s, file.path));
        RowStep(Bindings(files[..fi]), file, si);
        m := m[s := file.path];
        seen := seen + [Binding(s, file.path)];
      }
      NextFile(files, fi);
    }
    assert files[..|files|] == files;
    r := Ok(|m|);
  }

  // ---------------------------------------------------------------------------------------
  // resize and the buffers

  /**
   * `resize`: the library's resize, returned as is under Proportional fit and reframed to the
   * box under Exact fit. None: a resize larger than the box underflows the unsigned offsets.
   */
  function Resize(lib: Library, src: Image, w: nat, h: nat, filter: FilterType, fit: FitType): (r: Option<Image>)
    ensures fit == Exact && r.Some? ==> r.value.width == w && r.value.height == h
    ensures fit == Proportional ==> r == Some(lib.resize(src, w, h, filter))
  {
    var img := lib.resize(src, w, h, filter);
    if fit == Proportional then Some(img) else Reframe(img, w, h)
  }

  /**
   * With a resize that fits its box, Exact fit always succeeds: it is the resize reframed to the
   * box, kept as it is when it already has the box's dimensions.
   */
  lemma ResizeExact(lib: Library, src: Image, w: nat, h: nat, filter: FilterType)
    requires BoxedResize(lib)
    ensures var img := lib.resize(src, w, h, filter);
      Resize(lib, src, w, h, filter, Exact) == Reframe(img, w, h) && Reframe(img, w, h).Some? &&
      (img.width == w && img.height == h ==> Reframe(img, w, h) == Some(img))
  {
    var img := lib.resize(src, w, h, filter);
    assert FitsIn(img, w, h);
  }

  /** How a file becomes buffers: its SVG rasterized per size, or its decoded image resized per size. */
  datatype Plan = SvgPlan(lib: Library, out: OutputType, file: File) | RasterPlan(lib: Library, out: OutputType, file: File, source: Image)

  /** A non-square size under Proportional fit, for an ICO or ICNS output. */
  predicate ProportionalRefused(out: OutputType, file: File, s: Size) {
    (out == Ico || out == Icns) && file.fitType == Proportional && s.w != s.h
  }

  function Resized(lib: Library, src: Image, s: Size, file: File): Result<Image, Error> {
    match Resize(lib, src, s.w, s.h, file.filterType, file.fitType)
    case Some(img) => Ok(img)
    case None => Err(Panicked)
  }

  /**
   * The buffer for one size. Both paths refuse a non-square Proportional size for ICO and ICNS
   * first. An SVG is parsed per size and resized only under Exact fit when its raster's
   * dimensions, cast to `u16`, differ from the size; a raster source is checked against
   * downsizing with the Nearest filter, then resized.
   */
  function BufferFor(plan: Plan, s: Size): (r: Result<Image, Error>)
    ensures ProportionalRefused(plan.out, plan.file, s) ==> r == Err(Syntax(InvalidProportionalFlag(s)))
    ensures r.Ok? && plan.file.fitType == Exact && plan.RasterPlan? ==> r.value.width == s.w && r.value.height == s.h
    ensures r.Ok? && plan.file.fitType == Exact && plan.SvgPlan? ==>
      r.value.width % U16_LIMIT == s.w && r.value.height % U16_LIMIT == s.h
  {
    var file := plan.file;
    if ProportionalRefused(plan.out, file, s) then Err(Syntax(InvalidProportionalFlag(s)))
    else match plan
      case SvgPlan(lib, _, _) =>
        if !lib.parsesAsSvg(file.path) then Err(Io(InvalidInput, Some(file.path)))
        else
          (match lib.rasterize(file.path, s.w)
           case Raster(buf) =>
             if file.fitType == Exact && (s.w != buf.width % U16_LIMIT || s.h != buf.height % U16_LIMIT) then
               Resized(lib, buf, s, file)
             else Ok(buf)
           case _ => Err(Panicked))
      case RasterPlan(lib, _, _, img) =>
        if (s.w < img.width || s.h < img.height) && file.filterType == Nearest then
          Err(Syntax(InvalidDownsizingOpts(s)))
        else Resized(lib, img, s, file)
  }

  /** The buffers for the sizes in order, or the error of the first size that fails. */
  function Gather(plan: Plan, sizes: seq<Size>): (r: Result<seq<Image>, Error>)
    ensures r.Ok? ==> |r.value| == |sizes| && forall k :: 0 <= k < |sizes| ==> BufferFor(plan, sizes[k]) == Ok(r.value[k])
    ensures r.Err? ==>
      exists k :: 0 <= k < |sizes| && BufferFor(plan, sizes[k]) == Err(r.error) &&
        forall j :: 0 <= j < k ==> BufferFor(plan, sizes[j]).Ok?
  {
    if sizes == [] then Ok([])
    else
      var init := sizes[..|sizes| - 1];
      assert forall k :: 0 <= k < |init| ==> init[k] == sizes[k];
      match Gather(plan, init)
      case Err(e) => Err(e)
      case Ok(bufs) =>
        (match BufferFor(plan, sizes[|sizes| - 1])
         case Err(e) => Err(e)
         case Ok(buf) => Ok(bufs + [buf]))
  }

  lemma GatherSnoc(plan: Plan, sizes: seq<Size>, k: nat, bufs: seq<Image>)
    requires k < |sizes| && Gather(plan, sizes[..k]) == Ok(bufs)
    ensures Gather(plan, sizes[..k + 1]) ==
      if BufferFor(plan, sizes[k]).Ok? then Ok(bufs + [BufferFor(plan, sizes[k]).value]) else Err(BufferFor(plan, sizes[k]).error)
  {
    assert sizes[..k + 1][..k] == sizes[..k];
  }

  lemma {:induction false} GatherPrefix(plan: Plan, sizes: seq<Size>, j: nat)
    requires j <= |sizes| && Gather(plan, sizes[..j]).Err?
    ensures Gather(plan, sizes) == Gather(plan, sizes[..j])
    decreases |sizes| - j
  {
    if j < |sizes| {
      assert sizes[..j + 1][..j] == sizes[..j];
      GatherPrefix(plan, sizes, j + 1);
    } else {
      assert sizes[..j] == sizes;
    }
  }

  /** The buffers of one file: an SVG by its "svg" extension, anything else through `image::open`. */
  function FileBuffersOf(lib: Library, out: OutputType, file: File): Result<seq<Image>, Error> {
    if P.ExtOf(file.path) == Some("svg") then Gather(SvgPlan(lib, out, file), file.sizes)
    else
      match lib.open(file.path)
      case OpenedImage(img) => Gather(RasterPlan(lib, out, file, img), file.sizes)
      case OpenIoError(kind) => Err(Io(kind, Some(file.path)))
      case OpenFailed => Err(ImageError)
  }

  /** The buffers of the files in order, or the error of the first file that fails. */
  function AllBuffers(lib: Library, out: OutputType, files: seq<File>): (r: Result<seq<Image>, Error>)
    ensures r.Ok? ==> forall k :: 0 <= k < |files| ==> FileBuffersOf(lib, out, files[k]).Ok?
    ensures r.Err? ==>
      exists k :: 0 <= k < |files| && FileBuffersOf(lib, out, files[k]) == Err(r.error) &&
        forall j :: 0 <= j < k ==> FileBuffersOf(lib, out, files[j]).Ok?
  {
    if files == [] then Ok([])
    else
      var init := files[..|files| - 1];
      assert forall k :: 0 <= k < |init| ==> init[k] == files[k];
      match AllBuffers(lib, out, init)
      case Err(e) => Err(e)
      case Ok(bufs) =>
        (match FileBuffersOf(lib, out, files[|files| - 1])
         case Err(e) => Err(e)
         case Ok(more) => Ok(bufs + more))
  }

  /** A successful run gives one buffer per (file, size), in file order and then size order. */
  lemma {:induction false} AllBuffersCount(lib: Library, out: OutputType, files: seq<File>)
    requires AllBuffers(lib, out, files).Ok?
    ensures |AllBuffers(lib, out, files).value| == |Bindings(files)|
  {
    if files != [] {
      var init := files[..|files| - 1];
      AllBuffersCount(lib, out, init);
    }
  }

  /** How `images` reads a file: an SVG by its "svg" extension, otherwise the image `image::open` decodes; None when that fails. */
  function PlanOf(lib: Library, out: OutputType, file: File): Option<Plan> {
    if P.ExtOf(file.path) == Some("svg") then Some(SvgPlan(lib, out, file))
    else
      match lib.open(file.path)
      case OpenedImage(img) => Some(RasterPlan(lib, out, file, img))
      case _ => None
  }

  /** A file whose buffers were made has one per size. */
  lemma FileBuffersLength(lib: Library, out: OutputType, file: File)
    requires FileBuffersOf(lib, out, file).Ok?
    ensures |FileBuffersOf(lib, out, file).value| == |file.sizes|
  {
  }

  /** A file whose buffers were made was read by its plan, and buffer `si` is the one for size `si`. */
  lemma {:induction false} FileBuffersPlan(lib: Library, out: OutputType, file: File, si: nat)
    requires FileBuffersOf(lib, out, file).Ok? && si < |file.sizes|
    ensures PlanOf(lib, out, file).Some? && PlanOf(lib, out, file).value.file == file
    ensures |FileBuffersOf(lib, out, file).value| == |file.sizes|
    ensures BufferFor(PlanOf(lib, out, file).value, file.sizes[si]) == Ok(FileBuffersOf(lib, out, file).value[si])
  {
  }

  /** A successful run is the buffers of all files but the last, then the last file's. */
  lemma AllBuffersSplit(lib: Library, out: OutputType, files: seq<File>)
    requires AllBuffers(lib, out, files).Ok? && files != []
    ensures var init := files[..|files| - 1];
      AllBuffers(lib, out, init).Ok? && FileBuffersOf(lib, out, files[|files| - 1]).Ok? &&
      AllBuffers(lib, out, files).value == AllBuffers(lib, out, init).value + FileBuffersOf(lib, out, files[|files| - 1]).value
  {
  }

  /** Each file's row of bindings, in file order. */
  function Rows(files: seq<File>): (r: seq<seq<Binding>>)
    ensures |r| == |files| && forall k :: 0 <= k < |files| ==> r[k] == Row(files[k])
  {
    seq(|files|, k requires 0 <= k < |files| => Row(files[k]))
  }

  /** The bindings are the files' rows joined in file order. */
  lemma {:induction false} BindingsConcat(files: seq<File>)
    ensures Bindings(files) == Concat(Rows(files))
  {
    if files != [] {
      var n := |files| - 1;
      BindingsConcat(files[..n]);
      assert Rows(files) == Rows(files[..n]) + [Row(files[n])];
      ConcatSnoc(Rows(files[..n]), Row(files[n]));
    }
  }

  /** The buffer lists of the files, in file order; a file that fails contributes none. */
  function BufferLists(lib: Library, out: OutputType, files: seq<File>): (r: seq<seq<Image>>)
    ensures |r| == |files|
    ensures forall k :: 0 <= k < |files| && FileBuffersOf(lib, out, files[k]).Ok? ==> r[k] == FileBuffersOf(lib, out, files[k]).value
  {
    seq(|files|, k requires 0 <= k < |files| =>
      match FileBuffersOf(lib, out, files[k]) case Ok(b) => b case Err(_) => [])
  }

  lemma BufferListsSnoc(lib: Library, out: OutputType, files: seq<File>)
    requires files != [] && FileBuffersOf(lib, out, files[|files| - 1]).Ok?
    ensures BufferLists(lib, out, files) ==
      BufferLists(lib, out, files[..|files| - 1]) + [FileBuffersOf(lib, out, files[|files| - 1]).value]
  {
    var n := |files| - 1;
    assert forall k :: 0 <= k < n ==> files[..n][k] == files[k];
  }

  /** A successful run is every file's buffers joined in file order. */
  lemma {:induction false} AllBuffersConcat(lib: Library, out: OutputType, files: seq<File>)
    requires AllBuffers(lib, out, files).Ok?
    ensures AllBuffers(lib, out, files).value == Concat(BufferLists(lib, out, files))
  {
    if files != [] {
      var n := |files| - 1;
      AllBuffersSplit(lib, out, files);
      AllBuffersConcat(lib, out, files[..n]);
      BufferListsSnoc(lib, out, files);
      ConcatSnoc(BufferLists(lib, out, files[..n]), FileBuffersOf(lib, out, files[n]).value);
    }
  }

  /** When every file succeeds, each file's list has one buffer per size, as its row has one binding per size. */
  lemma BufferListsLengths(lib: Library, out: OutputType, files: seq<File>)
    requires forall k :: 0 <= k < |files| ==> FileBuffersOf(lib, out, files[k]).Ok?
    ensures forall k :: 0 <= k < |files| ==> |BufferLists(lib, out, files)[k]| == |Rows(files)[k]|
  {
    forall k | 0 <= k < |files|
      ensures |BufferLists(lib, out, files)[k]| == |Rows(files)[k]|
    {
      FileBuffersLength(lib, out, files[k]);
    }
  }

  /** The binding at the position of size `si` of file `fi` is that size with that file's path. */
  lemma BindingAt(files: seq<File>, fi: nat, si: nat, p: nat)
    requires fi < |files| && si < |files[fi].sizes| && p == |Bindings(files[..fi])| + si
    ensures p < |Bindings(files)| && Bindings(files)[p] == Binding(files[fi].sizes[si], files[fi].path)
  {
    BindingsConcat(files);
    BindingsConcat(files[..fi]);
    assert Rows(files[..fi]) == Rows(files)[..fi];
    ConcatAt(Rows(files), fi, si, p);
  }

  /**
   * The buffers come in file order and then size order: the buffer at the position of size
   * `si` of file `fi` among the bindings is buffer `si` of that file.
   */
  lemma AllBuffersAt(lib: Library, out: OutputType, files: seq<File>, fi: nat, si: nat, p: nat)
    requires AllBuffers(lib, out, files).Ok? && fi < |files| && si < |files[fi].sizes|
    requires p == |Bindings(files[..fi])| + si
    ensures p < |AllBuffers(lib, out, files).value| && p < |Bindings(files)|
    ensures Bindings(files)[p] == Binding(files[fi].sizes[si], files[fi].path)
    ensures FileBuffersOf(lib, out, files[fi]).Ok? && si < |FileBuffersOf(lib, out, files[fi]).value|
    ensures AllBuffers(lib, out, files).value[p] == FileBuffersOf(lib, out, files[fi]).value[si]
  {
    BindingAt(files, fi, si, p);
    AllBuffersConcat(lib, out, files);
    BufferListsLengths(lib, out, files);
    BindingsConcat(files[..fi]);
    assert Rows(files[..fi]) == Rows(files)[..fi];
    ConcatParallelAt(BufferLists(lib, out, files), Rows(files), fi, si, p);
  }

  lemma AllBuffersSnoc(lib: Library, out: OutputType, files: seq<File>, fi: nat, bufs: seq<Image>, next: Result<seq<Image>, Error>)
    requires fi < |files| && AllBuffers(lib, out, files[..fi]) == Ok(bufs) && FileBuffersOf(lib, out, files[fi]) == next
    ensures AllBuffers(lib, out, files[..fi + 1]) == if next.Ok? then Ok(bufs + next.value) else Err(next.error)
  {
    assert files[..fi + 1][..fi] == files[..fi];
  }

  lemma {:induction false} AllBuffersPrefix(lib: Library, out: OutputType, files: seq<File>, j: nat)
    requires j <= |files| && AllBuffers(lib, out, files[..j]).Err?
    ensures AllBuffers(lib, out, files) == AllBuffers(lib, out, files[..j])
    decreases |files| - j
  {
    if j < |files| {
      assert files[..j + 1][..j] == files[..j];
      AllBuffersPrefix(lib, out, files, j + 1);
    } else {
      assert files[..j] == files;
    }
  }

  /** `images`: `output_type`, then `n_sizes`, then the buffers of each file in order. */
  function ImagesOf(lib: Library, cmd: Command): Result<seq<Image>, Error> {
    match OutputTypeOf(cmd.output)
    case Err(e) => Err(e)
    case Ok(out) =>
      match NSizesOf(cmd.files)
      case Err(e) => Err(e)
      case Ok(_) => AllBuffers(lib, out, cmd.files)
  }

  /** The loop of `images` over one file's sizes. */
  method GatherBuffers(plan: Plan, sizes: seq<Size>) returns (r: Result<seq<Image>, Error>)
    ensures r == Gather(plan, sizes)
  {
    var bufs: seq<Image> := [];
    for k := 0 to |sizes|
      invariant Gather(plan, sizes[..k]) == Ok(bufs)
    {
      var buf := BufferFor(plan, sizes[k]);
      GatherSnoc(plan, sizes, k, bufs);
      if buf.Err? {
        GatherPrefix(plan, sizes, k + 1);
        return Err(buf.error);
      }
      bufs := bufs + [buf.value];
    }
    assert sizes[..|sizes|] == sizes;
    r := Ok(bufs);
  }

  method FileBuffers(lib: Library, out: OutputType, file: File) returns (r: Result<seq<Image>, Error>)
    ensures r == FileBuffersOf(lib, out, file)
  {
    var ext := P.Ext(file.path);
    if ext == Some("svg") {
      r := GatherBuffers(SvgPlan(lib, out, file), file.sizes);
    } else {
      match lib.open(file.path)
      case OpenedImage(img) =>
        r := GatherBuffers(RasterPlan(lib, out, file, img), file.sizes);
      case OpenIoError(kind) =>
        r := Err(Io(kind, Some(file.path)));
      case OpenFailed =>
        r := Err(ImageError);
    }
  }

  /** The loop of `images` over the files; `started` counts the files whose work was started. */
  method AllFileBuffers(lib: Library, out: OutputType, files: seq<File>) returns (r: Result<seq<Image>, Error>, started: nat)
    ensures r == AllBuffers(lib, out, files)
    ensures r.Ok? ==> started == |files|
    ensures started <= |files|
  {
    var bufs: seq<Image> := [];
    started := 0;
    for fi := 0 to |files|
      invariant AllBuffers(lib, out, files[..fi]) == Ok(bufs) && started == fi
    {
      var more := FileBuffers(lib, out, files[fi]);
      AllBuffersSnoc(lib, out, files, fi, bufs, more);
      started := started + 1;
      if more.Err? {
        AllBuffersPrefix(lib, out, files, fi + 1);
        return Err(more.error), started;
      }
      bufs := bufs + more.value;
    }
    assert files[..|files|] == files;
    r := Ok(bufs);
  }

  /**
   * `images`, and `exec` up to the write (which only repeats `output_type` first): no file is
   * touched when the output type or the sizes are rejected.
   */
  method Images(lib: Library, cmd: Command) returns (r: Result<seq<Image>, Error>, started: nat)
    ensures r == ImagesOf(lib, cmd)
    ensures OutputTypeOf(cmd.output).Err? || NSizesOf(cmd.files).Err? ==> started == 0
    ensures r.Ok? ==> started == |cmd.files|
  {
    var out := OutputTypeOf(cmd.output);
    if out.Err? {
      return Err(out.error), 0;
    }
    var n := NSizes(cmd.files);
    if n.Err? {
      return Err(n.error), 0;
    }
    r, started := AllFileBuffers(lib, out.value, cmd.files);
  }

  // ---------------------------------------------------------------------------------------
  // Properties of the buffers

  /** A raster source downsized with the Nearest filter is refused, unless the Proportional check fires first. */
  lemma NearestDownsizeRefused(lib: Library, out: OutputType, file: File, img: Image, s: Size)
    requires s.w < img.width || s.h < img.height
    requires file.filterType == Nearest && !ProportionalRefused(out, file, s)
    ensures BufferFor(RasterPlan(lib, out, file, img), s) == Err(Syntax(InvalidDownsizingOpts(s)))
  {
  }

  /** Under Proportional fit a raster source gives the library's resize unchanged. */
  lemma ProportionalKeepsResize(lib: Library, out: OutputType, file: File, img: Image, s: Size)
    requires file.fitType == Proportional && !ProportionalRefused(out, file, s)
    requires file.filterType != Nearest || (img.width <= s.w && img.height <= s.h)
    ensures BufferFor(RasterPlan(lib, out, file, img), s) == Ok(lib.resize(img, s.w, s.h, file.filterType))
  {
  }

  /** With a resize that fits its box, Exact fit gives every raster-source buffer exactly its size. */
  lemma ExactRasterSize(lib: Library, out: OutputType, file: File, img: Image, s: Size)
    requires BoxedResize(lib) && file.fitType == Exact
    requires file.filterType != Nearest || (img.width <= s.w && img.height <= s.h)
    ensures var r := BufferFor(RasterPlan(lib, out, file, img), s);
      r.Ok? && r.value.width == s.w && r.value.height == s.h
  {
    ResizeExact(lib, img, s.w, s.h, file.filterType);
  }

  /** An SVG file with no sizes is never parsed: it gives no buffers and no error. */
  lemma SvgWithoutSizes(lib: Library, out: OutputType, file: File)
    requires P.ExtOf(file.path) == Some("svg") && file.sizes == []
    ensures FileBuffersOf(lib, out, file) == Ok([])
  {
  }

  /** A successful command gives one buffer per size, and its sizes are distinct. */
  lemma ImagesPerSize(lib: Library, cmd: Command)
    requires ImagesOf(lib, cmd).Ok?
    ensures |ImagesOf(lib, cmd).value| == |Bindings(cmd.files)|
    ensures forall j, k :: 0 <= j < k < |Bindings(cmd.files)| ==> Bindings(cmd.files)[j].size != Bindings(cmd.files)[k].size
  {
    NSizesCounted(cmd.files);
    var out := OutputTypeOf(cmd.output).value;
    AllBuffersCount(lib, out, cmd.files);
  }

  /**
   * In a successful command, the buffer at the position `p` of size `si` of file `fi` among
   * the bindings is that file's buffer for that size; under Exact fit it has exactly that size
   * (an SVG raster's dimensions as `u16`).
   */
  lemma {:induction false} ImagesInOrder(lib: Library, cmd: Command, fi: nat, si: nat, p: nat)
    requires ImagesOf(lib, cmd).Ok? && fi < |cmd.files| && si < |cmd.files[fi].sizes|
    requires p == |Bindings(cmd.files[..fi])| + si
    ensures p < |ImagesOf(lib, cmd).value| && p < |Bindings(cmd.files)|
    ensures Bindings(cmd.files)[p] == Binding(cmd.files[fi].sizes[si], cmd.files[fi].path)
    ensures OutputTypeOf(cmd.output).Ok? && PlanOf(lib, OutputTypeOf(cmd.output).value, cmd.files[fi]).Some?
    ensures BufferFor(PlanOf(lib, OutputTypeOf(cmd.output).value, cmd.files[fi]).value, cmd.files[fi].sizes[si]) ==
      Ok(ImagesOf(lib, cmd).value[p])
    ensures cmd.files[fi].fitType == Exact && PlanOf(lib, OutputTypeOf(cmd.output).value, cmd.files[fi]).value.RasterPlan? ==>
      ImagesOf(lib, cmd).value[p].width == cmd.files[fi].sizes[si].w && ImagesOf(lib, cmd).value[p].height == cmd.files[fi].sizes[si].h
    ensures cmd.files[fi].fitType == Exact && PlanOf(lib, OutputTypeOf(cmd.output).value, cmd.files[fi]).value.SvgPlan? ==>
      ImagesOf(lib, cmd).value[p].width % U16_LIMIT == cmd.files[fi].sizes[si].w &&
      ImagesOf(lib, cmd).value[p].height % U16_LIMIT == cmd.files[fi].sizes[si].h
  {
    var out := OutputTypeOf(cmd.output).value;
    assert ImagesOf(lib, cmd) == AllBuffers(lib, out, cmd.files);
    AllBuffersAt(lib, out, cmd.files, fi, si, p);
    FileBuffersPlan(lib, out, cmd.files[fi], si);
    var plan := PlanOf(lib, out, cmd.files[fi]).value;
    ExactBuffer(plan, cmd.files[fi].sizes[si], AllBuffers(lib, out, cmd.files).value[p]);
  }

  lemma ExactBuffer(plan: Plan, s: Size, buf: Image)
    requires BufferFor(plan, s) == Ok(buf)
    ensures plan.file.fitType == Exact && plan.RasterPlan? ==> buf.width == s.w && buf.height == s.h
    ensures plan.file.fitType == Exact && plan.SvgPlan? ==> buf.width % U16_LIMIT == s.w && buf.height % U16_LIMIT == s.h
  {
  }
}
