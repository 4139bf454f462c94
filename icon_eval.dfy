/**
 * The newer evaluator (src/eval/mod.rs): every distinct source path is decoded once into a
 * map, then the entries are fed in order to an icon builder, stopping at the first error.
 *
 * The icon builder and the decoder belong to a library whose code is not part of this model:
 * the decoder is a function from a path to an optional decoded source of some type `S`, and
 * the builder is described by the entries it has accepted together with the verdict function
 * `add`, which answers each `add_entry` call from the builder's state and the call's arguments.
 */
module IconEval {
  import opened Wrappers
  import opened Tokens
  import opened Io
  import opened Cli

  /** The resampling functions of the icon builder that the `resample!` macro chooses from. */
  datatype Resampler = NearestFn | LinearFn | CubicFn

  /** `resample!`: the builder's resampling function for a filter of the command line. */
  function ResamplerOf(f: Filter): Resampler {
    match f
    case Nearest => NearestFn
    case Linear => LinearFn
    case Cubic => CubicFn
  }

  /** The filter named on the command line that selects a resampling function. */
  function FilterOf(r: Resampler): Filter {
    match r
    case NearestFn => Nearest
    case LinearFn => Linear
    case CubicFn => Cubic
  }

  /** `resample!` is one-to-one and onto: each filter has its own resampling function. */
  lemma ResamplerRoundTrip(f: Filter, r: Resampler)
    ensures FilterOf(ResamplerOf(f)) == f && ResamplerOf(FilterOf(r)) == r
    ensures ResamplerOf(f) == r <==> f == FilterOf(r)
  {
  }

  /** One accepted `add_entry` call: the resampling function, the decoded source and the size. */
  datatype Added<S> = Added(resampler: Resampler, source: S, size: nat)

  /** The icon under construction: its container kind and the entries it has accepted, in order. */
  datatype Builder<S> = Builder(kind: IconType, added: seq<Added<S>>)

  /** The builder's answer to `add_entry(filter, source, size)` in a given state: None for `Ok(())`. */
  type Adder<!S> = (Builder<S>, Resampler, S, nat) -> Option<BakerError>

  function Paths(bs: seq<Binding>): (ps: seq<string>)
    ensures |ps| == |bs| && forall k :: 0 <= k < |bs| ==> ps[k] == bs[k].path
  {
    seq(|bs|, k requires 0 <= k < |bs| => bs[k].path)
  }

  predicate NoDuplicates(ps: seq<string>) {
    forall j, k :: 0 <= j < k < |ps| ==> ps[j] != ps[k]
  }

  /** The paths of `ps` without repetition, in the order of their first occurrence. */
  function Distinct(ps: seq<string>): (ds: seq<string>)
    ensures NoDuplicates(ds)
    ensures forall p :: p in ds <==> p in ps
    decreases |ps|
  {
    if ps == [] then []
    else
      var d := Distinct(ps[..|ps| - 1]);
      assert forall p :: p in ps <==> p in ps[..|ps| - 1] || p == ps[|ps| - 1] by {
        assert ps == ps[..|ps| - 1] + [ps[|ps| - 1]];
      }
      if ps[|ps| - 1] in d then d else d + [ps[|ps| - 1]]
  }

  /** The distinct paths of a prefix are a prefix of the distinct paths of the whole sequence. */
  lemma {:induction false} DistinctPrefix(ps: seq<string>, j: nat)
    requires j <= |ps|
    ensures Distinct(ps[..j]) <= Distinct(ps)
    decreases |ps|
  {
    if j < |ps| {
      var init := ps[..|ps| - 1];
      assert init[..j] == ps[..j];
      DistinctPrefix(init, j);
    } else {
      assert ps[..j] == ps;
    }
  }

  /** One more path extends the distinct paths exactly when it has not occurred before. */
  lemma DistinctSnoc(ps: seq<string>, j: nat)
    requires j < |ps|
    ensures ps[j] in ps[..j] ==> Distinct(ps[..j + 1]) == Distinct(ps[..j])
    ensures ps[j] !in ps[..j] ==> Distinct(ps[..j + 1]) == Distinct(ps[..j]) + [ps[j]]
  {
    assert ps[..j + 1][..j] == ps[..j];
  }

  /** The index of the first path in `ps` that the decoder fails on, if any. */
  function FirstFailure<S>(ps: seq<string>, decode: string -> Option<S>): (r: Option<nat>)
    ensures r.Some? ==> (r.value < |ps| && decode(ps[r.value]).None? &&
      forall k :: 0 <= k < r.value ==> decode(ps[k]).Some?)
    ensures r.None? ==> forall k :: 0 <= k < |ps| ==> decode(ps[k]).Some?
    decreases |ps|
  {
    if ps == [] then None
    else if decode(ps[0]).None? then Some(0)
    else match FirstFailure(ps[1..], decode)
      case Some(k) => Some(k + 1)
      case None => None
  }

  /** The first failure is the one failing path with no failing path before it. */
  lemma FirstFailureAt<S>(ps: seq<string>, decode: string -> Option<S>, j: nat)
    requires j < |ps| && decode(ps[j]).None?
    requires forall k :: 0 <= k < j ==> decode(ps[k]).Some?
    ensures FirstFailure(ps, decode) == Some(j)
  {
    var r := FirstFailure(ps, decode);
    assert r.Some?;
    assert !(r.value < j) && !(j < r.value);
  }

  /** The source map of a run of entries whose paths all decode: each path to its decoded source. */
  function SourceMap<S>(bs: seq<Binding>, decode: string -> Option<S>): (m: map<string, S>)
    requires FirstFailure(Paths(bs), decode).None?
    ensures forall p :: p in m <==> p in Paths(bs)
    ensures forall p :: p in m ==> decode(p) == Some(m[p])
  {
    var ps := Paths(bs);
    assert forall p :: p in ps ==> decode(p).Some?;
    map p | p in ps :: decode(p).value
  }

  /** A map with the paths of `bs` as its keys and their decoded sources as values is the source map. */
  lemma SourceMapUnique<S>(bs: seq<Binding>, decode: string -> Option<S>, m: map<string, S>)
    requires FirstFailure(Paths(bs), decode).None?
    requires forall p :: p in m <==> p in Paths(bs)
    requires forall p :: p in m ==> decode(p) == Some(m[p])
    ensures m == SourceMap(bs, decode)
  {
  }

  /** `get_source_map` after the first `j` paths: none failed, the map holds them, each decoded once. */
  ghost predicate Scanned<S>(ps: seq<string>, decode: string -> Option<S>, m: map<string, S>, decoded: seq<string>, j: nat)
  {
    j <= |ps| &&
    (forall k :: 0 <= k < j ==> decode(ps[k]).Some?) &&
    (forall p :: p in m <==> p in ps[..j]) &&
    (forall p :: p in m ==> decode(p) == Some(m[p])) &&
    decoded == Distinct(ps[..j])
  }

  lemma PrefixSnoc(ps: seq<string>, j: nat)
    requires j < |ps|
    ensures forall p :: p in ps[..j + 1] <==> p in ps[..j] || p == ps[j]
  {
    assert ps[..j + 1] == ps[..j] + [ps[j]];
  }

  /** A path already in the map is skipped. */
  lemma ScanKnown<S>(ps: seq<string>, decode: string -> Option<S>, m: map<string, S>, decoded: seq<string>, j: nat)
    requires Scanned(ps, decode, m, decoded, j) && j < |ps| && ps[j] in m
    ensures Scanned(ps, decode, m, decoded, j + 1)
  {
    DistinctSnoc(ps, j);
    PrefixSnoc(ps, j);
  }

  /** A new path that decodes is logged and inserted. */
  lemma ScanDecoded<S>(ps: seq<string>, decode: string -> Option<S>, m: map<string, S>, decoded: seq<string>, j: nat, source: S)
    requires Scanned(ps, decode, m, decoded, j) && j < |ps| && ps[j] !in m && decode(ps[j]) == Some(source)
    ensures Scanned(ps, decode, m[ps[j] := source], decoded + [ps[j]], j + 1)
  {
    DistinctSnoc(ps, j);
    PrefixSnoc(ps, j);
  }

  /** A new path that does not decode is logged and is the first failure. */
  lemma ScanFailed<S>(ps: seq<string>, decode: string -> Option<S>, m: map<string, S>, decoded: seq<string>, j: nat)
    requires Scanned(ps, decode, m, decoded, j) && j < |ps| && ps[j] !in m && decode(ps[j]).None?
    ensures FirstFailure(ps, decode) == Some(j) && decoded + [ps[j]] == Distinct(ps[..j + 1])
  {
    DistinctSnoc(ps, j);
    FirstFailureAt(ps, decode, j);
  }

  /** Every path scanned without failure: the map is the source map and each path was decoded once. */
  lemma ScanDone<S>(bs: seq<Binding>, decode: string -> Option<S>, m: map<string, S>, decoded: seq<string>)
    requires Scanned(Paths(bs), decode, m, decoded, |bs|)
    ensures FirstFailure(Paths(bs), decode).None?
    ensures m == SourceMap(bs, decode) && decoded == Distinct(Paths(bs))
  {
    var ps := Paths(bs);
    assert ps[..|bs|] == ps;
    assert forall k :: 0 <= k < |ps| ==> decode(ps[k]).Some?;
    SourceMapUnique(bs, decode, m);
  }

  /** The first failing path is on no entry before it: it is handed to the decoder once, and last. */
  lemma FailingPathIsNew<S>(bs: seq<Binding>, decode: string -> Option<S>)
    requires FirstFailure(Paths(bs), decode).Some?
    ensures var k := FirstFailure(Paths(bs), decode).value;
      bs[k].path !in Paths(bs)[..k] && Distinct(Paths(bs)[..k + 1]) == Distinct(Paths(bs)[..k]) + [bs[k].path]
  {
    var ps := Paths(bs);
    var k := FirstFailure(ps, decode).value;
    assert forall j :: 0 <= j < k ==> ps[..k][j] != ps[k] by {
      forall j | 0 <= j < k ensures ps[..k][j] != ps[k] {
        assert decode(ps[j]).Some?;
      }
    }
    DistinctSnoc(ps, k);
  }

  /**
   * `get_source_map`: a path is decoded when it is not yet in the map; the first failure is a
   * NotFound error naming its path. `decoded` lists the paths handed to the decoder, in order.
   */
  method GetSourceMap<S>(bs: seq<Binding>, decode: string -> Option<S>)
      returns (r: Result<map<string, S>, Error>, decoded: seq<string>)
    ensures NoDuplicates(decoded)
    ensures FirstFailure(Paths(bs), decode).None? ==>
      r == Ok(SourceMap(bs, decode)) && decoded == Distinct(Paths(bs))
    ensures FirstFailure(Paths(bs), decode).Some? ==>
      var k := FirstFailure(Paths(bs), decode).value;
      r == Err(Io(NotFound, ToFile(bs[k].path))) && decoded == Distinct(Paths(bs)[..k + 1])
  {
    var ps := Paths(bs);
    var m: map<string, S> := map[];
    decoded := [];
    for j := 0 to |bs|
      invariant Scanned(ps, decode, m, decoded, j)
    {
      var path := bs[j].path;
      if path in m {
        ScanKnown(ps, decode, m, decoded, j);
      } else {
        match decode(path)
        case None =>
          ScanFailed(ps, decode, m, decoded, j);
          return Err(Io(NotFound, ToFile(path))), decoded + [path];
        case Some(source) =>
          ScanDecoded(ps, decode, m, decoded, j, source);
          m, decoded := m[path := source], decoded + [path];
      }
    }
    ScanDone(bs, decode, m, decoded);
    r := Ok(m);
  }

  /** `add_entry`'s error as `get_icon` reports it: I/O errors carry the entry's path, the rest is wrapped. */
  function Retag(e: BakerError, path: string): Error {
    match e
    case BakerIo(kind) => Io(kind, ToFile(path))
    case Rejected(_) => IconBaker(e)
  }

  /** The entries as `add_entry` receives them, each with its path's decoded source. */
  function AddedFor<S>(bs: seq<Binding>, m: map<string, S>): (added: seq<Added<S>>)
    requires forall k :: 0 <= k < |bs| ==> bs[k].path in m
    ensures |added| == |bs|
    ensures forall k :: 0 <= k < |bs| ==> added[k] == Added(ResamplerOf(bs[k].filter), m[bs[k].path], bs[k].size)
  {
    seq(|bs|, k requires 0 <= k < |bs| => Added(ResamplerOf(bs[k].filter), m[bs[k].path], bs[k].size))
  }

  /** The builder's verdict on entry `k`, given that it accepted every entry before it. */
  function Verdict<S>(kind: IconType, bs: seq<Binding>, m: map<string, S>, add: Adder<S>, k: nat): Option<BakerError>
    requires forall j :: 0 <= j < |bs| ==> bs[j].path in m
    requires k < |bs|
  {
    add(Builder(kind, AddedFor(bs, m)[..k]), ResamplerOf(bs[k].filter), m[bs[k].path], bs[k].size)
  }

  /** The builder accepted each of the first `n` entries. */
  ghost predicate Accepted<S>(kind: IconType, bs: seq<Binding>, m: map<string, S>, add: Adder<S>, n: nat)
    requires forall j :: 0 <= j < |bs| ==> bs[j].path in m
    requires n <= |bs|
  {
    forall k :: 0 <= k < n ==> Verdict(kind, bs, m, add, k).None?
  }

  /**
   * What feeding the entries to the builder yields after `calls` calls of `add_entry`: either
   * every entry was accepted and the icon holds them all, in order, or the entries before the
   * last call were accepted and the last call's error is the result.
   */
  ghost predicate Fed<S>(kind: IconType, bs: seq<Binding>, m: map<string, S>, add: Adder<S>,
                         r: Result<Builder<S>, Error>, calls: nat)
    requires forall j :: 0 <= j < |bs| ==> bs[j].path in m
  {
    if r.Ok? then
      calls == |bs| && Accepted(kind, bs, m, add, |bs|) && r.value == Builder(kind, AddedFor(bs, m))
    else
      1 <= calls <= |bs| && Accepted(kind, bs, m, add, calls - 1) &&
      Verdict(kind, bs, m, add, calls - 1).Some? &&
      r.error == Retag(Verdict(kind, bs, m, add, calls - 1).value, bs[calls - 1].path)
  }

  /** `Fed` pins down the outcome: there is one result and one number of calls that satisfy it. */
  lemma FedDeterministic<S>(kind: IconType, bs: seq<Binding>, m: map<string, S>, add: Adder<S>,
                            r1: Result<Builder<S>, Error>, calls1: nat, r2: Result<Builder<S>, Error>, calls2: nat)
    requires forall j :: 0 <= j < |bs| ==> bs[j].path in m
    requires Fed(kind, bs, m, add, r1, calls1) && Fed(kind, bs, m, add, r2, calls2)
    ensures r1 == r2 && calls1 == calls2
  {
  }

  /** The loop of `get_icon`: one `add_entry` call per entry, in order, up to the first error. */
  method AddEntries<S>(kind: IconType, bs: seq<Binding>, m: map<string, S>, add: Adder<S>)
      returns (r: Result<Builder<S>, Error>, calls: nat)
    requires forall j :: 0 <= j < |bs| ==> bs[j].path in m
    ensures Fed(kind, bs, m, add, r, calls)
  {
    ghost var whole := AddedFor(bs, m);
    var icon := Builder(kind, []);
    calls := 0;
    for j := 0 to |bs|
      invariant calls == j
      invariant icon == Builder(kind, whole[..j])
      invariant Accepted(kind, bs, m, add, j)
    {
      var b := bs[j];
      var source := m[b.path];
      var verdict := add(icon, ResamplerOf(b.filter), source, b.size);
      assert verdict == Verdict(kind, bs, m, add, j);
      calls := calls + 1;
      match verdict
      case Some(e) =>
        return Err(Retag(e, b.path)), calls;
      case None =>
        assert whole[..j + 1] == whole[..j] + [Added(ResamplerOf(b.filter), source, b.size)];
        icon := Builder(kind, icon.added + [Added(ResamplerOf(b.filter), source, b.size)]);
    }
    assert whole[..|bs|] == whole;
    r := Ok(icon);
  }

  /**
   * `get_icon`: builds the source map, then calls `add_entry` once per entry in order and
   * stops at the first error; no entry is added when a source fails to decode.
   * `calls` counts the `add_entry` calls made.
   */
  method GetIcon<S>(kind: IconType, bs: seq<Binding>, decode: string -> Option<S>, add: Adder<S>)
      returns (r: Result<Builder<S>, Error>, decoded: seq<string>, calls: nat)
    ensures NoDuplicates(decoded)
    ensures FirstFailure(Paths(bs), decode).Some? ==>
      calls == 0 && r == Err(Io(NotFound, ToFile(bs[FirstFailure(Paths(bs), decode).value].path)))
    ensures FirstFailure(Paths(bs), decode).None? ==>
      Fed(kind, bs, SourceMap(bs, decode), add, r, calls)
  {
    var sources;
    sources, decoded := GetSourceMap(bs, decode);
    if sources.Err? {
      return Err(sources.error), decoded, 0;
    }
    var m := sources.value;
    assert forall j :: 0 <= j < |bs| ==> bs[j].path in m by {
      assert forall j :: 0 <= j < |bs| ==> bs[j].path == Paths(bs)[j];
    }
    r, calls := AddEntries(kind, bs, m, add);
  }

  /** `icon`: the container type picks the builder; writing the finished icon is not modelled. */
  method BuildIcon<S>(bs: seq<Binding>, iconType: IconType, decode: string -> Option<S>, add: Adder<S>)
      returns (r: Result<Builder<S>, Error>, decoded: seq<string>, calls: nat)
    ensures NoDuplicates(decoded)
    ensures FirstFailure(Paths(bs), decode).Some? ==>
      calls == 0 && r == Err(Io(NotFound, ToFile(bs[FirstFailure(Paths(bs), decode).value].path)))
    ensures FirstFailure(Paths(bs), decode).None? ==>
      Fed(iconType, bs, SourceMap(bs, decode), add, r, calls)
    ensures r.Ok? ==> (r.value.kind == iconType && FirstFailure(Paths(bs), decode).None? &&
      r.value.added == AddedFor(bs, SourceMap(bs, decode)) && calls == |bs|)
  {
    match iconType
    case Ico => r, decoded, calls := GetIcon(IconType.Ico, bs, decode, add);
    case Icns => r, decoded, calls := GetIcon(IconType.Icns, bs, decode, add);
    case PngSequence => r, decoded, calls := GetIcon(PngSequence, bs, decode, add);
  }
}
